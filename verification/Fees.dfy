/** The 2% fee, computed by the contract in IEEE 754 double arithmetic and cut to an integer. */
module Fees {
  import opened Words

  /** The constant 0.02 as a double is FEE_NUMERATOR / 2^58. */
  const FEE_NUMERATOR: nat := 5764607523034235
  const TWO_52: nat := 0x10_0000_0000_0000
  const TWO_53: nat := 0x20_0000_0000_0000
  const TWO_57: nat := 0x200_0000_0000_0000
  const TWO_58: nat := 0x400_0000_0000_0000

  /** Of all numbers with 53 significant bits, FEE_NUMERATOR / 2^58 is the nearest to two hundredths. */
  lemma NumeratorIsNearest(n: nat)
    ensures TWO_52 <= FEE_NUMERATOR < TWO_53
    ensures 100 * FEE_NUMERATOR - 2 * TWO_58 == 12
    ensures n != FEE_NUMERATOR ==> 100 * n - 2 * TWO_58 > 12 || 2 * TWO_58 - 100 * n > 12
  {
  }

  /** The spacing of 53-bit significands around n: the power of two that leaves n a 53-bit quotient. */
  function Ulp(n: nat): (u: nat)
    ensures u >= 1
  {
    if n < TWO_53 then 1 else 2 * Ulp(n / 2)
  }

  function NearestEven(n: nat, u: nat): nat
    requires u >= 1
  {
    var q, r := n / u, n % u;
    if 2 * r < u then q else if 2 * r > u then q + 1 else q + q % 2
  }

  /** n rounded to a double, ties to even (section 4.3.1 of IEEE 754-2008). Here n may also stand
      for n / 2^58: scaling by a power of two does not change the rounding. */
  function ToDouble(n: nat): nat {
    NearestEven(n, Ulp(n)) * Ulp(n)
  }

  /** asset(FEES_PERCENTAGE * quantity.amount): the amount is converted to a double, multiplied with
      rounding, and truncated. */
  function FeeOf(amount: nat): nat {
    ToDouble(ToDouble(amount) * FEE_NUMERATOR) / TWO_58
  }

  /** Ulp(n) is a power of two no larger than 2^k when n < 2^(53+k). */
  lemma {:induction false} UlpBound(n: nat, k: nat)
    requires n < TWO_53 * Pow2(k)
    ensures exists e: nat :: e <= k && Ulp(n) == Pow2(e)
  {
    if n < TWO_53 {
      assert Pow2(0) == 1;
    } else {
      assert k != 0;
      UlpBound(n / 2, k - 1);
      var e: nat :| e <= k - 1 && Ulp(n / 2) == Pow2(e);
      assert Pow2(e + 1) == 2 * Pow2(e);
    }
  }

  lemma NearestEvenError(n: nat, u: nat)
    requires u >= 1
    ensures 2 * (NearestEven(n, u) * u) <= 2 * n + u
    ensures 2 * n <= 2 * (NearestEven(n, u) * u) + u
  {
  }

  lemma {:induction false} Pow2Split(e: nat, k: nat)
    requires e <= k
    ensures Pow2(k) == Pow2(k - e) * Pow2(e)
  {
    if e != 0 {
      Pow2Split(e - 1, k - 1);
    }
  }

  lemma Pow2Values()
    ensures Pow2(53) == TWO_53 && Pow2(54) == 2 * TWO_53 && Pow2(55) == 4 * TWO_53 && Pow2(58) == TWO_58
  {
    assert Pow2(10) == 1024;
    Pow2Split(10, 20); Pow2Split(10, 30); Pow2Split(10, 40); Pow2Split(10, 50);
    assert Pow2(3) == 8 && Pow2(8) == 256;
    Pow2Split(3, 53); Pow2Split(8, 58);
    assert Pow2(50) == 0x4_0000_0000_0000;
  }

  /** Rounding reaches an even multiple of the spacing exactly when half the spacing gets there. */
  lemma RoundReaches(n: nat, u: nat, m: nat)
    requires u >= 1
    ensures NearestEven(n, u) >= 2 * m <==> 2 * n + u >= 4 * (m * u)
  {
    var q, r := n / u, n % u;
    var (qu, mu) := (q * u, m * u);
    assert n == qu + r;
    assert (2 * m) * u == 2 * mu;
    if q >= 2 * m {
      MulMonotone(2 * m, q, u);
    } else if q + 1 < 2 * m {
      assert (q + 2) * u == qu + 2 * u;
      MulMonotone(q + 2, 2 * m, u);
    } else {
      assert (q + 1) * u == qu + u;
    }
  }

  lemma UnitReached(n: nat, u: nat, half: nat, a: nat)
    requires u >= 1 && TWO_58 == 2 * (half * u)
    ensures NearestEven(n, u) * u >= a * TWO_58 <==> 2 * n + u >= 2 * (a * TWO_58)
  {
    var (p, m) := (NearestEven(n, u), a * half);
    MulAssoc(a, half, u);
    assert a * TWO_58 == 2 * (m * u) == (2 * m) * u;
    RoundReaches(n, u, m);
    if p >= 2 * m {
      MulMonotone(2 * m, p, u);
    } else {
      MulMonotone(p + 1, 2 * m, u);
      assert (p + 1) * u == p * u + u;
    }
  }

  /** While the spacing is below the unit, rounding a product and truncating it come to one division
      that adds half the spacing: ties go up, since whole units are even multiples of the spacing. */
  lemma RoundThenTruncate(n: nat, e: nat, a: nat)
    requires e <= 57 && Ulp(n) == Pow2(e)
    requires a * TWO_58 * 2 <= 2 * n + Pow2(e) < (a + 1) * TWO_58 * 2
    ensures ToDouble(n) / TWO_58 == a
  {
    Pow2Values();
    Pow2Split(e, 58);
    assert Pow2(58 - e) == 2 * Pow2(57 - e);
    var (u, half) := (Pow2(e), Pow2(57 - e));
    assert TWO_58 == 2 * (half * u) by { MulAssoc(2, half, u); }
    UnitReached(n, u, half, a);
    UnitReached(n, u, half, a + 1);
    QuotientIs(ToDouble(n), TWO_58, a);
  }

  lemma SpacingAtMost(n: nat, k: nat) returns (e: nat)
    requires n < TWO_53 * Pow2(k)
    ensures e <= k && Ulp(n) == Pow2(e) <= Pow2(k)
  {
    UlpBound(n, k);
    e :| e <= k && Ulp(n) == Pow2(e);
    Pow2Split(e, k);
    MulMonotone(1, Pow2(k - e), Pow2(e));
  }

  /** If one half of the spacing is less than what is missing to the next unit, rounding does not
      reach it. */
  lemma RoundedUnits(n: nat, k: nat, a: nat)
    requires k <= 57 && n < TWO_53 * Pow2(k)
    requires a * TWO_58 <= n && 2 * n + Pow2(k) < 2 * ((a + 1) * TWO_58)
    ensures ToDouble(n) / TWO_58 == a
  {
    var e := SpacingAtMost(n, k);
    RoundThenTruncate(n, e, a);
  }

  lemma MulAssoc(a: nat, b: nat, c: nat)
    ensures (a * b) * c == a * (b * c)
  {
  }

  /** Below 2^53 the floating-point fee is exactly one fiftieth, rounded down. */
  lemma FeeIsExact(amount: nat)
    requires 0 < amount < TWO_53
    ensures FeeOf(amount) == amount / 50
  {
    Pow2Values();
    assert ToDouble(amount) == amount;
    RoundedUnits(amount * FEE_NUMERATOR, 53, amount / 50);
  }

  /** One half of the even double next to n: odd numbers go to a multiple of four. */
  function EvenHalf(n: nat): nat {
    2 * (n / 4) + match n % 4 case 0 => 0 case 1 => 0 case 2 => 1 case _ => 2
  }

  lemma SpacingTwo(n: nat)
    requires TWO_53 <= n < 2 * TWO_53
    ensures ToDouble(n) == 2 * EvenHalf(n)
  {
    assert Ulp(n / 2) == 1;
    assert Ulp(n) == 2;
    assert n == 4 * (n / 4) + n % 4;
  }

  lemma EvenProductFee(half: nat)
    requires half <= TWO_53
    ensures ToDouble(2 * half * FEE_NUMERATOR) / TWO_58 == half / 25
  {
    Pow2Values();
    RoundedUnits(2 * half * FEE_NUMERATOR, 54, half / 25);
  }

  lemma EvenHalfIs(n: nat, q: nat, r: nat)
    requires n == 4 * q + r && r < 4
    ensures EvenHalf(n) == 2 * q + if r == 3 then 2 else if r == 2 then 1 else 0
  {
    assert n / 4 == q && n % 4 == r;
  }

  /** The same for n with its last two digits 4 * w + r. */
  lemma HalfDigits(m: nat, w: nat, r: nat, half: nat)
    requires w < 25 && r < 4
    requires half == 2 * (25 * m + w) + if r == 3 then 2 else if r == 2 then 1 else 0
    ensures
      var q := 2 * m + (if 4 * w + r >= 50 then 1 else 0) + (if 4 * w + r == 99 then 1 else 0);
      q * 25 <= half < (q + 1) * 25
  {
  }

  lemma NextFiftieth(n: nat)
    ensures EvenHalf(n) / 25 == n / 50 + if n % 100 == 99 then 1 else 0
  {
    var (m, s) := (n / 100, n % 100);
    var (w, r) := (s / 4, s % 4);
    EvenHalfIs(n, 25 * m + w, r);
    HalfDigits(m, w, r, EvenHalf(n));
    var q := 2 * m + if s >= 50 then 1 else 0;
    QuotientIs(n, 50, q);
    QuotientIs(EvenHalf(n), 25, if s == 99 then q + 1 else q);
  }

  /** From 2^53 up to 2^54 it is one fiftieth except at amounts that end in 99: these become the next
      double, a multiple of one hundred. */
  lemma FeeIsExactIff(amount: nat)
    requires TWO_53 <= amount < 2 * TWO_53
    ensures FeeOf(amount) == amount / 50 <==> amount % 100 != 99
    ensures amount % 100 == 99 ==> FeeOf(amount) == amount / 50 + 1
  {
    SpacingTwo(amount);
    EvenProductFee(EvenHalf(amount));
    NextFiftieth(amount);
  }

  // ---------- from 2^54 up to 2^55 ----------

  /** One fourth of the double next to n, a multiple of four; ties go to a multiple of eight. */
  function Quarter(n: nat): nat {
    2 * (n / 8) + match n % 8 case 0 => 0 case 1 => 0 case 2 => 0 case 6 => 2 case 7 => 2 case _ => 1
  }

  lemma SpacingFour(n: nat)
    requires 2 * TWO_53 <= n < 4 * TWO_53
    ensures ToDouble(n) == 4 * Quarter(n)
  {
    assert Ulp(n / 2 / 2) == 1;
    assert Ulp(n / 2) == 2;
    assert Ulp(n) == 4;
    var (a, r) := (n / 8, n % 8);
    assert n == 8 * a + r;
    assert n / 4 == 2 * a + r / 4 && n % 4 == r % 4;
  }

  /** Seven sixths of 2^54: from this double on, rounding lifts the last 2 of 50 units to a fee unit. */
  const LIFTED: nat := 21016798261062348

  function LiftedFee(d: nat): nat {
    if d % 50 == 48 && d >= LIFTED then d / 50 + 1 else d / 50
  }

  lemma {:induction false} UlpIs(n: nat, k: nat)
    requires TWO_52 * Pow2(k) <= n < TWO_53 * Pow2(k)
    ensures Ulp(n) == Pow2(k)
  {
    if k == 0 {
      assert Pow2(0) == 1;
    } else {
      assert n / 2 < TWO_53 * Pow2(k - 1);
      UlpIs(n / 2, k - 1);
    }
  }

  lemma ProductSpacing(half: nat) returns (e: nat)
    requires TWO_53 <= half <= 2 * TWO_53
    ensures e <= 55 && Ulp(2 * half * FEE_NUMERATOR) == Pow2(e)
    ensures Pow2(e) == if 2 * half * FEE_NUMERATOR < 2 * TWO_53 * TWO_53 then 2 * TWO_53 else 4 * TWO_53
  {
    Pow2Values();
    e := if 2 * half * FEE_NUMERATOR < 2 * TWO_53 * TWO_53 then 54 else 55;
    UlpIs(2 * half * FEE_NUMERATOR, e);
  }

  lemma LiftedBounds(half: nat, a: nat, r: nat, u: nat)
    requires TWO_53 <= half <= 2 * TWO_53 && half == 25 * a + r && r < 25
    requires u == if 2 * half * FEE_NUMERATOR < 2 * TWO_53 * TWO_53 then 2 * TWO_53 else 4 * TWO_53
    ensures
      var fee := if r == 24 && 2 * half >= LIFTED then a + 1 else a;
      fee * TWO_58 * 2 <= 2 * (2 * half * FEE_NUMERATOR) + u < (fee + 1) * TWO_58 * 2
  {
  }

  lemma LiftedProductFee(half: nat)
    requires TWO_53 <= half <= 2 * TWO_53
    ensures ToDouble(2 * half * FEE_NUMERATOR) / TWO_58 == LiftedFee(2 * half)
  {
    var e := ProductSpacing(half);
    var (a, r) := (half / 25, half % 25);
    LiftedBounds(half, a, r, Pow2(e));
    QuotientIs(2 * half, 50, a);
    RoundThenTruncate(2 * half * FEE_NUMERATOR, e, LiftedFee(2 * half));
  }

  /** The fee of every amount from 2^54 up to 2^55. */
  lemma FeeFromTwo54(amount: nat)
    requires 2 * TWO_53 <= amount < 4 * TWO_53
    ensures FeeOf(amount) == LiftedFee(4 * Quarter(amount))
  {
    SpacingFour(amount);
    LiftedProductFee(2 * Quarter(amount));
  }

  /** Where one fiftieth, rounded down, is missed: by the last two digits, by which multiple of four is
      the next double, and by the fee being lifted or not. */
  predicate MissesFiftieth(amount: nat) {
    match amount % 100
    case 99 => true
    case 98 => amount % 8 == 6
    case 50 => amount % 8 == 2 && amount < LIFTED
    case 49 => amount >= LIFTED
    case 48 => amount >= LIFTED
    case 47 => amount >= LIFTED - 1
    case 46 => amount % 8 == 6 && amount >= LIFTED - 2
    case _ => false
  }

  lemma LiftedFiftieth(amount: nat)
    requires 2 * TWO_53 <= amount < 4 * TWO_53
    ensures LiftedFee(4 * Quarter(amount)) == amount / 50 <==> !MissesFiftieth(amount)
  {
    var (m, s) := (amount / 100, amount % 100);
    var w := Quarter(amount) - 25 * m;
    QuarterDigits(amount, m, s, w);
    QuotientIs(amount, 50, if s < 50 then 2 * m else 2 * m + 1);
    LiftedDigits(m, w);
  }

  /** The last two digits of the double next to amount, or 100. */
  lemma QuarterDigits(amount: nat, m: nat, s: nat, w: int)
    requires amount == 100 * m + s && s < 100 && w == Quarter(amount) - 25 * m
    ensures s - 2 <= 4 * w <= s + 2
    ensures 4 * w == s - 2 ==> amount % 8 == 2
    ensures 4 * w == s + 2 ==> amount % 8 == 6
  {
  }

  lemma LiftedDigits(m: nat, w: int)
    requires 0 <= w <= 25
    ensures LiftedFee(4 * (25 * m + w))
         == 2 * m + (if 4 * w >= 50 then 1 else 0) + (if w == 25 then 1 else 0)
          + (if w == 12 && 100 * m + 48 >= LIFTED then 1 else 0)
  {
    var d := 4 * (25 * m + w);
    var q := 2 * m + (if 4 * w >= 50 then 1 else 0) + (if w == 25 then 1 else 0);
    QuotientIs(d, 50, q);
    assert d % 50 == d - 50 * q;
  }

  /** There the fee is one fiftieth, rounded down, exactly if the amount is none of those. */
  lemma FeeFromTwo54IsExactIff(amount: nat)
    requires 2 * TWO_53 <= amount < 4 * TWO_53
    ensures FeeOf(amount) == amount / 50 <==> !MissesFiftieth(amount)
  {
    FeeFromTwo54(amount);
    LiftedFiftieth(amount);
  }

  lemma FirstMiss(i: nat)
    requires i <= 14
    ensures MissesFiftieth(2 * TWO_53 + i) <==> i == 14
  {
    RemainderUnique(2 * TWO_53 + i, 100, 180143985094819, 84 + i);
    RemainderUnique(2 * TWO_53 + i, 8, 2251799813685248 + i / 8, i % 8);
  }

  /** The first of them is 2^54 + 14. */
  lemma FirstMissFromTwo54(i: nat)
    requires i <= 14
    ensures FeeOf(2 * TWO_53 + i) == (2 * TWO_53 + i) / 50 <==> i != 14
  {
    FeeFromTwo54IsExactIff(2 * TWO_53 + i);
    FirstMiss(i);
  }

  /** The spacing is at most one part in 2^52 of the number, or the number is an exact integer. */
  lemma {:induction false} UlpIsSmall(n: nat)
    ensures Ulp(n) == 1 || Ulp(n) * TWO_52 <= n
  {
    if n >= TWO_53 {
      UlpIsSmall(n / 2);
    }
  }

  lemma ToDoubleError(n: nat)
    ensures n < TWO_53 ==> ToDouble(n) == n
    ensures ToDouble(n) * TWO_53 <= n * TWO_53 + n
    ensures n * TWO_53 <= ToDouble(n) * TWO_53 + n
  {
    if n >= TWO_53 {
      UlpIsSmall(n);
      assert Ulp(n) > 1;
      NearestEvenError(n, Ulp(n));
    }
  }

  /** Two relative errors of one part in 2^53 each, upwards. */
  lemma AtMost(amount: nat, d: nat, product: nat, rounded: nat, fee: nat)
    requires d * TWO_53 <= amount * TWO_53 + amount
    requires product == d * FEE_NUMERATOR && rounded * TWO_53 <= product * TWO_53 + product
    requires fee * TWO_58 <= rounded
    ensures 50 * TWO_57 * fee <= (TWO_57 + 50) * amount
  {
  }

  /** And downwards. */
  lemma AtLeast(amount: nat, d: nat, product: nat, rounded: nat, next: nat)
    requires amount * TWO_53 <= d * TWO_53 + amount
    requires product == d * FEE_NUMERATOR && product * TWO_53 <= rounded * TWO_53 + product
    requires rounded < next * TWO_58
    ensures (TWO_57 - 50) * amount <= 50 * TWO_57 * next
  {
  }

  lemma Truncated(rounded: nat)
    ensures (rounded / TWO_58) * TWO_58 <= rounded < (rounded / TWO_58 + 1) * TWO_58
  {
  }

  /** For every amount, however large, the fee is one fiftieth, cut to an integer, up to one part in
      2^57 of the amount. So a payment always has a positive part for the creator. */
  lemma FeeIsBounded(amount: nat)
    ensures 50 * TWO_57 * FeeOf(amount) <= (TWO_57 + 50) * amount
    ensures (TWO_57 - 50) * amount <= 50 * TWO_57 * (FeeOf(amount) + 1)
  {
    var d := ToDouble(amount);
    var product := d * FEE_NUMERATOR;
    var rounded := ToDouble(product);
    ToDoubleError(amount);
    ToDoubleError(product);
    Truncated(rounded);
    AtMost(amount, d, product, rounded, rounded / TWO_58);
    AtLeast(amount, d, product, rounded, rounded / TWO_58 + 1);
  }

  /** An instance: the first amount at which the fee is not one fiftieth. */
  lemma FeeAboveTwo53()
    ensures forall amount: nat :: 0 < amount < TWO_53 + 7 ==> FeeOf(amount) == amount / 50
    ensures FeeOf(TWO_53 + 7) == (TWO_53 + 7) / 50 + 1
  {
    forall amount: nat | 0 < amount < TWO_53 + 7 ensures FeeOf(amount) == amount / 50 {
      if amount < TWO_53 { FeeIsExact(amount); } else { FeeIsExactIff(amount); }
    }
    FeeIsExactIff(TWO_53 + 7);
  }
}
