/** Machine words: little-endian bytes, the bit mask that picks a bucket, and the 256-bit keys
    kept as two 128-bit halves. */
module Words {

  const TWO_32: nat := 0x1_0000_0000
  const TWO_64: nat := 0x1_0000_0000_0000_0000
  const TWO_128: nat := 0x1_0000_0000_0000_0000_0000_0000_0000_0000

  type Byte = n: nat | n < 256
  type U32 = n: nat | n < 0x1_0000_0000
  type U64 = n: nat | n < 0x1_0000_0000_0000_0000
  type U128 = n: nat | n < 0x1_0000_0000_0000_0000_0000_0000_0000_0000

  // ---------- little-endian bytes ----------

  function DecodeLE(bytes: seq<Byte>): nat {
    if bytes == [] then 0 else bytes[0] + 256 * DecodeLE(bytes[1..])
  }

  function EncodeLE(n: nat, len: nat): (bytes: seq<Byte>)
    ensures |bytes| == len
  {
    if len == 0 then [] else [n % 256] + EncodeLE(n / 256, len - 1)
  }

  function Pow256(len: nat): (p: nat)
    ensures p >= 1
  {
    if len == 0 then 1 else 256 * Pow256(len - 1)
  }

  lemma {:induction false} DecodeEncode(n: nat, len: nat)
    requires n < Pow256(len)
    ensures DecodeLE(EncodeLE(n, len)) == n
  {
    if len != 0 {
      DecodeEncode(n / 256, len - 1);
      assert EncodeLE(n, len)[1..] == EncodeLE(n / 256, len - 1);
    }
  }

  lemma {:induction false} EncodeDecode(bytes: seq<Byte>)
    ensures EncodeLE(DecodeLE(bytes), |bytes|) == bytes
    ensures DecodeLE(bytes) < Pow256(|bytes|)
  {
    if bytes != [] {
      EncodeDecode(bytes[1..]);
      var rest := DecodeLE(bytes[1..]);
      assert (bytes[0] + 256 * rest) / 256 == rest;
    }
  }

  lemma Pow256Of8()
    ensures Pow256(8) == TWO_64
  {
  }

  /** An unsigned 64-bit word as it lies in memory. */
  function EncodeU64(n: U64): (bytes: seq<Byte>)
    ensures |bytes| == 8
  {
    EncodeLE(n, 8)
  }

  function DecodeU64(bytes: seq<Byte>): U64
    requires |bytes| == 8
  {
    EncodeDecode(bytes);
    Pow256Of8();
    DecodeLE(bytes)
  }

  lemma U64RoundTrip(n: U64, bytes: seq<Byte>)
    requires |bytes| == 8
    ensures DecodeU64(EncodeU64(n)) == n
    ensures EncodeU64(DecodeU64(bytes)) == bytes
  {
    Pow256Of8();
    DecodeEncode(n, 8);
    EncodeDecode(bytes);
  }

  /** Where each byte lies: byte i of the word is its digit i to the base 256, the lowest first. */
  lemma {:induction false} ByteAt(n: nat, len: nat, i: nat)
    requires i < len
    ensures EncodeLE(n, len)[i] == n / Pow256(i) % 256
  {
    if i != 0 {
      ByteAt(n / 256, len - 1, i - 1);
      HigherDigit(n, i);
      assert EncodeLE(n, len)[1..][i - 1] == EncodeLE(n / 256, len - 1)[i - 1];
    }
  }

  lemma HigherDigit(n: nat, i: nat)
    requires i > 0
    ensures n / 256 / Pow256(i - 1) == n / Pow256(i)
  {
    DivideTwice(n, 256, Pow256(i - 1));
  }

  lemma DivideTwice(n: nat, a: nat, b: nat)
    requires a >= 1 && b >= 1 && a * b >= 1
    ensures n / a / b == n / (a * b)
  {
    DivisionSteps(n, a, b, n / a, n / a / b);
    QuotientIs(n, a * b, n / a / b);
  }

  lemma DivisionSteps(n: nat, a: nat, b: nat, x: nat, q: nat)
    requires a >= 1 && b >= 1 && x == n / a && q == x / b
    ensures q * (a * b) <= n < (q + 1) * (a * b)
  {
    DivisionBounds(n, a);
    DivisionBounds(x, b);
    var (qb, next) := (q * b, (q + 1) * b);
    MulMonotone(qb, x, a);
    MulMonotone(x + 1, next, a);
    assert qb * a == q * (a * b) && next * a == (q + 1) * (a * b);
  }

  lemma DivisionBounds(n: nat, d: nat)
    requires d >= 1
    ensures (n / d) * d <= n < (n / d + 1) * d
  {
  }

  /** A word written out in its eight bytes. */
  function Word(b0: nat, b1: nat, b2: nat, b3: nat, b4: nat, b5: nat, b6: nat, b7: nat): nat {
    b0 + 0x100 * b1 + 0x1_0000 * b2 + 0x100_0000 * b3 + 0x1_0000_0000 * b4
    + 0x100_0000_0000 * b5 + 0x1_0000_0000_0000 * b6 + 0x100_0000_0000_0000 * b7
  }

  /** What eight bytes mean. */
  lemma U64Layout(b: seq<Byte>)
    requires |b| == 8
    ensures DecodeU64(b) == Word(b[0], b[1], b[2], b[3], b[4], b[5], b[6], b[7])
  {
    assert b[0..] == b && b[8..] == [];
    FirstByte(b, 0); FirstByte(b, 1); FirstByte(b, 2); FirstByte(b, 3);
    FirstByte(b, 4); FirstByte(b, 5); FirstByte(b, 6); FirstByte(b, 7);
  }

  lemma FirstByte(b: seq<Byte>, i: nat)
    requires i < |b|
    ensures DecodeLE(b[i..]) == b[i] + 256 * DecodeLE(b[i + 1..])
  {
    assert b[i..][1..] == b[i + 1..];
  }

  /** And which byte of a word lies where: the lowest first. */
  lemma U64Bytes(n: U64)
    ensures
      var b := EncodeU64(n);
      && b[0] == n % 256 && b[1] == n / 0x100 % 256 && b[2] == n / 0x1_0000 % 256 && b[3] == n / 0x100_0000 % 256
      && b[4] == n / 0x1_0000_0000 % 256 && b[5] == n / 0x100_0000_0000 % 256
      && b[6] == n / 0x1_0000_0000_0000 % 256 && b[7] == n / 0x100_0000_0000_0000 % 256
  {
    Pow256Values();
    forall i | 0 <= i < 8 ensures EncodeU64(n)[i] == n / Pow256(i) % 256 {
      ByteAt(n, 8, i);
    }
  }

  lemma Pow256Values()
    ensures Pow256(0) == 1 && Pow256(1) == 0x100 && Pow256(2) == 0x1_0000 && Pow256(3) == 0x100_0000
    ensures Pow256(4) == 0x1_0000_0000 && Pow256(5) == 0x100_0000_0000
    ensures Pow256(6) == 0x1_0000_0000_0000 && Pow256(7) == 0x100_0000_0000_0000
  {
  }

  // ---------- bitwise and ----------

  function BitAnd(a: nat, b: nat): nat {
    if a == 0 || b == 0 then 0 else 2 * BitAnd(a / 2, b / 2) + (a % 2) * (b % 2)
  }

  lemma {:induction false} BitAndBound(a: nat, b: nat)
    ensures BitAnd(a, b) <= b
  {
    if a != 0 && b != 0 {
      BitAndBound(a / 2, b / 2);
      assert (a % 2) * (b % 2) <= b % 2;
    }
  }

  /** Bit i of a number. */
  function Bit(n: nat, i: nat): (b: nat)
    ensures b <= 1
  {
    n / Pow2(i) % 2
  }

  lemma BitShift(n: nat, i: nat)
    requires i > 0
    ensures Bit(n, i) == Bit(n / 2, i - 1)
  {
    DivideTwice(n, 2, Pow2(i - 1));
  }

  /** Bit by bit: the mask keeps a bit exactly where both numbers have it. */
  lemma {:induction false} BitAndBits(a: nat, b: nat, i: nat)
    ensures Bit(BitAnd(a, b), i) == if Bit(a, i) == 1 && Bit(b, i) == 1 then 1 else 0
  {
    var c := BitAnd(a, b);
    if a == 0 || b == 0 {
      ZeroBits(i);
    } else {
      assert c == 2 * BitAnd(a / 2, b / 2) + (a % 2) * (b % 2);
      assert (a % 2) * (b % 2) == if a % 2 == 1 && b % 2 == 1 then 1 else 0;
      if i == 0 {
        assert Pow2(0) == 1;
      } else {
        assert c / 2 == BitAnd(a / 2, b / 2);
        BitShift(a, i); BitShift(b, i); BitShift(c, i);
        BitAndBits(a / 2, b / 2, i - 1);
      }
    }
  }

  lemma ZeroBits(i: nat)
    ensures Bit(0, i) == 0
  {
    QuotientIs(0, Pow2(i), 0);
  }

  function Pow2(n: nat): (p: nat)
    ensures p >= 1
  {
    if n == 0 then 1 else 2 * Pow2(n - 1)
  }

  /** For a power of two the mask is the remainder, so every index is used. */
  lemma {:induction false} BitAndIsRemainder(a: nat, n: nat)
    ensures BitAnd(a, Pow2(n) - 1) == a % Pow2(n)
  {
    if n != 0 {
      BitAndIsRemainder(a / 2, n - 1);
      MaskDoubles(a, Pow2(n - 1));
    }
  }

  lemma MaskDoubles(a: nat, p: nat)
    requires p >= 1 && BitAnd(a / 2, p - 1) == (a / 2) % p
    ensures BitAnd(a, 2 * p - 1) == a % (2 * p)
  {
    MaskStep(a, p);
    HalveRemainder(a, p);
  }

  lemma MaskStep(a: nat, p: nat)
    requires p >= 1
    ensures BitAnd(a, 2 * p - 1) == 2 * BitAnd(a / 2, p - 1) + a % 2
  {
    assert (2 * p - 1) / 2 == p - 1 && (2 * p - 1) % 2 == 1;
  }

  lemma HalveRemainder(a: nat, p: nat)
    requires p >= 1
    ensures a % (2 * p) == 2 * ((a / 2) % p) + a % 2
  {
    var q, r := (a / 2) / p, (a / 2) % p;
    assert a / 2 == q * p + r;
    assert a == q * (2 * p) + (2 * r + a % 2);
    RemainderUnique(a, 2 * p, q, 2 * r + a % 2);
  }

  lemma MulMonotone(a: nat, b: nat, u: nat)
    requires a <= b
    ensures a * u <= b * u
  {
  }

  lemma QuotientIs(n: nat, d: nat, q: nat)
    requires d >= 1 && q * d <= n < (q + 1) * d
    ensures n / d == q
  {
    RemainderUnique(n, d, q, n - q * d);
    assert (n / d) * d == q * d;
    if n / d != q { MulMonotone(1, if n / d < q then q - n / d else n / d - q, d); }
  }

  lemma RemainderUnique(a: nat, d: nat, q: nat, r: nat)
    requires d >= 1 && r < d && a == q * d + r
    ensures a % d == r
  {
    var x := q - a / d;
    assert a == (a / d) * d + a % d;
    assert x * d == q * d - (a / d) * d;
    assert x * d == a % d - r && (-x) * d == r - a % d;
    if x >= 1 {
      MulAtLeast(x, d);
    } else if x <= -1 {
      MulAtLeast(-x, d);
    }
  }

  lemma MulAtLeast(x: nat, d: nat)
    requires x >= 1
    ensures x * d >= d
  {
  }

  // ---------- 256-bit keys ----------

  /** A checksum256 used as a number: two 128-bit words, the high one first. */
  datatype Checksum256 = Checksum256(hi: U128, lo: U128) {
    function Value(): nat { hi * TWO_128 + lo }

    /** The order of the underlying word array. */
    predicate Less(other: Checksum256) {
      hi < other.hi || (hi == other.hi && lo < other.lo)
    }
  }

  const EMPTY_256: Checksum256 := Checksum256(0, 0)

  function Increment256(key: Checksum256): Checksum256 {
    if key.lo < TWO_128 - 1 then key.(lo := key.lo + 1)
    else Checksum256((key.hi + 1) % TWO_128, 0)
  }

  function PrimaryToKey(primary: U64): Checksum256 {
    Checksum256(0, primary)
  }

  function KeyToPrimary(key: Checksum256): U64 {
    key.lo % TWO_64
  }

  /** Counting up is +1 on the 256-bit number, and comparing words compares numbers. */
  lemma Increment256IsSuccessor(key: Checksum256, other: Checksum256)
    ensures Increment256(key).Value() == (key.Value() + 1) % (TWO_128 * TWO_128)
    ensures key.Less(other) <==> key.Value() < other.Value()
    ensures key == other <==> key.Value() == other.Value()
  {
  }

  /** Casting back to a 64-bit key keeps the number modulo 2^64. */
  lemma KeyToPrimaryIsLowWord(key: Checksum256)
    ensures KeyToPrimary(key) == key.Value() % TWO_64
  {
  }

  lemma KeyRoundTrip(primary: U64)
    ensures KeyToPrimary(PrimaryToKey(primary)) == primary
    ensures Increment256(PrimaryToKey(primary)).Value() == primary + 1
  {
  }
}
