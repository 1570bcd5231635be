/** Account names, symbols and assets. */
module Names {
  import opened Wrappers
  import opened Words

  /** A name is a 64-bit word: twelve characters of five bits and a last one of four. */
  type Name = U64

  const PHOENIX: Name := 0xAB68_A9BB_A000_0000  // the vaccount that distributes the supply
  const FEES: Name := 0x5A95_8055_B454_DDD0     // the vaccount that collects the fees
  const SELF: Name := 0xAB68_A9BB_A8BA_8D90  // the chain account of the token contract
  const PHOENIX_ACCOUNT: Name := 0xAB68_A9BB_ACBD_3550  // the chain account of the membership contract
  const WEOSDT_CONTRACT: Name := 0xE2A9_84E7_3482_A780
  const STAKE: Name := 0x5530_EA03_1934_1400

  function CharValue(c: char): Option<nat> {
    if c == '.' then Some(0)
    else if '1' <= c <= '5' then Some((c - '1') as nat + 1)
    else if 'a' <= c <= 'z' then Some((c - 'a') as nat + 6)
    else None
  }

  function DigitAt(text: string, i: nat): (d: nat)
    ensures d < 32
  {
    if i < |text| && CharValue(text[i]).Some? then CharValue(text[i]).value else 0
  }

  function Pow32(n: nat): (p: nat)
    ensures p >= 1
  {
    if n == 0 then 1 else 32 * Pow32(n - 1)
  }

  function Digits(text: string, n: nat): (d: nat)
    ensures d < Pow32(n)
  {
    if n == 0 then 0 else Digits(text, n - 1) * 32 + DigitAt(text, n - 1)
  }

  lemma Pow32Of12()
    ensures Pow32(12) * 16 == TWO_64
  {
  }

  /** The name written as text; None where the contract aborts on a malformed one. */
  function NameOf(text: string): Option<Name> {
    if |text| <= 13 && (forall i :: 0 <= i < |text| ==> CharValue(text[i]).Some?) && DigitAt(text, 12) < 16 then
      Pow32Of12();
      Some(Digits(text, 12) * 16 + DigitAt(text, 12))
    else None
  }

  // ---------- what names spell ----------

  const ALPHABET := ".12345abcdefghijklmnopqrstuvwxyz"

  /** The characters stand for 0 to 31 in this order, and no other is allowed. */
  lemma CharValueIsPosition(c: char, v: nat)
    ensures CharValue(c) == Some(v) <==> v < 32 && ALPHABET[v] == c
  {
  }

  /** Exactly these texts are names: at most thirteen characters of the alphabet, the thirteenth from
      its first half. */
  lemma NameOfIff(text: string)
    ensures NameOf(text).Some?
       <==> && |text| <= 13
            && (forall i :: 0 <= i < |text| ==> text[i] in ALPHABET)
            && (|text| == 13 ==> text[12] in ALPHABET[..16])
  {
    forall c: char ensures CharValue(c).Some? <==> c in ALPHABET {
      if CharValue(c).Some? { CharValueIsPosition(c, CharValue(c).value); }
    }
    if |text| == 13 && text[12] in ALPHABET {
      var v :| 0 <= v < 32 && ALPHABET[v] == text[12];
      CharValueIsPosition(text[12], v);
      assert text[12] in ALPHABET[..16] <==> v < 16 by { InFirstHalf(text[12], v); }
    }
  }

  lemma InFirstHalf(c: char, v: nat)
    requires v < 32 && ALPHABET[v] == c
    ensures c in ALPHABET[..16] <==> v < 16
  {
    if v < 16 { assert ALPHABET[..16][v] == c; }
    if c in ALPHABET[..16] {
      var w :| 0 <= w < 16 && ALPHABET[..16][w] == c;
      CharValueIsPosition(c, w);
      CharValueIsPosition(c, v);
    }
  }

  lemma {:induction false} DigitsAt(text: string, i: nat, j: nat)
    ensures Digits(text, i + 1 + j) / Pow32(j) % 32 == DigitAt(text, i)
  {
    if j == 0 {
      LastDigit(text, i);
    } else {
      DigitsAt(text, i, j - 1);
      UpperDigits(text, i + 1 + j, j);
    }
  }

  lemma LastDigit(text: string, i: nat)
    ensures Digits(text, i + 1) / Pow32(0) % 32 == DigitAt(text, i)
  {
    RemainderUnique(Digits(text, i + 1), 32, Digits(text, i), DigitAt(text, i));
  }

  lemma UpperDigits(text: string, n: nat, j: nat)
    requires n > 0 && j > 0
    ensures Digits(text, n) / Pow32(j) == Digits(text, n - 1) / Pow32(j - 1)
  {
    DivideTwice(Digits(text, n), 32, Pow32(j - 1));
    QuotientIs(Digits(text, n), 32, Digits(text, n - 1));
  }

  /** Where the characters of a name lie: five bits each from the top, and four for the thirteenth. */
  lemma NameDigits(text: string, i: nat)
    requires NameOf(text).Some? && i < 12
    ensures
      var n := NameOf(text).value;
      && n / 16 / Pow32(11 - i) % 32 == DigitAt(text, i) && n % 16 == DigitAt(text, 12)
  {
    DigitsAt(text, i, 11 - i);
  }

  /** A text of one to twelve characters, of which the last four may be missing. */
  lemma ThreeParts(text: string, x: nat, y: nat, z: nat)
    requires |text| <= 12 && forall i :: 0 <= i < |text| ==> CharValue(text[i]).Some?
    requires x == Four(text, 0) && y == Four(text, 4) && z == Four(text, 8)
    ensures NameOf(text) == Some(((x * 0x10_0000 + y) * 0x10_0000 + z) * 16)
  {
    TwelveDigits(text);
    FourDigits(text, 0, 0, x);
    FourDigits(text, 4, x, y);
    FourDigits(text, 8, x * 0x10_0000 + y, z);
  }

  lemma TwelveDigits(text: string)
    requires |text| <= 12 && forall i :: 0 <= i < |text| ==> CharValue(text[i]).Some?
    ensures NameOf(text) == Some(Digits(text, 12) * 16) && Digits(text, 0) == 0
  {
  }

  function Four(text: string, n: nat): nat {
    ((DigitAt(text, n) * 32 + DigitAt(text, n + 1)) * 32 + DigitAt(text, n + 2)) * 32 + DigitAt(text, n + 3)
  }

  lemma FourDigits(text: string, n: nat, before: nat, x: nat)
    requires Digits(text, n) == before && x == Four(text, n)
    ensures Digits(text, n + 4) == before * 0x10_0000 + x
  {
    assert Digits(text, n + 2) == (Digits(text, n) * 32 + DigitAt(text, n)) * 32 + DigitAt(text, n + 1);
  }

  /** The names that the contracts single out, as the source writes them. */
  lemma PhoenixIsSpelled(text: string)
    requires text == "phoenix"
    ensures NameOf(text) == Some(PHOENIX)
  {
    ThreeParts(text, 702090, 637856, 0);
  }

  lemma FeesIsSpelled(text: string)
    requires text == "fees.phoenix"
    ensures NameOf(text) == Some(FEES)
  {
    ThreeParts(text, 371032, 21940, 347613);
  }

  lemma SelfIsSpelled(text: string)
    requires text == "phoenixcreat"
    ensures NameOf(text) == Some(SELF)
  {
    ThreeParts(text, 702090, 637864, 764121);
  }

  lemma AccountIsSpelled(text: string)
    requires text == "phoenixgroup"
    ensures NameOf(text) == Some(PHOENIX_ACCOUNT)
  {
    ThreeParts(text, 702090, 637868, 774997);
  }

  lemma WeosdtContractIsSpelled(text: string)
    requires text == "weosdttokens"
    ensures NameOf(text) == Some(WEOSDT_CONTRACT)
  {
    ThreeParts(text, 928408, 321332, 535160);
  }

  lemma StakeIsSpelled(text: string)
    requires text == "eosio.stake"
    ensures NameOf(text) == Some(STAKE)
  {
    ThreeParts(text, 348942, 656153, 213312);
  }

  // ---------- symbols and assets ----------

  const MAX_AMOUNT: int := 0x4000_0000_0000_0000 - 1

  predicate Letters(raw: nat) {
    raw == 0 || (65 <= raw % 256 <= 90 && Letters(raw / 256))
  }

  /** A symbol code is up to seven capital letters, the first in the lowest byte. */
  datatype Symbol = Symbol(code: U64, precision: nat) {
    predicate IsValid() { 0 < code < 0x100_0000_0000_0000 && Letters(code) }
  }

  const WEOSDT := Symbol(0x5444_534F_4557, 9)

  lemma WeosdtIsValid()
    ensures WEOSDT.IsValid()
  {
  }

  /** A symbol code lies in memory as it is written. */
  lemma WeosdtIsSpelled()
    ensures WEOSDT.code == Word('W' as nat, 'E' as nat, 'O' as nat, 'S' as nat, 'D' as nat, 'T' as nat, 0, 0)
    ensures WEOSDT.precision == 9 && MAX_AMOUNT == 4611686018427387903
  {
  }

  /** Exactly the codes of one to seven capital letters are valid. */
  lemma {:induction false} LettersAreSpelled(raw: nat, bytes: seq<Byte>)
    requires (forall i :: 0 <= i < |bytes| ==> 'A' as nat <= bytes[i] <= 'Z' as nat) && raw == DecodeLE(bytes)
    ensures Letters(raw)
  {
    if bytes != [] {
      var rest := DecodeLE(bytes[1..]);
      LettersAreSpelled(rest, bytes[1..]);
      RemainderUnique(raw, 256, rest, bytes[0]);
      QuotientIs(raw, 256, rest);
    }
  }

  lemma {:induction false} LettersSpell(raw: nat, len: nat) returns (bytes: seq<Byte>)
    requires Letters(raw) && raw < Pow256(len)
    ensures |bytes| <= len && raw == DecodeLE(bytes)
    ensures forall i :: 0 <= i < |bytes| ==> 'A' as nat <= bytes[i] <= 'Z' as nat
  {
    if raw == 0 {
      bytes := [];
    } else {
      var rest := LettersSpell(raw / 256, len - 1);
      bytes := [raw % 256] + rest;
      assert bytes[1..] == rest;
    }
  }

  datatype Asset = Asset(amount: int, symbol: Symbol) {
    predicate IsValid() { -MAX_AMOUNT <= amount <= MAX_AMOUNT && symbol.IsValid() }
  }
}
