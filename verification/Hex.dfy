/** Hex text and MAC addresses, as codec.ts and Node's Buffer read and write them. */
module Hex {
  import opened Prelude

  const DIGITS := "0123456789abcdef"

  function Digit(v: int): (c: char)
    requires 0 <= v < 16
    ensures IsHex(c) && Value(c) == v && c != ':' && c != ' ' && !('A' <= c <= 'F')
  {
    DIGITS[v]
  }

  /** A hex digit, either case. */
  predicate IsHex(c: char) {
    '0' <= c <= '9' || 'a' <= c <= 'f' || 'A' <= c <= 'F'
  }

  function Value(c: char): (v: int)
    requires IsHex(c)
    ensures 0 <= v < 16
  {
    if '0' <= c <= '9' then c as int - '0' as int
    else if 'a' <= c <= 'f' then c as int - 'a' as int + 10
    else c as int - 'A' as int + 10
  }

  /** A lower-case digit is the digit its value prints as. */
  lemma DigitOfValue(c: char)
    requires IsHex(c) && !('A' <= c <= 'F')
    ensures Digit(Value(c)) == c
  {
    var v := Value(c);
    assert DIGITS[v] == c by {
      if '0' <= c <= '9' {
        assert c == (v + '0' as int) as char;
      } else {
        assert c == (v - 10 + 'a' as int) as char;
      }
    }
  }

  predicate AllHex(s: string) {
    forall i :: 0 <= i < |s| ==> IsHex(s[i])
  }

  function PairValue(hi: char, lo: char): byte
    requires IsHex(hi) && IsHex(lo)
  {
    16 * Value(hi) + Value(lo)
  }

  /** toString('hex'): two lower-case digits a byte. */
  function ToHex(b: seq<byte>): (s: string)
    ensures |s| == 2 * |b| && AllHex(s)
  {
    if b == [] then [] else [Digit(b[0] / 16), Digit(b[0] % 16)] + ToHex(b[1..])
  }

  /** Buffer.from(s, 'hex'): whole pairs, up to the first pair that is not hex. */
  function FromHex(s: string): seq<byte> {
    if |s| < 2 || !IsHex(s[0]) || !IsHex(s[1]) then [] else [PairValue(s[0], s[1])] + FromHex(s[2..])
  }

  lemma {:induction false} FromToHex(b: seq<byte>)
    ensures FromHex(ToHex(b)) == b
  {
    if b != [] {
      FromToHex(b[1..]);
      assert ToHex(b)[2..] == ToHex(b[1..]);
    }
  }

  /** Digits only means every pair is read. */
  lemma {:induction false} FromHexLength(s: string)
    requires AllHex(s)
    ensures |FromHex(s)| == |s| / 2
  {
    if |s| >= 2 {
      FromHexLength(s[2..]);
    }
  }

  /** parseInt(s, 16) of a run of hex digits. */
  function ParseHex(s: string): (v: int)
    requires AllHex(s)
    ensures 0 <= v
  {
    if s == [] then 0 else 16 * ParseHex(s[..|s| - 1]) + Value(s[|s| - 1])
  }

  /** v.toString(16) padded to n digits, for a v that fits them. */
  function HexN(v: int, n: nat): (s: string)
    requires 0 <= v
    ensures |s| == n && AllHex(s)
  {
    if n == 0 then [] else HexN(v / 16, n - 1) + [Digit(v % 16)]
  }

  function Pow16(n: nat): (p: int)
    ensures p >= 1
  {
    if n == 0 then 1 else 16 * Pow16(n - 1)
  }

  lemma {:induction false} ParseHexN(v: int, n: nat)
    requires 0 <= v < Pow16(n)
    ensures ParseHex(HexN(v, n)) == v
  {
    if n > 0 {
      ParseHexN(v / 16, n - 1);
      var s := HexN(v, n);
      assert s[..|s| - 1] == HexN(v / 16, n - 1);
    }
  }

  /** hex8: a 32-bit word as 8 digits. */
  function Hex8(v: int): (s: string)
    requires IsU32(v)
    ensures |s| == 8 && AllHex(s)
  {
    HexN(v, 8)
  }

  lemma ParseHex8(v: int)
    requires IsU32(v)
    ensures ParseHex(Hex8(v)) == v
  {
    assert Pow16(8) == 0x1_0000_0000 by {
      assert Pow16(4) == 0x1_0000;
      assert Pow16(6) == 0x100_0000;
    }
    ParseHexN(v, 8);
  }

  // ── MAC addresses ──────────────────────────────────────────────────

  type MacBytes = b: seq<byte> | |b| == 6 witness [0, 0, 0, 0, 0, 0]

  /** `aa:bb:cc:dd:ee:ff`, either case. */
  predicate IsColonMac(s: string) {
    && |s| == 17
    && s[2] == s[5] == s[8] == s[11] == s[14] == ':'
    && IsHex(s[0]) && IsHex(s[1]) && IsHex(s[3]) && IsHex(s[4]) && IsHex(s[6]) && IsHex(s[7])
    && IsHex(s[9]) && IsHex(s[10]) && IsHex(s[12]) && IsHex(s[13]) && IsHex(s[15]) && IsHex(s[16])
  }

  predicate IsBareMac(s: string) {
    |s| == 12 && AllHex(s)
  }

  /** A MAC address in either form, or None where macToBytes throws. */
  function MacToBytes(s: string): (r: Option<MacBytes>)
    ensures r.Some? <==> IsColonMac(s) || IsBareMac(s)
  {
    if IsColonMac(s) then
      Some([PairValue(s[0], s[1]), PairValue(s[3], s[4]), PairValue(s[6], s[7]),
            PairValue(s[9], s[10]), PairValue(s[12], s[13]), PairValue(s[15], s[16])])
    else if IsBareMac(s) then
      Some([PairValue(s[0], s[1]), PairValue(s[2], s[3]), PairValue(s[4], s[5]),
            PairValue(s[6], s[7]), PairValue(s[8], s[9]), PairValue(s[10], s[11])])
    else None
  }

  function MacToString(b: MacBytes): (s: string)
    ensures IsColonMac(s)
  {
    [Digit(b[0] / 16), Digit(b[0] % 16), ':', Digit(b[1] / 16), Digit(b[1] % 16), ':',
     Digit(b[2] / 16), Digit(b[2] % 16), ':', Digit(b[3] / 16), Digit(b[3] % 16), ':',
     Digit(b[4] / 16), Digit(b[4] % 16), ':', Digit(b[5] / 16), Digit(b[5] % 16)]
  }

  predicate IsCanonMacChar(i: nat, c: char) {
    if i % 3 == 2 then c == ':' else IsHex(c) && !('A' <= c <= 'F')
  }

  /** The form the store and the journal use: lower case with colons. */
  predicate IsCanonMac(s: string) {
    |s| == 17 && forall i :: 0 <= i < 17 ==> IsCanonMacChar(i, s[i])
  }

  lemma PairOfByte(v: byte)
    ensures PairValue(Digit(v / 16), Digit(v % 16)) == v
  {
  }

  /** A printed MAC is canonical. */
  lemma MacStringIsCanon(b: MacBytes)
    ensures IsCanonMac(MacToString(b))
  {
    hide Digit, IsHex, IsColonMac;
    var t := MacToString(b);
    forall i | 0 <= i < 17 ensures IsCanonMacChar(i, t[i]) {
      assert i % 3 == 2 ==> t[i] == ':';
      assert i % 3 == 0 ==> t[i] == Digit(b[i / 3] / 16);
      assert i % 3 == 1 ==> t[i] == Digit(b[i / 3] % 16);
    }
  }

  /** A printed MAC reads back as the same six bytes. */
  lemma MacRoundTrip(b: MacBytes)
    ensures MacToBytes(MacToString(b)) == Some(b)
  {
    hide PairValue, Digit;
    PairOfByte(b[0]); PairOfByte(b[1]); PairOfByte(b[2]);
    PairOfByte(b[3]); PairOfByte(b[4]); PairOfByte(b[5]);
    var r := MacToBytes(MacToString(b)).value;
    assert r[0] == b[0] && r[1] == b[1] && r[2] == b[2] && r[3] == b[3] && r[4] == b[4] && r[5] == b[5];
    assert r == b;
  }

  /** So does the bare form an AK line carries. */
  lemma BareMacRoundTrip(b: MacBytes)
    ensures IsBareMac(ToHex(b)) && MacToBytes(ToHex(b)) == Some(b)
  {
    hide PairValue, Digit, ToHex;
    var h := ToHex(b);
    assert !IsColonMac(h);
    var r := MacToBytes(h).value;
    assert r[0] == b[0] by { ToHexPair(b, 0); }
    assert r[1] == b[1] by { ToHexPair(b, 1); }
    assert r[2] == b[2] by { ToHexPair(b, 2); }
    assert r[3] == b[3] by { ToHexPair(b, 3); }
    assert r[4] == b[4] by { ToHexPair(b, 4); }
    assert r[5] == b[5] by { ToHexPair(b, 5); }
    assert r == b;
  }

  lemma {:induction false} ToHexPair(b: seq<byte>, i: nat)
    requires i < |b|
    ensures ToHex(b)[2 * i] == Digit(b[i] / 16) && ToHex(b)[2 * i + 1] == Digit(b[i] % 16)
    ensures PairValue(ToHex(b)[2 * i], ToHex(b)[2 * i + 1]) == b[i]
  {
    if i > 0 {
      ToHexPair(b[1..], i - 1);
      assert ToHex(b)[2..] == ToHex(b[1..]);
      assert ToHex(b)[2 * i] == ToHex(b)[2..][2 * (i - 1)];
      assert ToHex(b)[2 * i + 1] == ToHex(b)[2..][2 * (i - 1) + 1];
    }
  }

  lemma DivMod16(a: int, c: int)
    requires 0 <= c < 16
    ensures (16 * a + c) / 16 == a && (16 * a + c) % 16 == c
  {
  }

  lemma PairDigits(hi: char, lo: char)
    requires IsHex(hi) && IsHex(lo) && !('A' <= hi <= 'F') && !('A' <= lo <= 'F')
    ensures Digit(PairValue(hi, lo) / 16) == hi && Digit(PairValue(hi, lo) % 16) == lo
  {
    DivMod16(Value(hi), Value(lo));
    DigitOfValue(hi);
    DigitOfValue(lo);
  }

  lemma CanonIsColon(s: string)
    requires IsCanonMac(s)
    ensures IsColonMac(s)
  {
    assert IsCanonMacChar(2, s[2]) && IsCanonMacChar(5, s[5]) && IsCanonMacChar(8, s[8]);
    assert IsCanonMacChar(11, s[11]) && IsCanonMacChar(14, s[14]);
  }

  /** One byte's two digits print back. */
  lemma PairIsStable(s: string, i: nat)
    requires IsCanonMac(s) && i < 6
    ensures IsHex(s[3 * i]) && IsHex(s[3 * i + 1])
    ensures var v := PairValue(s[3 * i], s[3 * i + 1]); Digit(v / 16) == s[3 * i] && Digit(v % 16) == s[3 * i + 1]
  {
    assert IsCanonMacChar(3 * i, s[3 * i]) && IsCanonMacChar(3 * i + 1, s[3 * i + 1]);
    PairDigits(s[3 * i], s[3 * i + 1]);
  }

  /** Canonising a canonical MAC changes nothing. */
  lemma CanonIsStable(s: string)
    requires IsCanonMac(s)
    ensures MacToBytes(s).Some? && MacToString(MacToBytes(s).value) == s
  {
    hide Digit, PairValue, IsHex, IsCanonMac;
    CanonIsColon(s);
    var t := MacToString(MacToBytes(s).value);
    PairIsStable(s, 0);
    PairIsStable(s, 1);
    PairIsStable(s, 2);
    PairIsStable(s, 3);
    PairIsStable(s, 4);
    PairIsStable(s, 5);
    assert t == s;
  }

  // ── Either case ────────────────────────────────────────────────────

  function LowerChar(c: char): char {
    if 'A' <= c <= 'Z' then (c as int + 32) as char else c
  }

  /** toLowerCase() of ASCII text. */
  function Lower(s: string): (r: string)
    ensures |r| == |s|
  {
    seq(|s|, i requires 0 <= i < |s| => LowerChar(s[i]))
  }

  lemma LowerDigit(c: char)
    ensures IsHex(LowerChar(c)) <==> IsHex(c)
    ensures IsHex(c) ==> Value(LowerChar(c)) == Value(c) && !('A' <= LowerChar(c) <= 'F')
  {
  }

  lemma LowerIsHex(s: string)
    ensures AllHex(Lower(s)) <==> AllHex(s)
  {
    forall i | 0 <= i < |s| ensures IsHex(Lower(s)[i]) <==> IsHex(s[i]) {
      LowerDigit(s[i]);
    }
  }

  /** Two digits print back in lower case. */
  lemma PairUpToCase(hi: char, lo: char)
    requires IsHex(hi) && IsHex(lo)
    ensures ToHex([PairValue(hi, lo)]) == [LowerChar(hi), LowerChar(lo)]
  {
    hide LowerChar, Digit;
    LowerDigit(hi);
    LowerDigit(lo);
    PairDigits(LowerChar(hi), LowerChar(lo));
    assert ToHex([PairValue(hi, lo)][1..]) == [];
  }

  lemma ToHexNext(v: byte, more: seq<byte>)
    ensures ToHex([v] + more) == ToHex([v]) + ToHex(more)
  {
    hide Digit;
    assert ([v] + more)[1..] == more && [v][1..] == [];
  }

  /** Digits print back in lower case. */
  lemma {:induction false} HexUpToCase(s: string)
    requires AllHex(s) && |s| % 2 == 0
    ensures ToHex(FromHex(s)) == Lower(s)
  {
    hide ToHex, LowerChar, PairValue, IsHex;
    if s == [] {
      assert FromHex(s) == [];
      assert |ToHex(FromHex(s))| == 0;
    } else {
      HexUpToCase(s[2..]);
      PairUpToCase(s[0], s[1]);
      ToHexNext(PairValue(s[0], s[1]), FromHex(s[2..]));
      assert Lower(s) == [LowerChar(s[0]), LowerChar(s[1])] + Lower(s[2..]);
    }
  }

  /** A text is some bytes' hex, in either case, exactly when it is digits that read as those bytes. */
  lemma HexMatches(s: string, b: seq<byte>)
    ensures Lower(s) == ToHex(b) <==> AllHex(s) && |s| == 2 * |b| && FromHex(s) == b
  {
    hide ToHex, FromHex, Lower;
    LowerIsHex(s);
    if AllHex(s) && |s| % 2 == 0 {
      HexUpToCase(s);
      FromToHex(b);
      FromToHex(FromHex(s));
    }
  }

  lemma {:induction false} ParseHexFits(s: string)
    requires AllHex(s)
    ensures ParseHex(s) < Pow16(|s|)
  {
    if s != [] {
      ParseHexFits(s[..|s| - 1]);
    }
  }

  lemma {:induction false} DigitsUpToCase(s: string)
    requires AllHex(s)
    ensures HexN(ParseHex(s), |s|) == Lower(s)
  {
    if s != [] {
      hide Digit, Value, LowerChar, IsHex;
      var n := |s| - 1;
      var v, d := ParseHex(s[..n]), Value(s[n]);
      DigitsUpToCase(s[..n]);
      DivMod16(v, d);
      LowerDigit(s[n]);
      DigitOfValue(LowerChar(s[n]));
      assert Lower(s) == Lower(s[..n]) + [LowerChar(s[n])];
    }
  }

  /** A text is a word's eight digits, in either case, exactly when it reads as that word. */
  lemma WordMatches(s: string, v: int)
    requires IsU32(v)
    ensures Lower(s) == Hex8(v) <==> AllHex(s) && |s| == 8 && ParseHex(s) == v
  {
    hide HexN, ParseHex, Lower;
    LowerIsHex(s);
    if AllHex(s) && |s| == 8 {
      DigitsUpToCase(s);
      ParseHexFits(s);
      ParseHexN(ParseHex(s), 8);
      ParseHex8(v);
    }
  }

  /** A text is a MAC with colons, in either case, exactly when its lower case is canonical. */
  lemma MacUpToCase(s: string)
    ensures IsCanonMac(Lower(s)) <==> IsColonMac(s)
  {
    hide IsHex, Value;
    forall i | 0 <= i < |s|
      ensures LowerChar(s[i]) == ':' <==> s[i] == ':'
      ensures IsHex(LowerChar(s[i])) <==> IsHex(s[i])
      ensures IsHex(s[i]) ==> !('A' <= LowerChar(s[i]) <= 'F')
    {
      LowerDigit(s[i]);
    }
    var t := Lower(s);
    assert forall i :: 0 <= i < |s| ==> t[i] == LowerChar(s[i]);
    if |s| == 17 {
      assert IsCanonMac(t) <==> forall i :: 0 <= i < 17 ==> IsCanonMacChar(i, LowerChar(s[i]));
      if IsColonMac(s) {
        forall i | 0 <= i < 17 ensures IsCanonMacChar(i, t[i]) {
          assert i % 3 != 2 ==> IsHex(s[i]);
        }
      }
      if IsCanonMac(t) {
        CanonIsColon(t);
      }
    }
  }
}
