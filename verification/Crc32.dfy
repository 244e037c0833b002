/** CRC-32: the host's table form, the firmware's bitwise form, and the bursts both detect. */
module Crc32 {
  import opened Prelude
  import opened Bits

  const POLY := 0xEDB8_8320
  const ONES := 0xFFFF_FFFF

  type word = x: int | 0 <= x < 0x1_0000_0000

  lemma WordBits()
    ensures Pow2(32) == 0x1_0000_0000 && Pow2(31) == 0x8000_0000
  {
    assert Pow2(8) == 0x100;
    assert Pow2(16) == 0x1_0000;
    assert Pow2(24) == 0x100_0000;
    assert Pow2(31) == 0x8000_0000;
  }

  // ── The specification (RFC 1952, section 8) ────────────────────────

  /** One bit of the reflected shift register. */
  function Shift(c: word): (r: word) {
    var r := Xor(c / 2, if c % 2 == 1 then POLY else 0);
    assert r <= ONES by {
      WordBits();
      XorFits(c / 2, if c % 2 == 1 then POLY else 0, 32);
    }
    r
  }

  function Shifts(c: word, n: nat): word
    decreases n
  {
    if n == 0 then c else Shifts(Shift(c), n - 1)
  }

  /** The register after one more byte. */
  function Feed(c: word, b: byte): word {
    Shifts(XorWord(c, b), 8)
  }

  function XorWord(a: word, b: word): (r: word)
    ensures r == Xor(a, b)
  {
    assert Xor(a, b) <= ONES by {
      WordBits();
      XorFits(a, b, 32);
    }
    Xor(a, b)
  }

  function FeedAll(c: word, bytes: seq<byte>): word
    decreases |bytes|
  {
    if bytes == [] then c else FeedAll(Feed(c, bytes[0]), bytes[1..])
  }

  function Crc(bytes: seq<byte>): word {
    XorWord(FeedAll(ONES, bytes), ONES)
  }

  // ── The firmware's form ────────────────────────────────────────────

  /** crc32_zlib: eight shifts a byte, the polynomial masked by the low bit. */
  method Crc32Zlib(d: seq<byte>) returns (crc: word)
    ensures crc == Crc(d)
  {
    var c: word := ONES;
    for i := 0 to |d|
      invariant FeedAll(c, d[i..]) == FeedAll(ONES, d)
    {
      assert d[i..][1..] == d[i + 1..];
      c := FeedBits(XorWord(c, d[i]));
    }
    crc := XorWord(c, ONES);
  }

  method FeedBits(from: word) returns (c: word)
    ensures c == Shifts(from, 8)
  {
    c := from;
    for k := 0 to 8
      invariant Shifts(c, 8 - k) == Shifts(from, 8)
    {
      MaskIsConditional(c);
      c := XorWord(c / 2, And(POLY, (0 - c % 2) % 0x1_0000_0000));
    }
  }

  /** The mask -(c & 1), as an unsigned word, is all ones or zero. */
  lemma MaskIsConditional(c: word)
    ensures And(POLY, (0 - c % 2) % 0x1_0000_0000) == if c % 2 == 1 then POLY else 0
  {
    hide And, Pow2;
    WordBits();
    AndOnes(POLY, 32);
    if c % 2 == 1 {
      assert (0 - c % 2) % 0x1_0000_0000 == ONES;
    } else {
      assert (0 - c % 2) % 0x1_0000_0000 == 0;
    }
  }

  // ── The host's form ────────────────────────────────────────────────

  lemma ShiftPassesEven(x: word, y: nat)
    requires 2 * y <= ONES
    ensures Shift(XorWord(x, 2 * y)) == Xor(Shift(x), y)
  {
    var v := Xor(x, 2 * y);
    XorHalves(x, 2 * y);
    assert (2 * y) / 2 == y;
    assert v / 2 == Xor(x / 2, y) && v % 2 == x % 2;
    XorSwap(x / 2, y, if x % 2 == 1 then POLY else 0);
  }

  /** Bits above the n shifted out pass through the register unchanged. */
  lemma {:induction false} HighBitsPass(x: word, y: word, n: nat)
    requires Pow2(n) * y <= ONES
    decreases n
    ensures Shifts(XorWord(x, Pow2(n) * y), n) == XorWord(Shifts(x, n), y)
  {
    if n > 0 {
      var h := Pow2(n - 1) * y;
      assert Pow2(n) * y == 2 * h by {
        assert Pow2(n) == 2 * Pow2(n - 1);
      }
      ShiftPassesEven(x, h);
      HighBitsPass(Shift(x), y, n - 1);
    } else {
      assert Pow2(0) * y == y;
    }
  }

  lemma {:induction false} XorAboveLow(a: nat, b: nat, n: nat)
    requires b < Pow2(n)
    ensures Xor(a, b) / Pow2(n) == a / Pow2(n)
  {
    if n == 0 {
      XorZero(a);
    } else {
      XorAboveLow(a / 2, b / 2, n - 1);
      XorHalves(a, b);
      DivTwice(Xor(a, b), Pow2(n - 1));
      DivTwice(a, Pow2(n - 1));
    }
  }

  lemma DivTwice(a: nat, p: int)
    requires p >= 1
    ensures a / (2 * p) == a / 2 / p
  {
    var h, q := a / 2, a / 2 / p;
    assert p * q <= h < p * q + p;
    assert (2 * p) * q <= a < (2 * p) * q + 2 * p;
    DivIsUnique(a, 2 * p, q);
  }

  lemma DivIsUnique(a: nat, d: int, q: int)
    requires d >= 1 && d * q <= a < d * q + d
    ensures a / d == q
  {
    var k := a / d - q;
    assert -d < d * k < d;
    assert k >= 1 ==> d * k >= d;
    assert k <= -1 ==> d * k <= -d;
  }

  /** Eight shifts of x ^ (y << 8) are eight shifts of x, then ^ y. */
  lemma UpperBytesPass(x: word, y: word)
    requires 0x100 * y <= ONES
    ensures Shifts(XorWord(x, 0x100 * y), 8) == XorWord(Shifts(x, 8), y)
  {
    assert Pow2(8) == 0x100;
    HighBitsPass(x, y, 8);
  }

  /** A word is its low byte and the rest, and a byte xored in touches only the low one. */
  lemma SplitWord(c: word, b: byte)
    ensures var v := XorWord(c, b);
            v / 0x100 == c / 0x100 && 0x100 * (v / 0x100) <= ONES && XorWord(v % 0x100, 0x100 * (v / 0x100)) == v
  {
    var v := XorWord(c, b);
    assert Pow2(8) == 0x100;
    XorAboveLow(c, b, 8);
    XorDisjoint(v % 0x100, v / 0x100, 8);
  }

  /** One table step, indexed by the low byte with the rest moved down, is one byte fed bit by bit. */
  lemma TableStep(c: word, b: byte)
    ensures var v := XorWord(c, b); Feed(c, b) == Xor(Shifts(v % 0x100, 8), c / 0x100)
  {
    SplitWord(c, b);
    UpperBytesPass(XorWord(c, b) % 0x100, c / 0x100);
  }

  /** CRC_TABLE: entry n is the register after eight shifts of n. */
  method BuildTable() returns (t: array<word>)
    ensures fresh(t) && t.Length == 256
    ensures forall n :: 0 <= n < 256 ==> t[n] == Shifts(n, 8)
  {
    t := new word[256](_ => 0);
    for n := 0 to 256
      invariant forall m :: 0 <= m < n ==> t[m] == Shifts(m, 8)
    {
      t[n] := TableEntry(n);
    }
  }

  method TableEntry(n: word) returns (c: word)
    ensures c == Shifts(n, 8)
  {
    hide Xor, Pow2;
    c := n;
    for k := 0 to 8
      invariant Shifts(c, 8 - k) == Shifts(n, 8)
    {
      XorCommutes(POLY, c / 2);
      XorZero(c / 2);
      c := if c % 2 == 1 then XorWord(POLY, c / 2) else c / 2;
    }
  }

  /** The table-driven CRC of the host computes the same function. */
  method Crc32Table(bytes: seq<byte>, t: array<word>) returns (crc: word)
    requires t.Length == 256 && forall n :: 0 <= n < 256 ==> t[n] == Shifts(n, 8)
    ensures crc == Crc(bytes)
  {
    var c: word := ONES;
    for i := 0 to |bytes|
      invariant FeedAll(c, bytes[i..]) == FeedAll(ONES, bytes)
    {
      assert bytes[i..][1..] == bytes[i + 1..];
      TableStep(c, bytes[i]);
      c := XorWord(t[XorWord(c, bytes[i]) % 0x100], c / 0x100);
    }
    crc := XorWord(c, ONES);
  }

  // ── Bursts ─────────────────────────────────────────────────────────

  /** A run of bytes as one little-endian number. */
  function Number(bytes: seq<byte>): nat {
    if bytes == [] then 0 else bytes[0] as int + 0x100 * Number(bytes[1..])
  }

  /** Different runs of one length are different numbers. */
  lemma {:induction false} NumbersDiffer(u: seq<byte>, v: seq<byte>)
    requires |u| == |v| && Number(u) == Number(v)
    ensures u == v
  {
    if u != [] {
      NumbersDiffer(u[1..], v[1..]);
      assert u == [u[0]] + u[1..] && v == [v[0]] + v[1..];
    }
  }

  lemma NumberFits(u: seq<byte>)
    requires |u| <= 4
    ensures Number(u) <= ONES
  {
    if |u| > 0 { NumberGrows(u); }
    if |u| > 1 { NumberGrows(u[1..]); }
    if |u| > 2 { NumberGrows(u[1..][1..]); }
    if |u| > 3 { NumberGrows(u[1..][1..][1..]); }
  }

  lemma NumberGrows(u: seq<byte>)
    requires u != []
    ensures Number(u) <= 255 + 0x100 * Number(u[1..])
  {
  }

  lemma {:induction false} ShiftsAdd(c: word, m: nat, n: nat)
    ensures Shifts(c, m + n) == Shifts(Shifts(c, m), n)
    decreases m
  {
    if m > 0 {
      ShiftsAdd(Shift(c), m - 1, n);
    }
  }

  /** Feeding up to four bytes is xoring them in at once and shifting them all through. */
  lemma {:induction false} FeedAtOnce(c: word, u: seq<byte>, x: nat, n: nat)
    requires x == Number(u) && x <= ONES && n == 8 * |u|
    ensures FeedAll(c, u) == Shifts(XorWord(c, x), n)
    decreases |u|
  {
    hide Xor, Feed, Pow2, XorWord;
    if u == [] {
      NothingFed(c);
    } else {
      NumberStep(u);
      FeedAtOnce(Feed(c, u[0]), u[1..], Number(u[1..]), n - 8);
      FeedFirst(c, u[0], Number(u[1..]), n - 8);
      FeedStep(c, u);
    }
  }

  lemma NothingFed(c: word)
    ensures FeedAll(c, []) == Shifts(XorWord(c, 0), 0) && Number([]) == 0
  {
    XorZero(c);
  }

  lemma NumberStep(u: seq<byte>)
    requires u != []
    ensures Number(u) == u[0] as int + 0x100 * Number(u[1..])
    ensures Number(u[1..]) <= Number(u)
  {
  }

  lemma FeedStep(c: word, u: seq<byte>)
    requires u != []
    ensures FeedAll(c, u) == FeedAll(Feed(c, u[0]), u[1..])
  {
  }

  lemma FeedFirst(c: word, b: byte, rest: nat, n: nat)
    requires b + 0x100 * rest <= ONES
    ensures Shifts(XorWord(c, b + 0x100 * rest), 8 + n) == Shifts(XorWord(Feed(c, b), rest), n)
  {
    XorInParts(c, b, rest);
    UpperBytesPass(XorWord(c, b), rest);
    ShiftsAdd(XorWord(c, b + 0x100 * rest), 8, n);
  }

  lemma XorInParts(c: word, b: byte, rest: nat)
    requires b + 0x100 * rest <= ONES
    ensures XorWord(c, b + 0x100 * rest) == XorWord(XorWord(c, b), 0x100 * rest)
  {
    assert Pow2(8) == 0x100;
    XorDisjoint(b, rest, 8);
    XorAssociates(c, b, 0x100 * rest);
  }

  /** The polynomial has its top bit, so one shift can be undone. */
  lemma ShiftIsInjective(a: word, b: word)
    requires Shift(a) == Shift(b)
    ensures a == b
  {
    WordBits();
    XorZero(a / 2);
    XorZero(b / 2);
    XorSetsTopBit(a / 2, POLY, 32);
    XorSetsTopBit(b / 2, POLY, 32);
    if a % 2 == 1 && b % 2 == 1 {
      XorIsInjective(a / 2, b / 2, POLY);
    }
  }

  lemma {:induction false} ShiftsAreInjective(a: word, b: word, n: nat)
    requires Shifts(a, n) == Shifts(b, n)
    ensures a == b
    decreases n
  {
    if n > 0 {
      ShiftsAreInjective(Shift(a), Shift(b), n - 1);
      ShiftIsInjective(a, b);
    }
  }

  /** Bytes both inputs share keep a difference alive. */
  lemma {:induction false} SharedBytesKeepDifference(a: word, b: word, s: seq<byte>)
    requires FeedAll(a, s) == FeedAll(b, s)
    ensures a == b
    decreases |s|
  {
    if s != [] {
      SharedBytesKeepDifference(Feed(a, s[0]), Feed(b, s[0]), s[1..]);
      ShiftsAreInjective(XorWord(a, s[0]), XorWord(b, s[0]), 8);
      XorIsInjective(a, b, s[0]);
    }
  }

  lemma {:induction false} FeedConcat(c: word, xs: seq<byte>, ys: seq<byte>)
    ensures FeedAll(c, xs + ys) == FeedAll(FeedAll(c, xs), ys)
    decreases |xs|
  {
    if xs == [] {
      assert xs + ys == ys;
    } else {
      assert (xs + ys)[1..] == xs[1..] + ys;
      FeedConcat(Feed(c, xs[0]), xs[1..], ys);
    }
  }

  lemma BurstChangesRegister(c: word, u: seq<byte>, v: seq<byte>)
    requires |u| == |v| <= 4 && FeedAll(c, u) == FeedAll(c, v)
    ensures u == v
  {
    NumberFits(u);
    NumberFits(v);
    FeedAtOnce(c, u, Number(u), 8 * |u|);
    FeedAtOnce(c, v, Number(v), 8 * |u|);
    ShiftsAreInjective(XorWord(c, Number(u)), XorWord(c, Number(v)), 8 * |u|);
    XorCommutes(c, Number(u));
    XorCommutes(c, Number(v));
    XorIsInjective(Number(u), Number(v), c);
    NumbersDiffer(u, v);
  }

  /** Inputs of one length that differ only within four consecutive bytes never have the same CRC. */
  lemma BurstsAreDetected(a: seq<byte>, b: seq<byte>, i: nat, j: nat)
    requires |a| == |b| && i <= j <= |a| && j <= i + 4
    requires a[..i] == b[..i] && a[j..] == b[j..]
    requires Crc(a) == Crc(b)
    ensures a == b
  {
    var p, u, v, s := a[..i], a[i..j], b[i..j], a[j..];
    assert a == p + (u + s) && b == p + (v + s);
    FeedConcat(ONES, p, u + s);
    FeedConcat(ONES, p, v + s);
    var c := FeedAll(ONES, p);
    FeedConcat(c, u, s);
    FeedConcat(c, v, s);
    XorIsInjective(FeedAll(ONES, a), FeedAll(ONES, b), ONES);
    SharedBytesKeepDifference(FeedAll(c, u), FeedAll(c, v), s);
    BurstChangesRegister(c, u, v);
  }

  // ── The polynomial ─────────────────────────────────────────────────

  /**
   * The constant is the generator x^32 + x^26 + x^23 + x^22 + x^16 + x^12 + x^11
   * + x^10 + x^8 + x^7 + x^5 + x^4 + x^2 + x + 1 with bit 31 - e standing for x^e.
   */
  lemma PolyIsTheGenerator()
    ensures POLY == Pow2(31 - 26) + Pow2(31 - 23) + Pow2(31 - 22) + Pow2(31 - 16) + Pow2(31 - 12) + Pow2(31 - 11)
                  + Pow2(31 - 10) + Pow2(31 - 8) + Pow2(31 - 7) + Pow2(31 - 5) + Pow2(31 - 4) + Pow2(31 - 2)
                  + Pow2(31 - 1) + Pow2(31 - 0)
  {
    assert Pow2(5) == 0x20 && Pow2(8) == 0x100 && Pow2(9) == 0x200;
    assert Pow2(15) == 0x8000;
    assert Pow2(19) == 0x8_0000 && Pow2(20) == 0x10_0000 && Pow2(21) == 0x20_0000;
    assert Pow2(23) == 0x80_0000 && Pow2(24) == 0x100_0000;
    assert Pow2(26) == 0x400_0000 && Pow2(27) == 0x800_0000;
    assert Pow2(29) == 0x2000_0000 && Pow2(30) == 0x4000_0000 && Pow2(31) == 0x8000_0000;
  }

  // ── The residue ────────────────────────────────────────────────────

  /** A message followed by its own CRC, low byte first, leaves one register whatever the message was. */
  lemma ResidueIsConstant(d: seq<byte>, crc: seq<byte>)
    requires |crc| == 4 && Number(crc) == Crc(d)
    ensures FeedAll(ONES, d + crc) == Shifts(ONES, 32)
  {
    hide Number, FeedAll, Shifts, Xor;
    var c := FeedAll(ONES, d);
    FeedConcat(ONES, d, crc);
    FeedAtOnce(c, crc, Number(crc), 32);
    XorFirst(c, ONES);
  }

  lemma XorFirst(a: nat, m: nat)
    ensures Xor(a, Xor(a, m)) == m
  {
    hide Xor;
    XorCommutes(a, m);
    XorCommutes(a, Xor(m, a));
    XorTwice(m, a);
  }
}
