/** Little-endian words in byte strings and byte arrays (cell-codec.ts). */
module Bytes {
  import opened Prelude

  /** 256^k for the bytes of a word. */
  function Weight(k: nat): (w: int)
    requires k < 8
    ensures w > 0
  {
    [0x1, 0x100, 0x1_0000, 0x100_0000, 0x1_0000_0000, 0x100_0000_0000, 0x1_0000_0000_0000, 0x100_0000_0000_0000][k]
  }

  /** Byte k of v, counted from the low end: (v >> 8k) & 0xff. */
  function LeByte(v: int, k: nat): byte
    requires k < 8
  {
    (if k == 0 then v
     else if k == 1 then v / 0x100
     else if k == 2 then v / 0x1_0000
     else if k == 3 then v / 0x100_0000
     else if k == 4 then v / 0x1_0000_0000
     else if k == 5 then v / 0x100_0000_0000
     else if k == 6 then v / 0x1_0000_0000_0000
     else v / 0x100_0000_0000_0000) % 256
  }

  /** The n bytes at o as a number, low byte first. */
  function Little(b: seq<byte>, o: nat, n: nat): (v: nat)
    requires o + n <= |b|
    decreases n
  {
    if n == 0 then 0 else b[o] + 0x100 * Little(b, o + 1, n - 1)
  }

  lemma LittleFour(b: seq<byte>, o: nat)
    requires o + 4 <= |b|
    ensures var b0: int, b1: int, b2: int, b3: int := b[o], b[o + 1], b[o + 2], b[o + 3];
            Little(b, o, 4) == b0 + 0x100 * b1 + 0x1_0000 * b2 + 0x100_0000 * b3
  {
    assert Little(b, o + 2, 2) == b[o + 2] as int + 0x100 * (b[o + 3] as int);
  }

  function ReadU16(b: seq<byte>, o: nat): (v: int)
    requires o + 2 <= |b|
    ensures 0 <= v <= 0xffff
  {
    b[o] as int + 0x100 * (b[o + 1] as int)
  }

  function ReadU32(b: seq<byte>, o: nat): (v: int)
    requires o + 4 <= |b|
    ensures IsU32(v)
  {
    LittleFour(b, o);
    Little(b, o, 4)
  }

  /** A 16-bit word read as two's complement. */
  function ReadI16(b: seq<byte>, o: nat): (v: int)
    requires o + 2 <= |b|
    ensures IsI16(v)
  {
    var u := ReadU16(b, o);
    if u >= 0x8000 then u - 0x1_0000 else u
  }

  /** v holds a 16-bit word's two bytes at o. */
  ghost predicate HasU16(b: seq<byte>, o: nat, v: int) {
    o + 2 <= |b| && b[o] == LeByte(v, 0) && b[o + 1] == LeByte(v, 1)
  }

  ghost predicate HasU32(b: seq<byte>, o: nat, v: int) {
    o + 4 <= |b| && b[o] == LeByte(v, 0) && b[o + 1] == LeByte(v, 1) && b[o + 2] == LeByte(v, 2)
        && b[o + 3] == LeByte(v, 3)
  }

  lemma U16IsRead(b: seq<byte>, o: nat, v: int)
    requires HasU16(b, o, v) && 0 <= v <= 0xffff
    ensures ReadU16(b, o) == v
  {
  }

  lemma I16IsRead(b: seq<byte>, o: nat, v: int)
    requires HasU16(b, o, v) && IsI16(v)
    ensures ReadI16(b, o) == v
  {
    assert LeByte(v, 0) + 0x100 * LeByte(v, 1) == v % 0x1_0000;
  }

  lemma Split32(v: int)
    requires IsU32(v)
    ensures v == LeByte(v, 0) + 0x100 * LeByte(v, 1) + 0x1_0000 * LeByte(v, 2) + 0x100_0000 * LeByte(v, 3)
  {
    var q1, q2, q3 := v / 0x100, v / 0x1_0000, v / 0x100_0000;
    assert q2 == q1 / 0x100;
    assert q3 == q2 / 0x100;
    assert q3 < 0x100;
  }

  lemma U32IsRead(b: seq<byte>, o: nat, v: int)
    requires HasU32(b, o, v) && IsU32(v)
    ensures ReadU32(b, o) == v
  {
    Split32(v);
    LittleFour(b, o);
  }

  /** Writing back what was read restores the bytes. */
  lemma ReadU32IsHeld(b: seq<byte>, o: nat)
    requires o + 4 <= |b|
    ensures HasU32(b, o, ReadU32(b, o))
  {
    var v := ReadU32(b, o);
    var w0: int, w1: int, w2: int, w3: int := b[o], b[o + 1], b[o + 2], b[o + 3];
    LittleFour(b, o);
    var q1, q2 := w1 + 0x100 * w2 + 0x1_0000 * w3, w2 + 0x100 * w3;
    assert v == w0 + 0x100 * q1 && q1 == w1 + 0x100 * q2;
    assert v / 0x100 == q1 && v / 0x1_0000 == q2 && v / 0x100_0000 == w3;
    assert v % 0x100 == w0 && q1 % 0x100 == w1 && q2 % 0x100 == w2;
  }

  lemma ReadI16IsHeld(b: seq<byte>, o: nat)
    requires o + 2 <= |b|
    ensures HasU16(b, o, ReadI16(b, o)) && HasU16(b, o, ReadU16(b, o))
  {
    var u, w0: int, w1: int := ReadU16(b, o), b[o], b[o + 1];
    assert u / 0x100 == w1 && (u - 0x1_0000) / 0x100 == w1 - 0x100;
    assert u % 0x100 == w0 && (u - 0x1_0000) % 0x100 == w0;
  }

  /** A 64-bit word, low half first. */
  function ReadU64(b: seq<byte>, o: nat): int
    requires o + 8 <= |b|
  {
    ReadU32(b, o) + 0x1_0000_0000 * ReadU32(b, o + 4)
  }

  lemma HalvesOfU64(c: seq<byte>, o: nat, v: int)
    requires o + 8 <= |c| && 0 <= v < 0x1_0000_0000_0000_0000
    requires forall k :: 0 <= k < 8 ==> c[o + k] == LeByte(v, k)
    ensures ReadU64(c, o) == v
  {
    var lo, hi := v % 0x1_0000_0000, v / 0x1_0000_0000;
    assert HasU32(c, o, lo) by {
      LowBytes(v, lo, hi);
      assert c[o + 0] == LeByte(v, 0) && c[o + 1] == LeByte(v, 1) && c[o + 2] == LeByte(v, 2)
          && c[o + 3] == LeByte(v, 3);
    }
    assert HasU32(c, o + 4, hi) by {
      HighBytes(v, hi);
      assert c[o + 4] == LeByte(v, 4) && c[o + 5] == LeByte(v, 5) && c[o + 6] == LeByte(v, 6)
          && c[o + 7] == LeByte(v, 7);
    }
    U32IsRead(c, o, lo);
    U32IsRead(c, o + 4, hi);
  }

  lemma LowByte(part: int, more: int, high: int)
    requires part == more + 256 * high
    ensures part % 256 == more % 256
  {
  }

  /** The bytes below 2^32 do not feel what is above it. */
  lemma LowBytes(v: int, lo: int, hi: int)
    requires v == lo + 0x1_0000_0000 * hi
    ensures LeByte(v, 0) == LeByte(lo, 0) && LeByte(v, 1) == LeByte(lo, 1)
    ensures LeByte(v, 2) == LeByte(lo, 2) && LeByte(v, 3) == LeByte(lo, 3)
  {
    var v1, v2, v3 := v / 0x100, v / 0x1_0000, v / 0x100_0000;
    var l1, l2, l3 := lo / 0x100, lo / 0x1_0000, lo / 0x100_0000;
    assert v1 == l1 + 256 * (0x1_0000 * hi);
    assert v2 == l2 + 256 * (0x100 * hi);
    assert v3 == l3 + 256 * hi;
    LowByte(v, lo, 0x100_0000 * hi);
    LowByte(v1, l1, 0x1_0000 * hi);
    LowByte(v2, l2, 0x100 * hi);
    LowByte(v3, l3, hi);
  }

  lemma HighBytes(v: int, hi: int)
    requires hi == v / 0x1_0000_0000
    ensures LeByte(v, 4) == LeByte(hi, 0) && LeByte(v, 5) == LeByte(hi, 1)
    ensures LeByte(v, 6) == LeByte(hi, 2) && LeByte(v, 7) == LeByte(hi, 3)
  {
    assert v / 0x100_0000_0000 == hi / 0x100;
    assert v / 0x1_0000_0000_0000 == hi / 0x1_0000;
    assert v / 0x100_0000_0000_0000 == hi / 0x100_0000;
  }

  /** The bytes of a word below k, weighed. */
  function PartOf(b: seq<byte>, o: nat, k: nat): int
    requires k <= 8 && o + k <= |b|
  {
    if k == 0 then 0 else PartOf(b, o, k - 1) + b[o + k - 1] * Weight(k - 1)
  }

  method ReadU64LE(b: seq<byte>, o: nat) returns (v: int)
    requires o + 8 <= |b|
    ensures v == ReadU64(b, o)
  {
    v := 0;
    for i := 0 to 8
      invariant v == PartOf(b, o, i)
    {
      v := v + b[o + i] * Weight(i);
    }
    PartIsWord(b, o);
  }

  lemma PartIsWord(b: seq<byte>, o: nat)
    requires o + 8 <= |b|
    ensures PartOf(b, o, 8) == ReadU64(b, o)
  {
    PartStep(b, o, 0, 0x1);
    PartStep(b, o, 1, 0x100);
    PartStep(b, o, 2, 0x1_0000);
    PartStep(b, o, 3, 0x100_0000);
    PartStep(b, o, 4, 0x1_0000_0000);
    PartStep(b, o, 5, 0x100_0000_0000);
    PartStep(b, o, 6, 0x1_0000_0000_0000);
    PartStep(b, o, 7, 0x100_0000_0000_0000);
    LittleFour(b, o);
    LittleFour(b, o + 4);
  }

  lemma PartStep(b: seq<byte>, o: nat, k: nat, w: int)
    requires k < 8 && o + 8 <= |b| && w == Weight(k)
    ensures PartOf(b, o, k + 1) == PartOf(b, o, k) + w * b[o + k]
  {
  }

  // ── In place ───────────────────────────────────────────────────────

  /** Only the n bytes at o differ. */
  ghost predicate OnlyAt(before: seq<byte>, after: seq<byte>, o: nat, n: nat) {
    |before| == |after| && forall i :: 0 <= i < |after| && !(o <= i < o + n) ==> after[i] == before[i]
  }

  method WriteU16LE(b: array<byte>, o: nat, v: int)
    requires o + 2 <= b.Length
    modifies b
    ensures HasU16(b[..], o, v) && OnlyAt(old(b[..]), b[..], o, 2)
  {
    b[o] := LeByte(v, 0);
    b[o + 1] := LeByte(v, 1);
  }

  method WriteU32LE(b: array<byte>, o: nat, v: int)
    requires o + 4 <= b.Length
    modifies b
    ensures HasU32(b[..], o, v) && OnlyAt(old(b[..]), b[..], o, 4)
  {
    b[o] := LeByte(v, 0);
    b[o + 1] := LeByte(v, 1);
    b[o + 2] := LeByte(v, 2);
    b[o + 3] := LeByte(v, 3);
  }

  method WriteU64LE(b: array<byte>, o: nat, v: int)
    requires o + 8 <= b.Length
    modifies b
    ensures forall k :: 0 <= k < 8 ==> b[o + k] == LeByte(v, k)
    ensures OnlyAt(old(b[..]), b[..], o, 8)
  {
    for i := 0 to 8
      invariant forall k :: 0 <= k < i ==> b[o + k] == LeByte(v, k)
      invariant OnlyAt(old(b[..]), b[..], o, 8)
    {
      b[o + i] := LeByte(v, i);
    }
  }
}
