/** The raw transaction a channel writes and the payment check that reads it (channel-anchor.ts, x402.ts). */
module RawTx {
  import opened Prelude
  import opened Bytes
  import opened Hex

  datatype TxIn = TxIn(txid: string, vout: int, sequence: int)

  datatype TxOut = TxOut(sats: int, lockHex: string)

  // ── Writing ────────────────────────────────────────────────────────

  /** The low n bytes of v, low byte first. */
  function Le(v: int, n: nat): (s: seq<byte>)
    requires n <= 8
    ensures |s| == n
  {
    seq(n, k requires 0 <= k < n => LeByte(v, k))
  }

  function Varint(n: nat): (s: seq<byte>)
    ensures |s| >= 1 && (if n < 0xfd then s == [n] else s[0] >= 0xfd)
  {
    if n < 0xfd then [n] else if n <= 0xffff then [0xfd] + Le(n, 2) else [0xfe] + Le(n, 4)
  }

  function Reversed(s: seq<byte>): (r: seq<byte>)
    ensures |r| == |s|
  {
    seq(|s|, i requires 0 <= i < |s| => s[|s| - 1 - i])
  }

  /** A script behind its length. */
  function Script(s: seq<byte>): seq<byte> {
    Varint(|s|) + s
  }

  /** The i-th unlocking script, or none. */
  function ScriptSig(scriptsigs: seq<seq<byte>>, i: nat): seq<byte> {
    if i < |scriptsigs| then scriptsigs[i] else []
  }

  function OutBytes(o: TxOut): seq<byte> {
    Le(o.sats, 8) + Script(FromHex(o.lockHex))
  }

  /** An input, with the output it spends in the extended format. */
  function InBytes(i: TxIn, script: seq<byte>, prevout: Option<TxOut>): seq<byte> {
    Reversed(FromHex(i.txid)) + Le(i.vout, 4) + Script(script) + Le(i.sequence, 4)
    + if prevout.Some? then OutBytes(prevout.value) else []
  }

  /** The previous output of input i: none outside the extended format. */
  function Prevout(prevouts: Option<seq<TxOut>>, i: nat): Option<TxOut> {
    if prevouts.Some? && i < |prevouts.value| then Some(prevouts.value[i]) else None
  }

  function InsBytes(ins: seq<TxIn>, scriptsigs: seq<seq<byte>>, prevouts: Option<seq<TxOut>>, i: nat): seq<byte>
    requires i <= |ins|
    decreases |ins| - i
  {
    if i == |ins| then [] else
      InBytes(ins[i], ScriptSig(scriptsigs, i), Prevout(prevouts, i)) + InsBytes(ins, scriptsigs, prevouts, i + 1)
  }

  function OutsBytes(outs: seq<TxOut>, i: nat): seq<byte>
    requires i <= |outs|
    decreases |outs| - i
  {
    if i == |outs| then [] else OutBytes(outs[i]) + OutsBytes(outs, i + 1)
  }

  const VERSION: seq<byte> := [1, 0, 0, 0]
  const EF_MARKER: seq<byte> := [0, 0, 0, 0, 0, 0xef]

  function TxBytes(ins: seq<TxIn>, outs: seq<TxOut>, locktime: int, scriptsigs: seq<seq<byte>>,
      prevouts: Option<seq<TxOut>>): seq<byte>
  {
    VERSION + (if prevouts.Some? then EF_MARKER else []) + Varint(|ins|) + InsBytes(ins, scriptsigs, prevouts, 0)
    + Varint(|outs|) + OutsBytes(outs, 0) + Le(locktime, 4)
  }

  /** One input's fields, in order. */
  method InputBytes(i: TxIn, script: seq<byte>, prevout: Option<TxOut>) returns (b: seq<byte>)
    ensures b == InBytes(i, script, prevout)
  {
    b := Reversed(FromHex(i.txid));
    b := b + Le(i.vout, 4);
    b := b + Script(script);
    b := b + Le(i.sequence, 4);
    if prevout.Some? {
      b := b + OutBytes(prevout.value);
    }
  }

  /** serialiseTx; None where an input of the extended format has no previous output. */
  method SerialiseTx(ins: seq<TxIn>, outs: seq<TxOut>, locktime: int, scriptsigs: seq<seq<byte>>,
      prevouts: Option<seq<TxOut>>)
    returns (hex: Option<string>)
    ensures hex == if prevouts.Some? && |prevouts.value| < |ins| then None
                   else Some(ToHex(TxBytes(ins, outs, locktime, scriptsigs, prevouts)))
  {
    hide Varint, Le, Reversed, Script, OutBytes, ScriptSig, FromHex, ToHex;
    var b := VERSION;
    if prevouts.Some? {
      b := b + EF_MARKER;
    }
    b := b + Varint(|ins|);
    ghost var head := b;
    assert VERSION + [] == VERSION;
    for i := 0 to |ins|
      invariant b + InsBytes(ins, scriptsigs, prevouts, i) == head + InsBytes(ins, scriptsigs, prevouts, 0)
      invariant prevouts.Some? ==> i <= |prevouts.value|
    {
      if prevouts.Some? && i >= |prevouts.value| {
        return None;
      }
      var input := InputBytes(ins[i], ScriptSig(scriptsigs, i), Prevout(prevouts, i));
      Regroup(b, input, InsBytes(ins, scriptsigs, prevouts, i + 1));
      b := b + input;
    }
    assert b == b + [] == head + InsBytes(ins, scriptsigs, prevouts, 0);
    b := b + Varint(|outs|);
    ghost var middle := b;
    for i := 0 to |outs|
      invariant b + OutsBytes(outs, i) == middle + OutsBytes(outs, 0)
    {
      Regroup(b, OutBytes(outs[i]), OutsBytes(outs, i + 1));
      b := b + OutBytes(outs[i]);
    }
    assert b == b + [] == middle + OutsBytes(outs, 0);
    b := b + Le(locktime, 4);
    hex := Some(ToHex(b));
  }

  lemma Regroup(x: seq<byte>, y: seq<byte>, z: seq<byte>)
    ensures x + (y + z) == x + y + z
  {
  }

  // ── Reading ────────────────────────────────────────────────────────

  /**
   * The byte under a cursor. A cursor past the end reads nothing, and one that
   * has had nothing added to it (None) is no position at all from then on.
   */
  function At(tx: seq<byte>, o: Option<nat>): Option<byte> {
    if o.Some? && o.value < |tx| then Some(tx[o.value]) else None
  }

  function Moved(o: Option<nat>, step: Option<nat>): Option<nat> {
    if o.Some? && step.Some? then Some(o.value + step.value) else None
  }

  /** A length byte that is no multi-byte varint; reading nothing passes. */
  predicate OneByte(b: Option<byte>) {
    b.None? || b.value < 0xfd
  }

  function CountOf(b: Option<byte>): nat {
    if b.Some? then b.value else 0
  }

  /** Past one input: 36 bytes, a script behind its one-byte length, and 4 bytes. */
  function PastIn(tx: seq<byte>, o: Option<nat>): Option<nat> {
    var at := Moved(o, Some(36));
    Moved(Moved(Moved(at, Some(1)), At(tx, at)), Some(4))
  }

  /** Past count inputs; None where one has a longer length. */
  function PastIns(tx: seq<byte>, o: Option<nat>, count: nat): Option<Option<nat>>
    decreases count
  {
    if count == 0 then Some(o)
    else if !OneByte(At(tx, Moved(o, Some(36)))) then None
    else PastIns(tx, PastIn(tx, o), count - 1)
  }

  /** The 8-byte value at a cursor; None where a byte is missing. */
  function ValueAt(tx: seq<byte>, o: Option<nat>): Option<int> {
    if o.Some? && o.value + 8 <= |tx| then Some(ReadU64(tx, o.value)) else None
  }

  /** The greatest of max and the next count output values; None where a value or length cannot be read. */
  function Greatest(tx: seq<byte>, o: Option<nat>, count: nat, max: int): Option<int>
    decreases count
  {
    if count == 0 then Some(max) else
      var v, at := ValueAt(tx, o), Moved(o, Some(8));
      if v.None? || !OneByte(At(tx, at)) then None
      else Greatest(tx, Moved(Moved(at, Some(1)), At(tx, at)), count - 1, Max(v.value, max))
  }

  /** maxOutputValue; None where it throws. */
  function MaxOutput(tx: seq<byte>): Option<int> {
    var inCount := At(tx, Some(4));
    if !OneByte(inCount) then None else
      var o := PastIns(tx, Some(5), CountOf(inCount));
      if o.None? then None else
        var outCount := At(tx, o.value);
        if !OneByte(outCount) then None else Greatest(tx, Moved(o.value, Some(1)), CountOf(outCount), 0)
  }

  method MaxOutputValue(rawtxHex: string) returns (r: Option<int>)
    ensures r == MaxOutput(FromHex(rawtxHex))
  {
    hide ValueAt, FromHex;
    var tx := FromHex(rawtxHex);
    var o: Option<nat> := Some(4);
    var inCount := At(tx, o);
    o := Moved(o, Some(1));
    if !OneByte(inCount) {
      return None;
    }
    for i := 0 to CountOf(inCount)
      invariant PastIns(tx, o, CountOf(inCount) - i) == PastIns(tx, Some(5), CountOf(inCount))
    {
      o := Moved(o, Some(36));
      var sl := At(tx, o);
      o := Moved(o, Some(1));
      if !OneByte(sl) {
        return None;
      }
      o := Moved(Moved(o, sl), Some(4));
    }
    var outCount := At(tx, o);
    o := Moved(o, Some(1));
    if !OneByte(outCount) {
      return None;
    }
    ghost var start := o;
    var max := 0;
    for i := 0 to CountOf(outCount)
      invariant Greatest(tx, o, CountOf(outCount) - i, max) == Greatest(tx, start, CountOf(outCount), 0)
    {
      var v := ReadValue(tx, o);
      if v.None? {
        return None;
      }
      o := Moved(o, Some(8));
      var sl := At(tx, o);
      o := Moved(o, Some(1));
      if !OneByte(sl) {
        return None;
      }
      o := Moved(o, sl);
      max := if v.value > max then v.value else max;
    }
    r := Some(max);
  }

  /** Eight bytes, low first; a missing one throws. */
  method ReadValue(tx: seq<byte>, o: Option<nat>) returns (v: Option<int>)
    ensures v == ValueAt(tx, o)
  {
    var sum := 0;
    for b := 0 to 8
      invariant b > 0 ==> o.Some? && o.value + b <= |tx|
      invariant sum == if b > 0 then PartOf(tx, o.value, b) else 0
    {
      var byteAt := At(tx, Moved(o, Some(b)));
      if byteAt.None? {
        return None;
      }
      sum := sum + byteAt.value * Weight(b);
    }
    PartIsWord(tx, o.value);
    v := Some(sum);
  }

  // ── Writer and reader agree ────────────────────────────────────────

  /** tx holds s at o. */
  ghost predicate Has(tx: seq<byte>, o: nat, s: seq<byte>) {
    o + |s| <= |tx| && tx[o..o + |s|] == s
  }

  lemma HasParts(tx: seq<byte>, o: nat, a: seq<byte>, b: seq<byte>)
    requires Has(tx, o, a + b)
    ensures Has(tx, o, a) && Has(tx, o + |a|, b)
  {
    var s := tx[o..o + |a + b|];
    assert s[..|a|] == a && s[|a|..] == b;
  }

  lemma HasByte(tx: seq<byte>, o: nat, s: seq<byte>)
    requires Has(tx, o, s) && s != []
    ensures At(tx, Some(o)) == Some(s[0])
  {
    assert tx[o] == tx[o..o + |s|][0];
  }

  /** A script's length byte decides: short scripts are stepped over, longer ones refused. */
  lemma ScriptIsRead(tx: seq<byte>, o: nat, script: seq<byte>)
    requires Has(tx, o, Script(script))
    ensures OneByte(At(tx, Some(o))) <==> |script| < 0xfd
    ensures |script| < 0xfd ==> Moved(Moved(Some(o), Some(1)), At(tx, Some(o))) == Some(o + |Script(script)|)
  {
    HasByte(tx, o, Script(script));
  }

  lemma InIsRead(tx: seq<byte>, o: nat, i: TxIn, script: seq<byte>)
    requires Has(tx, o, InBytes(i, script, None)) && |FromHex(i.txid)| == 32
    ensures OneByte(At(tx, Some(o + 36))) <==> |script| < 0xfd
    ensures |script| < 0xfd ==> PastIn(tx, Some(o)) == Some(o + |InBytes(i, script, None)|)
  {
    var point, sequence := Reversed(FromHex(i.txid)) + Le(i.vout, 4), Le(i.sequence, 4);
    assert InBytes(i, script, None) == point + (Script(script) + sequence);
    hide Script, Le, Reversed, FromHex, InBytes;
    HasParts(tx, o, point, Script(script) + sequence);
    HasParts(tx, o + 36, Script(script), sequence);
    ScriptIsRead(tx, o + 36, script);
  }

  /** Every unlocking script from input i on has a one-byte length. */
  ghost predicate ShortScripts(ins: seq<TxIn>, scriptsigs: seq<seq<byte>>, i: nat) {
    forall j :: i <= j < |ins| ==> |ScriptSig(scriptsigs, j)| < 0xfd
  }

  ghost predicate ShortLocks(outs: seq<TxOut>, i: nat) {
    forall j :: i <= j < |outs| ==> |FromHex(outs[j].lockHex)| < 0xfd
  }

  ghost predicate FullTxids(ins: seq<TxIn>) {
    forall j :: 0 <= j < |ins| ==> |FromHex(ins[j].txid)| == 32
  }

  lemma {:induction false} InsAreRead(tx: seq<byte>, o: nat, ins: seq<TxIn>, scriptsigs: seq<seq<byte>>, i: nat)
    requires i <= |ins| && FullTxids(ins) && Has(tx, o, InsBytes(ins, scriptsigs, None, i))
    ensures PastIns(tx, Some(o), |ins| - i)
         == if ShortScripts(ins, scriptsigs, i) then Some(Some(o + |InsBytes(ins, scriptsigs, None, i)|)) else None
    decreases |ins| - i
  {
    hide InBytes, ScriptSig, FromHex, PastIn, Has;
    if i < |ins| {
      var script := ScriptSig(scriptsigs, i);
      var first := InBytes(ins[i], script, None);
      HasParts(tx, o, first, InsBytes(ins, scriptsigs, None, i + 1));
      InIsRead(tx, o, ins[i], script);
      assert ShortScripts(ins, scriptsigs, i) <==> |script| < 0xfd && ShortScripts(ins, scriptsigs, i + 1);
      if |script| < 0xfd {
        InsAreRead(tx, o + |first|, ins, scriptsigs, i + 1);
      }
    }
  }

  /** The greatest of max and the output values from i on. */
  function LargestFrom(outs: seq<TxOut>, i: nat, max: int): int
    requires i <= |outs|
    decreases |outs| - i
  {
    if i == |outs| then max else LargestFrom(outs, i + 1, Max(outs[i].sats, max))
  }

  ghost predicate ValuesFit(outs: seq<TxOut>) {
    forall j :: 0 <= j < |outs| ==> 0 <= outs[j].sats < 0x1_0000_0000_0000_0000
  }

  lemma OutIsRead(tx: seq<byte>, o: nat, out: TxOut)
    requires Has(tx, o, OutBytes(out)) && 0 <= out.sats < 0x1_0000_0000_0000_0000
    ensures ValueAt(tx, Some(o)) == Some(out.sats)
    ensures OneByte(At(tx, Some(o + 8))) <==> |FromHex(out.lockHex)| < 0xfd
    ensures |FromHex(out.lockHex)| < 0xfd ==>
              Moved(Moved(Some(o + 8), Some(1)), At(tx, Some(o + 8))) == Some(o + |OutBytes(out)|)
  {
    var lock := FromHex(out.lockHex);
    hide Script, FromHex, ReadU64;
    HasParts(tx, o, Le(out.sats, 8), Script(lock));
    ScriptIsRead(tx, o + 8, lock);
    forall k | 0 <= k < 8 ensures tx[o + k] == LeByte(out.sats, k) {
      assert tx[o..o + 8][k] == Le(out.sats, 8)[k];
    }
    HalvesOfU64(tx, o, out.sats);
  }

  lemma {:induction false} OutsAreRead(tx: seq<byte>, o: nat, outs: seq<TxOut>, i: nat, max: int)
    requires i <= |outs| && ValuesFit(outs) && Has(tx, o, OutsBytes(outs, i))
    ensures Greatest(tx, Some(o), |outs| - i, max)
        == if ShortLocks(outs, i) then Some(LargestFrom(outs, i, max)) else None
    decreases |outs| - i
  {
    hide OutBytes, FromHex, ValueAt, Has;
    if i < |outs| {
      HasParts(tx, o, OutBytes(outs[i]), OutsBytes(outs, i + 1));
      OutIsRead(tx, o, outs[i]);
      assert ShortLocks(outs, i) <==> |FromHex(outs[i].lockHex)| < 0xfd && ShortLocks(outs, i + 1);
      if ShortLocks(outs, i) || |FromHex(outs[i].lockHex)| < 0xfd {
        OutsAreRead(tx, o + |OutBytes(outs[i])|, outs, i + 1, Max(outs[i].sats, max));
      }
    }
  }

  /** Every count and script length fits one byte. */
  ghost predicate OneByteLengths(ins: seq<TxIn>, outs: seq<TxOut>, scriptsigs: seq<seq<byte>>) {
    |ins| < 0xfd && ShortScripts(ins, scriptsigs, 0) && |outs| < 0xfd && ShortLocks(outs, 0)
  }

  lemma CountIsRead(tx: seq<byte>, o: nat, n: nat)
    requires Has(tx, o, Varint(n))
    ensures OneByte(At(tx, Some(o))) <==> n < 0xfd
    ensures n < 0xfd ==> CountOf(At(tx, Some(o))) == n && |Varint(n)| == 1
  {
    HasByte(tx, o, Varint(n));
  }

  /** Where each part of a plain transaction lies. */
  lemma PartsOfTx(ins: seq<TxIn>, outs: seq<TxOut>, locktime: int, scriptsigs: seq<seq<byte>>)
    ensures var tx := TxBytes(ins, outs, locktime, scriptsigs, None);
            var i, o := 4 + |Varint(|ins|)|, 4 + |Varint(|ins|)| + |InsBytes(ins, scriptsigs, None, 0)|;
            && Has(tx, 4, Varint(|ins|)) && Has(tx, i, InsBytes(ins, scriptsigs, None, 0))
            && Has(tx, o, Varint(|outs|)) && Has(tx, o + |Varint(|outs|)|, OutsBytes(outs, 0))
  {
    hide Varint, InsBytes, OutsBytes, Le, Has;
    var a, b, c, d := Varint(|ins|), InsBytes(ins, scriptsigs, None, 0), Varint(|outs|), OutsBytes(outs, 0);
    assert TxBytes(ins, outs, locktime, scriptsigs, None) == VERSION + [] + a + b + c + d + Le(locktime, 4);
    hide *;
    FiveParts(VERSION, a, b, c, d, Le(locktime, 4));
  }

  lemma FiveParts(v: seq<byte>, a: seq<byte>, b: seq<byte>, c: seq<byte>, d: seq<byte>, e: seq<byte>)
    ensures var tx := v + [] + a + b + c + d + e;
            && Has(tx, |v|, a) && Has(tx, |v| + |a|, b) && Has(tx, |v| + |a| + |b|, c)
            && Has(tx, |v| + |a| + |b| + |c|, d)
  {
    hide Has;
    var tx := v + [] + a + b + c + d + e;
    assert v + [] == v;
    assert tx == v + a + (b + (c + (d + e)));
    HasMiddle(v, a, b + (c + (d + e)));
    HasMiddle(v + a, b, c + (d + e));
    assert tx == v + a + b + (c + (d + e));
    HasMiddle(v + a + b, c, d + e);
    assert tx == v + a + b + c + (d + e);
    HasMiddle(v + a + b + c, d, e);
  }

  lemma HasMiddle(x: seq<byte>, y: seq<byte>, z: seq<byte>)
    ensures Has(x + y + z, |x|, y)
    ensures x + (y + z) == x + y + z
  {
  }

  /**
   * The payment check reads what the channel writes: it answers with the largest
   * output value exactly when every count and script length fits one byte, and
   * throws on every other transaction.
   */
  lemma CheckReadsWhatIsWritten(ins: seq<TxIn>, outs: seq<TxOut>, locktime: int, scriptsigs: seq<seq<byte>>)
    requires FullTxids(ins) && ValuesFit(outs)
    ensures MaxOutput(FromHex(ToHex(TxBytes(ins, outs, locktime, scriptsigs, None))))
         == if OneByteLengths(ins, outs, scriptsigs) then Some(LargestFrom(outs, 0, 0)) else None
  {
    var tx := TxBytes(ins, outs, locktime, scriptsigs, None);
    FromToHex(tx);
    PartsOfTx(ins, outs, locktime, scriptsigs);
    hide TxBytes, Varint, InsBytes, OutsBytes, FromHex, ToHex, Has;
    CountIsRead(tx, 4, |ins|);
    if |ins| < 0xfd {
      InsAreRead(tx, 5, ins, scriptsigs, 0);
      var o := 5 + |InsBytes(ins, scriptsigs, None, 0)|;
      CountIsRead(tx, o, |outs|);
      if |outs| < 0xfd {
        OutsAreRead(tx, o + 1, outs, 0, 0);
      }
    }
  }

  /** The value found is the largest: no output has more, and some output has it. */
  lemma {:induction false} LargestIsLargest(outs: seq<TxOut>, i: nat, max: int)
    requires i <= |outs|
    ensures var r := LargestFrom(outs, i, max);
            && max <= r && (forall j :: i <= j < |outs| ==> outs[j].sats <= r)
            && (r == max || exists j :: i <= j < |outs| && outs[j].sats == r)
    decreases |outs| - i
  {
    if i < |outs| {
      LargestIsLargest(outs, i + 1, Max(outs[i].sats, max));
    }
  }

  // ── A transaction cut short ────────────────────────────────────────

  /** Hex cut anywhere decodes to the bytes it still holds whole. */
  lemma FromHexStep(hi: char, lo: char, rest: string)
    requires IsHex(hi) && IsHex(lo)
    ensures FromHex([hi, lo] + rest) == [PairValue(hi, lo)] + FromHex(rest)
  {
    assert ([hi, lo] + rest)[2..] == rest;
  }

  lemma {:induction false} FromHexCut(b: seq<byte>, m: nat)
    requires m <= 2 * |b|
    ensures FromHex(ToHex(b)[..m]) == b[..m / 2]
    decreases |b|
  {
    hide Digit, PairValue;
    var h := ToHex(b)[..m];
    if m >= 2 {
      var more := ToHex(b[1..]);
      assert ToHex(b) == [Digit(b[0] / 16), Digit(b[0] % 16)] + more;
      assert h == [Digit(b[0] / 16), Digit(b[0] % 16)] + more[..m - 2];
      FromHexCut(b[1..], m - 2);
      PairOfByte(b[0]);
      FromHexStep(Digit(b[0] / 16), Digit(b[0] % 16), more[..m - 2]);
      assert b[..m / 2] == [b[0]] + b[1..][..(m - 2) / 2];
    } else {
      assert b[..m / 2] == [];
    }
  }

  lemma AtCut(t: seq<byte>, n: nat, o: nat)
    requires n <= |t|
    ensures At(t[..n], Some(o)) == if o < n then At(t, Some(o)) else None
  {
  }

  /** A lost cursor reads nothing and never throws over inputs. */
  lemma {:induction false} LostCursorPasses(tx: seq<byte>, count: nat)
    ensures PastIns(tx, None, count) == Some(None)
    decreases count
  {
    if count > 0 {
      LostCursorPasses(tx, count - 1);
    }
  }

  /** Over the inputs of a cut transaction the cursor arrives, or is lost because the cut came first. */
  lemma {:induction false} InsCutShort(t: seq<byte>, n: nat, o: nat, ins: seq<TxIn>, scriptsigs: seq<seq<byte>>, i: nat)
    requires n <= |t| && i <= |ins| && FullTxids(ins) && ShortScripts(ins, scriptsigs, i)
    requires Has(t, o, InsBytes(ins, scriptsigs, None, i))
    ensures var r, end := PastIns(t[..n], Some(o), |ins| - i), o + |InsBytes(ins, scriptsigs, None, i)|;
            r == Some(Some(end)) || (r == Some(None) && n <= end)
    decreases |ins| - i
  {
    hide InBytes, ScriptSig, FromHex, PastIn, Has;
    if i < |ins| {
      var first := InBytes(ins[i], ScriptSig(scriptsigs, i), None);
      HasParts(t, o, first, InsBytes(ins, scriptsigs, None, i + 1));
      InReadCut(t, n, o, ins[i], ScriptSig(scriptsigs, i));
      if o + 36 < n {
        InsCutShort(t, n, o + |first|, ins, scriptsigs, i + 1);
      } else {
        LostCursorPasses(t[..n], |ins| - i - 1);
      }
    }
  }

  lemma InReadCut(t: seq<byte>, n: nat, o: nat, i: TxIn, script: seq<byte>)
    requires n <= |t| && Has(t, o, InBytes(i, script, None)) && |FromHex(i.txid)| == 32 && |script| < 0xfd
    ensures OneByte(At(t[..n], Moved(Some(o), Some(36)))) && |InBytes(i, script, None)| >= 41
    ensures PastIn(t[..n], Some(o)) == if o + 36 < n then Some(o + |InBytes(i, script, None)|) else None
  {
    InIsRead(t, o, i, script);
    AtCut(t, n, o + 36);
  }

  /** Where the last output value ends, for outputs that lie at o; o itself if there are none. */
  function ValuesEnd(outs: seq<TxOut>, i: nat, o: nat): (end: nat)
    requires i <= |outs|
    ensures end >= o && (i < |outs| ==> end >= o + 8)
    decreases |outs| - i
  {
    if i == |outs| then o
    else if i + 1 == |outs| then o + 8
    else ValuesEnd(outs, i + 1, o + |OutBytes(outs[i])|)
  }

  lemma OutReadCut(t: seq<byte>, n: nat, o: nat, out: TxOut)
    requires n <= |t| && Has(t, o, OutBytes(out)) && 0 <= out.sats < 0x1_0000_0000_0000_0000
        && |FromHex(out.lockHex)| < 0xfd
    ensures ValueAt(t[..n], Some(o)) == if o + 8 <= n then Some(out.sats) else None
    ensures OneByte(At(t[..n], Some(o + 8))) && |OutBytes(out)| >= 9
    ensures var at := Some(o + 8);
            Moved(Moved(at, Some(1)), At(t[..n], at)) == if o + 8 < n then Some(o + |OutBytes(out)|) else None
  {
    assert |OutBytes(out)| >= 9;
    hide OutBytes, FromHex, Has, ReadU64;
    OutIsRead(t, o, out);
    AtCut(t, n, o + 8);
    ValueCut(t, n, o);
  }

  lemma ValueCut(t: seq<byte>, n: nat, o: nat)
    requires n <= |t|
    ensures ValueAt(t[..n], Some(o)) == if o + 8 <= n then ValueAt(t, Some(o)) else None
  {
  }

  /** Outputs of a cut transaction are read exactly when the last value is whole; the scripts are not missed. */
  lemma {:induction false} OutsCutShort(t: seq<byte>, n: nat, o: nat, outs: seq<TxOut>, i: nat, max: int)
    requires n <= |t| && i <= |outs| && ValuesFit(outs) && ShortLocks(outs, i) && Has(t, o, OutsBytes(outs, i))
    ensures Greatest(t[..n], Some(o), |outs| - i, max)
         == if i == |outs| || ValuesEnd(outs, i, o) <= n then Some(LargestFrom(outs, i, max)) else None
    decreases |outs| - i
  {
    hide OutBytes, FromHex, ValueAt, Has;
    if i < |outs| {
      var next := o + |OutBytes(outs[i])|;
      HasParts(t, o, OutBytes(outs[i]), OutsBytes(outs, i + 1));
      OutReadCut(t, n, o, outs[i]);
      if o + 8 < n {
        OutsCutShort(t, n, next, outs, i + 1, Max(outs[i].sats, max));
      } else if i + 1 < |outs| {
        LostCursorReadsNothing(t[..n], |outs| - i - 1, Max(outs[i].sats, max));
      }
    }
  }

  lemma LostCursorReadsNothing(tx: seq<byte>, count: nat, max: int)
    requires count > 0
    ensures Greatest(tx, None, count, max) == None
  {
  }

  /** The offset of a plain transaction's output count. */
  function OutCountAt(ins: seq<TxIn>, scriptsigs: seq<seq<byte>>): nat {
    4 + |Varint(|ins|)| + |InsBytes(ins, scriptsigs, None, 0)|
  }

  lemma ShortBytesPayNothing(tx: seq<byte>)
    requires |tx| <= 4
    ensures MaxOutput(tx) == Some(0)
  {
  }

  /** Once the input count is read, the answer is decided by where the cursor gets to. */
  lemma AnswerAfterInputs(tx: seq<byte>, ins: nat, c: Option<nat>)
    requires |tx| > 4 && At(tx, Some(4)) == Some(ins) && ins < 0xfd && PastIns(tx, Some(5), ins) == Some(c)
    ensures At(tx, c).None? ==> MaxOutput(tx) == Some(0)
    ensures At(tx, c).Some? && At(tx, c).value < 0xfd ==>
              MaxOutput(tx) == Greatest(tx, Some(c.value + 1), At(tx, c).value, 0)
  {
  }

  /** What the check answers for the first n bytes of a transaction with its output count at `count`. */
  function CutAnswer(outs: seq<TxOut>, count: nat, n: nat): Option<int> {
    if n <= count then Some(0)
    else if n < ValuesEnd(outs, 0, count + 1) then None
    else Some(LargestFrom(outs, 0, 0))
  }

  lemma CutBytesPay(t: seq<byte>, n: nat, ins: seq<TxIn>, outs: seq<TxOut>, scriptsigs: seq<seq<byte>>)
    requires FullTxids(ins) && ValuesFit(outs) && OneByteLengths(ins, outs, scriptsigs) && n <= |t|
    requires Has(t, 4, Varint(|ins|)) && Has(t, 4 + |Varint(|ins|)|, InsBytes(ins, scriptsigs, None, 0))
    requires Has(t, OutCountAt(ins, scriptsigs), Varint(|outs|))
    requires Has(t, OutCountAt(ins, scriptsigs) + |Varint(|outs|)|, OutsBytes(outs, 0))
    ensures MaxOutput(t[..n]) == CutAnswer(outs, OutCountAt(ins, scriptsigs), n)
  {
    hide Varint, InsBytes, OutsBytes, Has, ValuesEnd, LargestFrom, MaxOutput, Greatest, PastIns;
    var o := OutCountAt(ins, scriptsigs);
    CountIsRead(t, 4, |ins|);
    CountIsRead(t, o, |outs|);
    if n <= 4 {
      ShortBytesPayNothing(t[..n]);
    } else {
      var c := PastIns(t[..n], Some(5), |ins|);
      InsCutShort(t, n, 5, ins, scriptsigs, 0);
      AnswerAfterInputs(t[..n], |ins|, c.value);
      if n > o {
        OutsCutShort(t, n, o + 1, outs, 0, 0);
        NoOutputsEndAtOnce(outs, o + 1);
      }
    }
  }

  lemma NoOutputsEndAtOnce(outs: seq<TxOut>, o: nat)
    ensures outs == [] ==> ValuesEnd(outs, 0, o) == o
  {
  }

  /**
   * A transaction's hex cut after any m digits. Cut at or before its output count
   * the check answers 0; cut inside its last value or before it throws; cut
   * anywhere after that value it answers as for the whole, scripts or no scripts.
   */
  lemma CutTransactionPays(ins: seq<TxIn>, outs: seq<TxOut>, locktime: int, scriptsigs: seq<seq<byte>>, m: nat)
    requires FullTxids(ins) && ValuesFit(outs) && OneByteLengths(ins, outs, scriptsigs)
    requires m <= 2 * |TxBytes(ins, outs, locktime, scriptsigs, None)|
    ensures MaxOutput(FromHex(ToHex(TxBytes(ins, outs, locktime, scriptsigs, None))[..m]))
         == CutAnswer(outs, OutCountAt(ins, scriptsigs), m / 2)
  {
    var t := TxBytes(ins, outs, locktime, scriptsigs, None);
    hide TxBytes, Varint, InsBytes, OutsBytes, FromHex, ToHex, Has, CutAnswer, MaxOutput;
    FromHexCut(t, m);
    PartsOfTx(ins, outs, locktime, scriptsigs);
    CutBytesPay(t, m / 2, ins, outs, scriptsigs);
  }

  /** Two cuts of one payment: without its only script it still pays in full, one byte earlier it throws. */
  lemma CutScriptStillPays()
    ensures MaxOutput([1, 0, 0, 0, 0, 1, 0xe8, 3, 0, 0, 0, 0, 0, 0]) == Some(1000)
    ensures MaxOutput([1, 0, 0, 0, 0, 1, 0xe8, 3, 0, 0, 0, 0, 0]) == None
  {
    var t: seq<byte> := [1, 0, 0, 0, 0, 1, 0xe8, 3, 0, 0, 0, 0, 0, 0];
    assert At(t, Some(4)) == Some(0) && At(t, Some(5)) == Some(1) && ValueAt(t, Some(6)) == Some(1000);
    assert At(t, Some(14)) == None;
  }

  /** Whatever bytes come in, an answer above 0 is a 64-bit value that lies in them. */
  lemma AnswerIsInTheBytes(tx: seq<byte>)
    requires MaxOutput(tx).Some?
    ensures var v := MaxOutput(tx).value;
            v >= 0 && (v == 0 || exists k :: 0 <= k <= |tx| - 8 && ReadU64(tx, k) == v)
  {
    hide Greatest, PastIns, ReadU64;
    var count := PastIns(tx, Some(5), CountOf(At(tx, Some(4)))).value;
    ValueIsInTheBytes(tx, Moved(count, Some(1)), CountOf(At(tx, count)), 0);
  }

  lemma {:induction false} ValueIsInTheBytes(tx: seq<byte>, o: Option<nat>, count: nat, max: int)
    requires Greatest(tx, o, count, max).Some?
    ensures var v := Greatest(tx, o, count, max).value;
            v >= max && (v == max || exists k :: 0 <= k <= |tx| - 8 && ReadU64(tx, k) == v)
    decreases count
  {
    hide ReadU64;
    if count > 0 {
      var v, at := ValueAt(tx, o), Moved(o, Some(8));
      assert ReadU64(tx, o.value) == v.value;
      ValueIsInTheBytes(tx, Moved(Moved(at, Some(1)), At(tx, at)), count - 1, Max(v.value, max));
    }
  }

  lemma NoOutputsSeen(tx: seq<byte>)
    requires (|tx| > 4 ==> tx[4] == 0) && (|tx| > 5 ==> tx[5] == 0)
    ensures MaxOutput(tx) == Some(0)
  {
  }

  /** In the extended format the check sees no outputs: whole or cut short, the transaction pays nothing. */
  lemma ExtendedFormatPaysNothing(ins: seq<TxIn>, outs: seq<TxOut>, locktime: int, scriptsigs: seq<seq<byte>>,
                                  prevouts: seq<TxOut>, m: nat)
    requires m <= 2 * |TxBytes(ins, outs, locktime, scriptsigs, Some(prevouts))|
    ensures MaxOutput(FromHex(ToHex(TxBytes(ins, outs, locktime, scriptsigs, Some(prevouts)))[..m])) == Some(0)
  {
    var tx := TxBytes(ins, outs, locktime, scriptsigs, Some(prevouts));
    assert |tx| >= 10 && tx[4] == 0 && tx[5] == 0;
    hide TxBytes, FromHex, ToHex;
    FromHexCut(tx, m);
    NoOutputsSeen(tx[..m / 2]);
  }

  // ── The verdict ────────────────────────────────────────────────────

  datatype Verdict = Missing | Unparseable | Underpaid(funded: int) | Paid(sats: int)

  /** DefaultPaymentVerifier on a transaction's hex. */
  function Verify(transaction: string, required: int): Verdict {
    if transaction == [] then Missing else
      var funded := MaxOutput(FromHex(transaction));
      if funded.None? then Unparseable
      else if funded.value < required then Underpaid(funded.value)
      else Paid(funded.value)
  }

  /**
   * A payment cut short is still accepted, at full value, exactly when its last value is
   * whole and covers the price.
   */
  lemma CutPaymentIsAccepted(ins: seq<TxIn>, outs: seq<TxOut>, locktime: int, scriptsigs: seq<seq<byte>>, m: nat,
      required: int)
    requires FullTxids(ins) && ValuesFit(outs) && OneByteLengths(ins, outs, scriptsigs) && required > 0
    requires m <= 2 * |TxBytes(ins, outs, locktime, scriptsigs, None)|
    ensures var largest := LargestFrom(outs, 0, 0);
            var whole := m / 2 >= ValuesEnd(outs, 0, OutCountAt(ins, scriptsigs) + 1);
            var verdict := Verify(ToHex(TxBytes(ins, outs, locktime, scriptsigs, None))[..m], required);
            && (verdict.Paid? <==> whole && largest >= required)
            && (verdict.Paid? ==> verdict.sats == largest)
  {
    CutTransactionPays(ins, outs, locktime, scriptsigs, m);
    hide TxBytes, ToHex, MaxOutput, LargestFrom;
    assert ValuesEnd(outs, 0, OutCountAt(ins, scriptsigs) + 1) > OutCountAt(ins, scriptsigs) >= 5;
    EmptyHex();
  }

  lemma EmptyHex()
    ensures FromHex([]) == []
  {
  }
}
