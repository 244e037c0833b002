/** A reader of whole transactions, and that it recovers everything the serialiser was given. */
module TxReader {
  import opened Prelude
  import opened Bytes
  import opened Hex
  import opened RawTx

  // ── Reading ────────────────────────────────────────────────────────

  /** What was read, and the bytes after it. */
  datatype Read<+T> = Read(value: T, rest: seq<byte>)

  datatype OutRead = OutRead(sats: nat, lock: seq<byte>)

  datatype InRead = InRead(txid: string, vout: nat, script: seq<byte>, sequence: nat, prevout: Option<OutRead>)

  datatype Tx = Tx(version: nat, extended: bool, ins: seq<InRead>, outs: seq<OutRead>, locktime: nat)

  /** A number written low byte first. */
  function Value(s: seq<byte>): nat {
    if s == [] then 0 else s[0] + 0x100 * Value(s[1..])
  }

  function Backwards(s: seq<byte>): seq<byte> {
    if s == [] then [] else Backwards(s[1..]) + [s[0]]
  }

  function TakeBytes(s: seq<byte>, n: nat): Option<Read<seq<byte>>> {
    if |s| < n then None else Some(Read(s[..n], s[n..]))
  }

  function TakeNumber(s: seq<byte>, n: nat): Option<Read<nat>> {
    if |s| < n then None else Some(Read(Value(s[..n]), s[n..]))
  }

  /** A count: one byte, or the 2, 4 or 8 bytes that its first byte announces. */
  function TakeCount(s: seq<byte>): Option<Read<nat>> {
    if s == [] then None
    else if s[0] < 0xfd then Some(Read(s[0] as nat, s[1..]))
    else TakeNumber(s[1..], if s[0] == 0xfd then 2 else if s[0] == 0xfe then 4 else 8)
  }

  function TakeScript(s: seq<byte>): Option<Read<seq<byte>>> {
    var n := TakeCount(s);
    if n.None? then None else TakeBytes(n.value.rest, n.value.value)
  }

  function TakeOut(s: seq<byte>): Option<Read<OutRead>> {
    var sats := TakeNumber(s, 8);
    if sats.None? then None else
      var lock := TakeScript(sats.value.rest);
      if lock.None? then None else Some(Read(OutRead(sats.value.value, lock.value.value), lock.value.rest))
  }

  /** An input; its txid is printed with the last byte first. */
  function TakeIn(s: seq<byte>, extended: bool): Option<Read<InRead>> {
    var txid := TakeBytes(s, 32);
    if txid.None? then None else
      var vout := TakeNumber(txid.value.rest, 4);
      if vout.None? then None else
        var script := TakeScript(vout.value.rest);
        if script.None? then None else
          var sequence := TakeNumber(script.value.rest, 4);
          if sequence.None? then None else
            TakePrevout(sequence.value.rest, extended,
              InRead(ToHex(Backwards(txid.value.value)), vout.value.value, script.value.value, sequence.value.value,
                  None))
  }

  /** The output an input spends follows it in the extended format only. */
  function TakePrevout(s: seq<byte>, extended: bool, i: InRead): Option<Read<InRead>> {
    if !extended then Some(Read(i, s)) else
      var out := TakeOut(s);
      if out.None? then None else Some(Read(i.(prevout := Some(out.value.value)), out.value.rest))
  }

  function TakeIns(s: seq<byte>, extended: bool, count: nat): Option<Read<seq<InRead>>>
    decreases count
  {
    if count == 0 then Some(Read([], s)) else
      var first := TakeIn(s, extended);
      if first.None? then None else
        var more := TakeIns(first.value.rest, extended, count - 1);
        if more.None? then None else Some(Read([first.value.value] + more.value.value, more.value.rest))
  }

  function TakeOuts(s: seq<byte>, count: nat): Option<Read<seq<OutRead>>>
    decreases count
  {
    if count == 0 then Some(Read([], s)) else
      var first := TakeOut(s);
      if first.None? then None else
        var more := TakeOuts(first.value.rest, count - 1);
        if more.None? then None else Some(Read([first.value.value] + more.value.value, more.value.rest))
  }

  /** BRC-30: six bytes after the version mark the extended format. */
  predicate Marked(s: seq<byte>) {
    |s| >= 10 && s[4..10] == [0, 0, 0, 0, 0, 0xef]
  }

  /** A whole transaction, with nothing after it. */
  function ReadTx(s: seq<byte>): Option<Tx> {
    var version := TakeNumber(s, 4);
    if version.None? then None
    else ReadBody(version.value.value, Marked(s), if Marked(s) then s[10..] else s[4..])
  }

  function ReadBody(version: nat, extended: bool, s: seq<byte>): Option<Tx> {
    var n := TakeCount(s);
    if n.None? then None else
      var ins := TakeIns(n.value.rest, extended, n.value.value);
      if ins.None? then None else ReadOutputs(version, extended, ins.value.value, ins.value.rest)
  }

  function ReadOutputs(version: nat, extended: bool, ins: seq<InRead>, s: seq<byte>): Option<Tx> {
    var n := TakeCount(s);
    if n.None? then None else
      var outs := TakeOuts(n.value.rest, n.value.value);
      if outs.None? || |outs.value.rest| != 4 then None
      else Some(Tx(version, extended, ins, outs.value.value, Value(outs.value.rest)))
  }

  // ── What should be read ────────────────────────────────────────────

  const U32: nat := 0x1_0000_0000
  const U64: nat := 0x1_0000_0000_0000_0000

  function OutOf(o: TxOut): OutRead {
    OutRead(o.sats % U64, FromHex(o.lockHex))
  }

  function InOf(i: TxIn, script: seq<byte>, prevout: Option<TxOut>): InRead {
    InRead(ToHex(FromHex(i.txid)), i.vout % U32, script, i.sequence % U32,
           if prevout.Some? then Some(OutOf(prevout.value)) else None)
  }

  function InsOf(ins: seq<TxIn>, scriptsigs: seq<seq<byte>>, prevouts: Option<seq<TxOut>>): (r: seq<InRead>)
    ensures |r| == |ins|
  {
    seq(|ins|, i requires 0 <= i < |ins| => InOf(ins[i], ScriptSig(scriptsigs, i), Prevout(prevouts, i)))
  }

  function OutsOf(outs: seq<TxOut>): (r: seq<OutRead>)
    ensures |r| == |outs|
  {
    seq(|outs|, i requires 0 <= i < |outs| => OutOf(outs[i]))
  }

  // ── Numbers ────────────────────────────────────────────────────────

  function Pow256(n: nat): (p: nat)
    ensures p >= 1
  {
    if n == 0 then 1 else 0x100 * Pow256(n - 1)
  }

  lemma ModIsUnique(v: int, m: int, q: int, r: int)
    requires 0 <= r < m && v == m * q + r
    ensures v % m == r
  {
    var k := v / m - q;
    assert m * k == r - v % m;
    assert k >= 1 ==> m * k >= m;
    assert k <= -1 ==> m * k <= -m;
  }

  lemma ModSplits(v: int, p: int)
    requires p >= 1
    ensures v % (0x100 * p) == v % 0x100 + 0x100 * (v / 0x100 % p)
  {
    var a, b := v / 0x100, v % 0x100;
    var q, r := a / p, a % p;
    assert v == 0x100 * (p * q + r) + b;
    assert 0x100 * (p * q) == (0x100 * p) * q;
    ModIsUnique(v, 0x100 * p, q, 0x100 * r + b);
  }

  lemma NextByte(v: int, k: nat)
    requires k < 7
    ensures LeByte(v, k + 1) == LeByte(v / 0x100, k)
  {
    if k == 0 {
      assert v / 0x100 == v / 0x100 / 1;
    } else if k == 1 {
      assert v / 0x1_0000 == v / 0x100 / 0x100;
    } else if k == 2 {
      assert v / 0x100_0000 == v / 0x100 / 0x1_0000;
    } else if k == 3 {
      assert v / 0x1_0000_0000 == v / 0x100 / 0x100_0000;
    } else if k == 4 {
      assert v / 0x100_0000_0000 == v / 0x100 / 0x1_0000_0000;
    } else if k == 5 {
      assert v / 0x1_0000_0000_0000 == v / 0x100 / 0x100_0000_0000;
    } else {
      assert v / 0x100_0000_0000_0000 == v / 0x100 / 0x1_0000_0000_0000;
    }
  }

  lemma FirstByte(v: int)
    ensures LeByte(v, 0) == v % 0x100
  {
    assert v / 1 == v;
  }

  /** The low n bytes read back as what they can hold of the number. */
  lemma {:induction false} ValueOfLe(v: int, n: nat)
    requires n <= 8
    ensures Value(Le(v, n)) == v % Pow256(n)
    decreases n
  {
    hide LeByte;
    if n > 0 {
      var s := Le(v, n);
      forall k | 0 <= k < n - 1 ensures s[1..][k] == Le(v / 0x100, n - 1)[k] {
        NextByte(v, k);
      }
      assert s[1..] == Le(v / 0x100, n - 1);
      ValueOfLe(v / 0x100, n - 1);
      ModSplits(v, Pow256(n - 1));
      FirstByte(v);
      assert s[0] == v % 0x100;
    }
  }

  lemma Powers()
    ensures Pow256(2) == 0x1_0000 && Pow256(4) == U32 && Pow256(8) == U64
  {
    assert Pow256(3) == 0x100_0000;
    assert Pow256(5) == 0x100_0000_0000;
    assert Pow256(6) == 0x1_0000_0000_0000;
    assert Pow256(7) == 0x100_0000_0000_0000;
  }

  lemma NumberIsRead(v: int, n: nat, rest: seq<byte>)
    requires n <= 8
    ensures TakeNumber(Le(v, n) + rest, n) == Some(Read(v % Pow256(n), rest))
  {
    var s := Le(v, n) + rest;
    assert s[..n] == Le(v, n) && s[n..] == rest;
    ValueOfLe(v, n);
  }

  // ── Parts ──────────────────────────────────────────────────────────

  lemma CountIsTaken(n: nat, rest: seq<byte>)
    requires n < U32
    ensures TakeCount(Varint(n) + rest) == Some(Read(n, rest))
  {
    hide Value, Pow256, Le, TakeNumber;
    Powers();
    var s := Varint(n) + rest;
    if n < 0xfd {
      assert s[1..] == rest;
    } else if n <= 0xffff {
      assert s[1..] == Le(n, 2) + rest;
      NumberIsRead(n, 2, rest);
    } else {
      assert s[1..] == Le(n, 4) + rest;
      NumberIsRead(n, 4, rest);
    }
  }

  lemma ScriptIsTaken(script: seq<byte>, rest: seq<byte>)
    requires |script| < U32
    ensures TakeScript(Script(script) + rest) == Some(Read(script, rest))
  {
    hide TakeCount, Varint;
    assert Script(script) + rest == Varint(|script|) + (script + rest);
    CountIsTaken(|script|, script + rest);
    assert (script + rest)[..|script|] == script && (script + rest)[|script|..] == rest;
  }

  lemma OutIsTaken(o: TxOut, rest: seq<byte>)
    requires |FromHex(o.lockHex)| < U32
    ensures TakeOut(OutBytes(o) + rest) == Some(Read(OutOf(o), rest))
  {
    hide TakeScript, TakeNumber, Script, Le, FromHex, Pow256;
    var lock := FromHex(o.lockHex);
    assert OutBytes(o) + rest == Le(o.sats, 8) + (Script(lock) + rest);
    Powers();
    NumberIsRead(o.sats, 8, Script(lock) + rest);
    ScriptIsTaken(lock, rest);
  }

  lemma {:induction false} BackwardsAt(s: seq<byte>, i: nat)
    requires i < |s|
    ensures |Backwards(s)| == |s| && Backwards(s)[i] == s[|s| - 1 - i]
  {
    if |s| > 1 {
      BackwardsAt(s[1..], if i < |s| - 1 then i else 0);
    }
  }

  lemma BackwardsUndoes(s: seq<byte>)
    requires s != []
    ensures Backwards(Reversed(s)) == s
  {
    BackwardsAt(Reversed(s), 0);
    forall i | 0 <= i < |s| ensures Backwards(Reversed(s))[i] == s[i] {
      BackwardsAt(Reversed(s), i);
    }
  }

  lemma BytesAreTaken(s: seq<byte>, rest: seq<byte>)
    ensures TakeBytes(s + rest, |s|) == Some(Read(s, rest))
  {
    assert (s + rest)[..|s|] == s && (s + rest)[|s|..] == rest;
  }

  lemma InIsTaken(i: TxIn, script: seq<byte>, prevout: Option<TxOut>, rest: seq<byte>)
    requires |FromHex(i.txid)| == 32 && |script| < U32
    requires prevout.Some? ==> |FromHex(prevout.value.lockHex)| < U32
    ensures TakeIn(InBytes(i, script, prevout) + rest, prevout.Some?) == Some(Read(InOf(i, script, prevout), rest))
  {
    hide TakeScript, TakeNumber, TakeBytes, TakeOut, Script, Le, FromHex, ToHex, Pow256, OutBytes, OutOf, Backwards,
        Reversed;
    var txid := FromHex(i.txid);
    var end := (if prevout.Some? then OutBytes(prevout.value) else []) + rest;
    var fromSequence := Le(i.sequence, 4) + end;
    var fromScript := Script(script) + fromSequence;
    var fromVout := Le(i.vout, 4) + fromScript;
    assert InBytes(i, script, prevout) + rest == Reversed(txid) + fromVout;
    Powers();
    BytesAreTaken(Reversed(txid), fromVout);
    BackwardsUndoes(txid);
    NumberIsRead(i.vout, 4, fromScript);
    ScriptIsTaken(script, fromSequence);
    NumberIsRead(i.sequence, 4, end);
    if prevout.Some? {
      OutIsTaken(prevout.value, rest);
    } else {
      assert end == rest;
    }
  }

  // ── The whole ──────────────────────────────────────────────────────

  /** Lengths a script engine's arrays can have, and txids of 32 bytes. */
  ghost predicate Writable(ins: seq<TxIn>, outs: seq<TxOut>, scriptsigs: seq<seq<byte>>, prevouts: Option<seq<TxOut>>) {
    && |ins| < U32 && |outs| < U32 && FullTxids(ins)
    && (forall i: nat :: |ScriptSig(scriptsigs, i)| < U32)
    && (forall i :: 0 <= i < |outs| ==> |FromHex(outs[i].lockHex)| < U32)
    && (prevouts.Some? ==>
          |ins| <= |prevouts.value| && forall i :: 0 <= i < |ins| ==> |FromHex(prevouts.value[i].lockHex)| < U32)
  }

  lemma {:induction false} InsAreTaken(ins: seq<TxIn>, outs: seq<TxOut>, scriptsigs: seq<seq<byte>>,
                                       prevouts: Option<seq<TxOut>>, i: nat, rest: seq<byte>)
    requires Writable(ins, outs, scriptsigs, prevouts) && i <= |ins|
    ensures TakeIns(InsBytes(ins, scriptsigs, prevouts, i) + rest, prevouts.Some?, |ins| - i)
         == Some(Read(InsOf(ins, scriptsigs, prevouts)[i..], rest))
    decreases |ins| - i
  {
    hide InBytes, TakeIn, InOf, FromHex, ScriptSig;
    var all := InsOf(ins, scriptsigs, prevouts);
    if i == |ins| {
      assert [] + rest == rest;
    } else {
      var first, more := InBytes(ins[i], ScriptSig(scriptsigs, i), Prevout(prevouts, i)),
          InsBytes(ins, scriptsigs, prevouts, i + 1);
      assert first + more + rest == first + (more + rest);
      InIsTaken(ins[i], ScriptSig(scriptsigs, i), Prevout(prevouts, i), more + rest);
      InsAreTaken(ins, outs, scriptsigs, prevouts, i + 1, rest);
      assert all[i..] == [all[i]] + all[i + 1..];
    }
  }

  lemma {:induction false} OutsAreTaken(outs: seq<TxOut>, i: nat, rest: seq<byte>)
    requires i <= |outs| && forall j :: 0 <= j < |outs| ==> |FromHex(outs[j].lockHex)| < U32
    ensures TakeOuts(OutsBytes(outs, i) + rest, |outs| - i) == Some(Read(OutsOf(outs)[i..], rest))
    decreases |outs| - i
  {
    hide OutBytes, TakeOut, OutOf, FromHex;
    if i == |outs| {
      assert [] + rest == rest;
    } else {
      var first, more := OutBytes(outs[i]), OutsBytes(outs, i + 1);
      assert first + more + rest == first + (more + rest);
      OutIsTaken(outs[i], more + rest);
      OutsAreTaken(outs, i + 1, rest);
      assert OutsOf(outs)[i..] == [OutsOf(outs)[i]] + OutsOf(outs)[i + 1..];
    }
  }

  /** A plain transaction without inputs or outputs whose locktime looks like the end of the mark. */
  predicate LooksMarked(ins: seq<TxIn>, outs: seq<TxOut>, locktime: int) {
    ins == [] && outs == [] && locktime % U32 == 0xef00_0000
  }

  /** A transaction after its version and mark. */
  function Body(ins: seq<TxIn>, outs: seq<TxOut>, locktime: int, scriptsigs: seq<seq<byte>>,
                prevouts: Option<seq<TxOut>>): seq<byte>
  {
    Varint(|ins|) + (InsBytes(ins, scriptsigs, prevouts, 0) + (Varint(|outs|) + (OutsBytes(outs, 0) + Le(locktime, 4))))
  }

  lemma BodyIsRead(ins: seq<TxIn>, outs: seq<TxOut>, locktime: int, scriptsigs: seq<seq<byte>>,
                   prevouts: Option<seq<TxOut>>, version: nat, body: seq<byte>)
    requires Writable(ins, outs, scriptsigs, prevouts)
    requires body == Body(ins, outs, locktime, scriptsigs, prevouts)
    ensures ReadBody(version, prevouts.Some?, body)
         == Some(Tx(version, prevouts.Some?, InsOf(ins, scriptsigs, prevouts), OutsOf(outs), locktime % U32))
  {
    hide TakeCount, TakeIns, TakeOuts, Varint, InsBytes, OutsBytes, FullTxids, ScriptSig, FromHex, Pow256, Le, Value;
    var afterOuts := Le(locktime, 4);
    var afterIns := Varint(|outs|) + (OutsBytes(outs, 0) + afterOuts);
    CountIsTaken(|ins|, InsBytes(ins, scriptsigs, prevouts, 0) + afterIns);
    InsAreTaken(ins, outs, scriptsigs, prevouts, 0, afterIns);
    CountIsTaken(|outs|, OutsBytes(outs, 0) + afterOuts);
    OutsAreTaken(outs, 0, afterOuts);
    assert InsOf(ins, scriptsigs, prevouts)[0..] == InsOf(ins, scriptsigs, prevouts);
    assert OutsOf(outs)[0..] == OutsOf(outs);
    Powers();
    ValueOfLe(locktime, 4);
  }

  lemma {:induction false} ValueIsInjective(s: seq<byte>, t: seq<byte>)
    requires |s| == |t| && Value(s) == Value(t)
    ensures s == t
  {
    if s != [] {
      ValueIsInjective(s[1..], t[1..]);
      assert s == [s[0]] + s[1..] && t == [t[0]] + t[1..];
    }
  }

  lemma BodyFollows(ins: seq<TxIn>, outs: seq<TxOut>, locktime: int, scriptsigs: seq<seq<byte>>,
                    prevouts: Option<seq<TxOut>>)
    ensures TxBytes(ins, outs, locktime, scriptsigs, prevouts)
         == VERSION + (if prevouts.Some? then EF_MARKER else []) + Body(ins, outs, locktime, scriptsigs, prevouts)
  {
    hide Varint, InsBytes, OutsBytes, Le;
  }

  /** Only one plain transaction looks marked. */
  lemma PlainIsUnmarked(ins: seq<TxIn>, outs: seq<TxOut>, locktime: int, scriptsigs: seq<seq<byte>>)
    ensures var s := VERSION + Body(ins, outs, locktime, scriptsigs, None);
            && (Marked(s) <==> LooksMarked(ins, outs, locktime))
            && (LooksMarked(ins, outs, locktime) ==> |s| == 10)
  {
    hide InsBytes, OutsBytes, Le, Varint;
    var body := Body(ins, outs, locktime, scriptsigs, None);
    var s := VERSION + body;
    assert s[4..] == body;
    FirstOfCount(|ins|);
    FirstOfCount(|outs|);
    if ins != [] {
      assert s[4] == Varint(|ins|)[0];
    } else if outs != [] {
      NoInsNoOuts(ins, outs, scriptsigs);
      assert body == [0] + (Varint(|outs|) + (OutsBytes(outs, 0) + Le(locktime, 4)));
      assert s[5] == Varint(|outs|)[0];
    } else {
      NoInsNoOuts(ins, outs, scriptsigs);
      assert body == [0, 0] + Le(locktime, 4);
      assert s[4..10] == [0, 0] + Le(locktime, 4);
      LocktimeMark(locktime);
    }
  }

  lemma FirstOfCount(n: nat)
    ensures n == 0 <==> Varint(n)[0] == 0
    ensures n == 0 ==> Varint(n) == [0]
  {
  }

  lemma NoInsNoOuts(ins: seq<TxIn>, outs: seq<TxOut>, scriptsigs: seq<seq<byte>>)
    ensures ins == [] ==> InsBytes(ins, scriptsigs, None, 0) == []
    ensures outs == [] ==> OutsBytes(outs, 0) == []
  {
  }

  lemma LocktimeMark(locktime: int)
    ensures [0, 0] + Le(locktime, 4) == EF_MARKER <==> locktime % U32 == 0xef00_0000
  {
    hide Le, Value;
    Powers();
    ValueOfLe(locktime, 4);
    MarkValue();
    if locktime % U32 == 0xef00_0000 {
      ValueIsInjective(Le(locktime, 4), [0, 0, 0, 0xef]);
    } else {
      assert ([0, 0] + Le(locktime, 4))[2..] == Le(locktime, 4) && EF_MARKER[2..] == [0, 0, 0, 0xef];
    }
  }

  lemma MarkValue()
    ensures Value([0, 0, 0, 0xef]) == 0xef00_0000 && Value(VERSION) == 1
  {
    assert Value([0xef]) == 0xef;
    assert [0, 0, 0, 0xef][1..] == [0, 0, 0xef] && [0, 0, 0xef][1..] == [0, 0xef] && [0, 0xef][1..] == [0xef];
    assert [1, 0, 0, 0][1..] == [0, 0, 0] && [0, 0, 0][1..] == [0, 0] && [0, 0][1..] == [0] && [0][1..] == [];
    assert Value([0]) == 0 && Value([0, 0]) == 0 && Value([0, 0, 0]) == 0;
  }

  /**
   * A serialised transaction reads back whole, plain or extended: version 1,
   * every input with the txid it was given, every output, every script and every
   * previous output. The one exception is a plain transaction without inputs or
   * outputs whose locktime is the end of the extended mark.
   */
  lemma TxReadsBack(ins: seq<TxIn>, outs: seq<TxOut>, locktime: int, scriptsigs: seq<seq<byte>>,
                    prevouts: Option<seq<TxOut>>)
    requires Writable(ins, outs, scriptsigs, prevouts)
    ensures ReadTx(TxBytes(ins, outs, locktime, scriptsigs, prevouts))
         == if prevouts.None? && LooksMarked(ins, outs, locktime) then None
            else Some(Tx(1, prevouts.Some?, InsOf(ins, scriptsigs, prevouts), OutsOf(outs), locktime % U32))
  {
    var body := Body(ins, outs, locktime, scriptsigs, prevouts);
    BodyFollows(ins, outs, locktime, scriptsigs, prevouts);
    BodyIsRead(ins, outs, locktime, scriptsigs, prevouts, 1, body);
    hide Body, TxBytes, InsOf, OutsOf, Writable, LooksMarked, ReadBody, Value;
    MarkValue();
    if prevouts.Some? {
      MarkedIsRead(body);
    } else {
      PlainIsUnmarked(ins, outs, locktime, scriptsigs);
      assert VERSION + [] + body == VERSION + body;
      PlainIsRead(body);
    }
  }

  lemma MarkedIsRead(body: seq<byte>)
    ensures ReadTx(VERSION + EF_MARKER + body) == ReadBody(1, true, body)
  {
    hide ReadBody, Value;
    var s := VERSION + EF_MARKER + body;
    assert s[..4] == VERSION && s[4..10] == EF_MARKER && s[10..] == body;
    MarkValue();
  }

  lemma PlainIsRead(body: seq<byte>)
    ensures var s := VERSION + body;
            ReadTx(s) == if Marked(s) then ReadBody(1, true, s[10..]) else ReadBody(1, false, body)
    ensures ReadBody(1, true, []) == None
  {
    hide Value;
    var s := VERSION + body;
    assert s[..4] == VERSION && s[4..] == body;
    MarkValue();
  }

  // ── Text ───────────────────────────────────────────────────────────

  /** Hex in lower case is what its bytes print as, so a txid in that form reads back as itself. */
  lemma LowerHexIsStable(s: string)
    requires AllHex(s) && |s| % 2 == 0 && forall i :: 0 <= i < |s| ==> !('A' <= s[i] <= 'F')
    ensures ToHex(FromHex(s)) == s
  {
    hide ToHex, FromHex;
    HexUpToCase(s);
    forall i | 0 <= i < |s| ensures LowerChar(s[i]) == s[i] {
      assert IsHex(s[i]);
    }
    hide LowerChar, IsHex;
    assert Lower(s) == s;
  }
}
