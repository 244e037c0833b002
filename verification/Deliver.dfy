/** sim.ts's deliver loop over the real wire, and why it always settles. */
module Deliver {
  import opened Prelude
  import opened Closure
  import opened Hex
  import opened Records
  import opened BatchCodec
  import opened Plan
  import opened Rebuild
  import opened Store
  import opened Node
  import opened SerialLines
  import opened HostBridge
  import opened Gateway
  import Cell
  import FlashRing
  import Protocol

  // ── The batch a node builds ────────────────────────────────────────

  /** A node whose every field fits its place in a batch. */
  ghost predicate NodeFits(c: Config, n: Node, nowUnixS: int) {
    && 1 <= n.oldestSeq <= n.nextSeq <= U32_MAX + 1 && 0 <= n.ackedThrough < n.nextSeq
    && IsU32(n.bootId) && IsU32(UptimeS(n, nowUnixS)) && nowUnixS >= 0
    && IsU32(c.intervalS) && IsI16(c.bandMin) && IsI16(c.bandMax) && IsU32(c.logId)
    && (forall q :: q in n.epochs ==> IsU32(n.epochs[q]))
    && (forall q :: q in n.flash ==> RecordFits(n.flash[q]))
  }

  predicate RecordFits(r: FlashRecord) {
    IsU32(r.bootId) && SampleFits(SampleFields(r.uptimeS, r.centiC, r.flags))
  }

  lemma {:induction false} GatherFits(flash: map<int, FlashRecord>, nextSeq: int, boot: int, seqNo: int, room: nat)
    requires forall q :: q in flash ==> RecordFits(flash[q])
    ensures var g := Gather(flash, nextSeq, boot, seqNo, room);
            && |g| <= room && |g| <= Max(nextSeq - seqNo, 0)
            && forall i :: 0 <= i < |g| ==> SampleFits(g[i])
    decreases room
  {
    if !(seqNo >= nextSeq || room == 0 || SampleFor(flash, boot, seqNo).None?) {
      GatherFits(flash, nextSeq, boot, seqNo + 1, room - 1);
    }
  }

  lemma PendingFitsABatch(n: Node)
    requires Pending(n) > 0 && forall q :: q in n.flash ==> RecordFits(n.flash[q])
    ensures var g := BatchSamples(n);
            && 1 <= |g| <= BATCH_MAX_SAMPLES && PendingFirst(n) + |g| <= n.nextSeq
            && forall i :: 0 <= i < |g| ==> SampleFits(g[i])
  {
    GatherFits(n.flash, n.nextSeq, BatchBoot(n), PendingFirst(n), BATCH_MAX_SAMPLES);
  }

  lemma PendingHeaderFits(c: Config, n: Node, nowUnixS: int)
    requires NodeFits(c, n, nowUnixS) && Pending(n) > 0
    ensures HeaderFits(BatchHeaderNow(c, n, nowUnixS))
  {
  }

  /** A pending batch can be encoded, and is the run of seqs from the first pending one on. */
  lemma BatchIsARun(c: Config, n: Node, nowUnixS: int)
    requires NodeFits(c, n, nowUnixS) && Pending(n) > 0
    ensures EncodeResult(BatchHeaderNow(c, n, nowUnixS), BatchSamples(n)).Ok?
    ensures var f, k := PendingFirst(n), |BatchSamples(n)|;
            k >= 1 && f + k <= n.nextSeq && SeqNos(BatchNow(c, n, nowUnixS).samples) == Range(f, f + k - 1)
  {
    PendingFitsABatch(n);
    PendingHeaderFits(c, n, nowUnixS);
    RunOfSeqs(BatchHeaderNow(c, n, nowUnixS), BatchSamples(n));
  }

  lemma SeqOfMeaning(h: HeaderFields, samples: seq<SampleFields>, i: nat)
    requires i < |samples| && 0 <= h.firstSeq && h.firstSeq + |samples| <= U32_MAX + 1
    ensures Meaning(h, samples).samples[i].seqNo == h.firstSeq + i
  {
    assert (h.firstSeq + i) % 0x1_0000_0000 == h.firstSeq + i;
  }

  lemma RunOfSeqs(h: HeaderFields, samples: seq<SampleFields>)
    requires 0 <= h.firstSeq && h.firstSeq + |samples| <= U32_MAX + 1
    ensures SeqNos(Meaning(h, samples).samples) == Range(h.firstSeq, h.firstSeq + |samples| - 1)
  {
    var ss := Meaning(h, samples).samples;
    forall i | 0 <= i < |ss| ensures ss[i].seqNo == h.firstSeq + i {
      SeqOfMeaning(h, samples, i);
    }
    assert |ss| == |samples|;
    hide Meaning;
    forall q | q in Range(h.firstSeq, h.firstSeq + |samples| - 1) ensures q in SeqNos(ss) {
      assert ss[q - h.firstSeq] in ss && ss[q - h.firstSeq].seqNo == q;
    }
  }

  // ── One exchange ───────────────────────────────────────────────────

  /** The bridge's log of this node holds only seqs the node has used. */
  ghost predicate Honest(log: Option<LogState>, nextSeq: int) {
    log.Some? ==> 0 <= log.value.through < nextSeq && forall q :: q in log.value.seen ==> q < nextSeq
  }

  /** A node, and one bridge's log of it, that delivery can start from. */
  ghost predicate ReadyState(c: Config, n: Node, log: Option<LogState>, nowUnixS: int) {
    && NodeFits(c, n, nowUnixS) && IsCanonMac(c.mac)
    && Honest(log, n.nextSeq) && (log.Some? ==> LogFits(log.value))
  }

  /** The node believes more is acked than the bridge holds. */
  predicate NodeAhead(n: Node, log: Option<LogState>) {
    log.Some? && log.value.through < n.ackedThrough
  }

  /** Sends still needed at most, with this many acks yet to be dropped. */
  function Budget(n: Node, log: Option<LogState>, drop: nat): int {
    drop + if NodeAhead(n, log) then 1 + n.nextSeq - n.oldestSeq else Pending(n)
  }

  lemma RunIsClosedOver(base: int, held: set<int>, f: int, k: int)
    requires base >= f - 1 && k >= 1 && Range(f, f + k - 1) <= held
    ensures Close(base, held) >= f + k - 1
  {
    CloseStops(base, held);
    assert Close(base, held) < f + k - 1 ==> Close(base, held) + 1 in Range(f, f + k - 1);
  }

  lemma ClosureStaysBelow(base: int, held: set<int>, bound: int)
    requires base < bound && forall q :: q in held ==> q < bound
    ensures base <= Close(base, held) < bound
  {
    CloseStops(base, held);
    assert base < Close(base, held) ==> Close(base, held) in held;
  }

  /** A batch moves the log on honestly; unless the node was ahead, right past the batch. */
  lemma BatchMovesLog(n: Node, log: Option<LogState>, b: DecodedBatch, k: int)
    requires 1 <= n.oldestSeq && 0 <= n.ackedThrough && Honest(log, n.nextSeq) && Pending(n) > 0
    requires b.header.firstSeq == PendingFirst(n) && b.header.lostThrough == LostThrough(n)
    requires k >= 1 && PendingFirst(n) + k <= n.nextSeq
        && SeqNos(b.samples) == Range(PendingFirst(n), PendingFirst(n) + k - 1)
    ensures Honest(Some(NextLog(log, b)), n.nextSeq)
    ensures log.Some? ==> log.value.through <= NextLog(log, b).through
    ensures !NodeAhead(n, log) ==> NextLog(log, b).through >= PendingFirst(n) + k - 1
  {
    var base, held := Max(ThroughBefore(log, b.header), b.header.lostThrough), NextLog(log, b).seen;
    ClosureStaysBelow(base, held, n.nextSeq);
    if !NodeAhead(n, log) {
      RunIsClosedOver(base, held, PendingFirst(n), k);
    }
  }

  /** An exchange whose ack is lost: the bridge has moved on, the node has not. */
  lemma LostAckSpends(n: Node, log: Option<LogState>, next: LogState, drop: nat)
    requires drop > 0 && 0 <= n.ackedThrough && n.oldestSeq <= n.nextSeq
    requires log.Some? ==> log.value.through <= next.through
    requires log.None? ==> PendingFirst(n) - 1 <= next.through
    ensures Budget(n, Some(next), drop - 1) < Budget(n, log, drop)
  {
  }

  /** An exchange whose ack is applied: node and bridge agree, and something is settled. */
  lemma AppliedAckSpends(n: Node, m: Node, log: Option<LogState>, next: LogState)
    requires Pending(n) > 0 && 0 <= n.ackedThrough && next.through < n.nextSeq
    requires m.ackedThrough == next.through && m.nextSeq == n.nextSeq && m.oldestSeq == n.oldestSeq
    requires !NodeAhead(n, log) ==> next.through >= PendingFirst(n)
    ensures Budget(m, Some(next), 0) < Budget(n, log, 0)
  {
  }

  // ── The loop ───────────────────────────────────────────────────────

  /** Where an exchange may leave the log: honest, no further back, and past the batch unless the node was ahead. */
  ghost predicate MovesOn(n: Node, log: Option<LogState>, next: LogState) {
    && Honest(Some(next), n.nextSeq)
    && (log.Some? ==> log.value.through <= next.through)
    && (!NodeAhead(n, log) ==> next.through >= PendingFirst(n))
  }

  lemma FitsOrdered(c: Config, n: Node, nowUnixS: int)
    requires NodeFits(c, n, nowUnixS)
    ensures 1 <= n.oldestSeq && 0 <= n.ackedThrough
  {
  }

  lemma ExchangeMovesOn(c: Config, n: Node, log: Option<LogState>, nowUnixS: int)
    requires NodeFits(c, n, nowUnixS) && Pending(n) > 0 && Honest(log, n.nextSeq)
    ensures MovesOn(n, log, NextLog(log, BatchNow(c, n, nowUnixS)))
  {
    hide NextLog, Honest, PendingFirst, BatchSamples, NodeFits, RecordFits, LostThrough, Pending, SeqNos, Range,
        EncodeResult, HeaderFits;
    FitsOrdered(c, n, nowUnixS);
    BatchIsARun(c, n, nowUnixS);
    BatchMovesLog(n, log, BatchNow(c, n, nowUnixS), |BatchSamples(n)|);
  }

  lemma PendingClock(c: Config, n: Node, nowUnixS: int)
    requires NodeFits(c, n, nowUnixS) && Payload(c, n, nowUnixS).Some?
    ensures nowUnixS >= 0 && Pending(n) > 0
  {
  }

  /** One whole exchange over the wire, by what it does to the log and the node. */
  lemma WireMovesOn(sha: Cell.Sha, c: Config, n: Node, logs: map<LogKey, LogState>, journal: seq<Line>, nowUnixS: int,
      p: seq<byte>)
    returns (line: string, ak: string, next: LogState)
    requires Cell.TypeBatch(sha) != Cell.TypeAck(sha) && IsCanonMac(c.mac) && LogsFit(logs)
    requires NodeFits(c, n, nowUnixS) && Payload(c, n, nowUnixS) == Some(Ok(p))
    requires Honest(Look(logs, LogKey(c.mac, c.logId)), n.nextSeq)
    ensures CarriedLine(sha, c.mac, p, UptimeS(n, nowUnixS)) == Some(line)
    ensures var o := Handled(sha, logs, journal, TrimRight(line), nowUnixS as real, false);
            o.reply == Ak(ak) && o.logs == logs[LogKey(c.mac, c.logId) := next]
    ensures ToNode(sha, c.mac, n, ak, nowUnixS) == Some(ApplyAck(n, next.through, Min(nowUnixS, U32_MAX), nowUnixS))
    ensures MovesOn(n, Look(logs, LogKey(c.mac, c.logId)), next)
  {
    PendingClock(c, n, nowUnixS);
    hide *;
    WireIsLossless(sha, c, n, logs, journal, nowUnixS, p);
    next := NextLog(Look(logs, LogKey(c.mac, c.logId)), BatchNow(c, n, nowUnixS));
    line := CarriedLine(sha, c.mac, p, UptimeS(n, nowUnixS)).value;
    ak := Handled(sha, logs, journal, TrimRight(line), nowUnixS as real, false).reply.line;
    ExchangeMovesOn(c, n, Look(logs, LogKey(c.mac, c.logId)), nowUnixS);
  }

  lemma AckKeepsFit(c: Config, n: Node, through: int, nowUnixS: int)
    requires NodeFits(c, n, nowUnixS) && 0 <= through < n.nextSeq
    ensures var m := ApplyAck(n, through, Min(nowUnixS, U32_MAX), nowUnixS);
            NodeFits(c, m, nowUnixS) && m.ackedThrough == through && m.nextSeq == n.nextSeq
                && m.oldestSeq == n.oldestSeq
            && m.flash == n.flash
  {
  }

  /** What an exchange leaves: an honest log, a node that fits, and less to do. */
  lemma ExchangeSpends(c: Config, n: Node, log: Option<LogState>, next: LogState, nowUnixS: int, drop: nat)
    requires NodeFits(c, n, nowUnixS) && Pending(n) > 0 && Honest(log, n.nextSeq) && MovesOn(n, log, next)
    ensures Honest(Some(next), n.nextSeq)
    ensures drop > 0 ==> Budget(n, Some(next), drop - 1) < Budget(n, log, drop)
    ensures var m := ApplyAck(n, next.through, Min(nowUnixS, U32_MAX), nowUnixS);
            && NodeFits(c, m, nowUnixS) && m.ackedThrough == next.through
            && m.nextSeq == n.nextSeq && m.oldestSeq == n.oldestSeq && m.flash == n.flash
            && Budget(m, Some(next), 0) < Budget(n, log, 0)
  {
    AckKeepsFit(c, n, next.through, nowUnixS);
    if drop > 0 {
      LostAckSpends(n, log, next, drop);
    }
    AppliedAckSpends(n, ApplyAck(n, next.through, Min(nowUnixS, U32_MAX), nowUnixS), log, next);
  }

  /** More rounds than any honest delivery needs. */
  const GUARD := 10_000

  class SimWorld {
    var nowUnixS: int
    const node: SimNode
    var sends: nat
    var acksLost: nat

    constructor (startUnixS: int, n: SimNode)
      ensures nowUnixS == startUnixS && node == n && sends == 0 && acksLost == 0
    {
      nowUnixS, node, sends, acksLost := startUnixS, n, 0, 0;
    }

    /** An ack from elsewhere: the node's pointer moves, and this bridge's log does not. */
    method ForeignAck(seqNo: int)
      requires node.Valid()
      modifies node
      ensures node.Valid() && node.Value() == ApplyAck(old(node.Value()), seqNo, nowUnixS, nowUnixS)
    {
      node.HandleAck(seqNo, nowUnixS, nowUnixS);
    }

    /** One AK line to the node: its pointer moves exactly as ApplyAck says, or the gateway throws. */
    method GatewayToNode(sha: Cell.Sha, akLine: string) returns (ok: bool)
      requires node.Valid()
      modifies node
      ensures node.Valid()
      ensures ToNode(sha, node.config.mac, old(node.Value()), akLine, nowUnixS)
          == if ok then Some(node.Value()) else None
      ensures !ok ==> node.Value() == old(node.Value())
    {
      var ak, gateway := ParseAk(akLine), MacToBytes(GATEWAY_MAC);
      if ak.None? || gateway.None? {
        return false;
      }
      var got := AckOf(sha, ak.value, gateway.value);
      if got.None? {
        return false;
      }
      if got.value.targetMac == node.config.mac {
        node.HandleAck(got.value.ackedThrough, got.value.hostUnixS, nowUnixS);
      }
      return true;
    }

    ghost function Key(): LogKey {
      LogKey(node.config.mac, node.config.logId)
    }

    /** A world delivery can start from, and a bridge whose pointers all fit an ack. */
    ghost predicate Ready(bridge: TempLogBridge)
      reads this, node, bridge.store
    {
      && node.Valid() && ReadyState(node.config, node.Value(), Look(bridge.store.logs, Key()), nowUnixS)
      && Cell.TypeBatch(bridge.sha) != Cell.TypeAck(bridge.sha)
      && bridge.store.Fits()
    }

    /** What is left to do, as the loop's measure. */
    ghost function Left(bridge: TempLogBridge, drop: nat): int
      reads this, node, bridge.store
    {
      Budget(node.Value(), Look(bridge.store.logs, Key()), drop)
    }

    /** This AK line, brought to the node, acks what `next` holds. */
    ghost predicate Answers(sha: Cell.Sha, ak: string, next: LogState)
      reads this, node
    {
      ToNode(sha, node.config.mac, node.Value(), ak, nowUnixS)
      == Some(ApplyAck(node.Value(), next.through, Min(nowUnixS, U32_MAX), nowUnixS))
    }

    /**
     * One batch out over the wire, and the AK line that comes back; None when the
     * bridge's journal refused the batch, which then changed nothing.
     */
    method SendBatch(bridge: TempLogBridge, payload: seq<byte>, appendFails: bool)
      returns (ak: Option<string>, ghost next: LogState)
      requires Ready(bridge) && Payload(node.config, node.Value(), nowUnixS) == Some(Ok(payload))
      modifies this`sends, bridge.store
      ensures sends == old(sends) + 1 && bridge.store.Fits()
      ensures !appendFails ==> ak.Some?
      ensures ak.None? ==> bridge.store.logs == old(bridge.store.logs)
      ensures ak.Some? ==> bridge.store.logs == old(bridge.store.logs)[Key() := next]
      ensures ak.Some? ==> Answers(bridge.sha, ak.value, next)
      ensures MovesOn(node.Value(), Look(old(bridge.store.logs), Key()), next)
    {
      hide Handled, ToNode, CarriedLine, TrimRight, ApplyAck, MovesOn, NodeFits, Honest, Payload, IsCanonMac, LogsFit,
          LogFits;
      hide Cell.TypeAck, Cell.TypeBatch, Delivers, Decoded;
      ghost var c, n, logs, journal := node.config, node.Value(), bridge.store.logs, bridge.store.journal;
      ghost var wire, answer;
      wire, answer, next := WireMovesOn(bridge.sha, c, n, logs, journal, nowUnixS, payload);
      var line := CarriedLine(bridge.sha, node.config.mac, payload, nowUnixS - node.bootUnixS);
      if line.None? {
        return None, next;
      }
      StoredOrRefused(bridge.sha, logs, journal, TrimRight(line.value), nowUnixS as real, appendFails);
      sends := sends + 1;
      var reply := bridge.HandleLine(TrimRight(line.value), nowUnixS as real, appendFails);
      ak := if reply.Ak? then Some(reply.line) else None;
    }

    /** One batch out and its ack back, or lost on the radio. */
    method Exchange(bridge: TempLogBridge, payload: seq<byte>, lost: bool, appendFails: bool)
      returns (ok: bool, ghost next: LogState)
      requires Ready(bridge) && Payload(node.config, node.Value(), nowUnixS) == Some(Ok(payload))
      modifies this`sends, this`acksLost, node, bridge.store
      ensures sends == old(sends) + 1 && acksLost == old(acksLost) + if ok && lost then 1 else 0
      ensures node.Valid() && bridge.store.Fits()
      ensures !appendFails ==> ok
      ensures !ok ==> bridge.store.logs == old(bridge.store.logs) && node.Value() == old(node.Value())
      ensures ok ==> bridge.store.logs == old(bridge.store.logs)[Key() := next]
      ensures MovesOn(old(node.Value()), Look(old(bridge.store.logs), Key()), next)
      ensures ok ==> node.Value() == if lost then old(node.Value())
                                     else ApplyAck(old(node.Value()), next.through, Min(nowUnixS, U32_MAX), nowUnixS)
    {
      hide ToNode, ApplyAck, MovesOn, Payload, ReadyState, LogsFit;
      var ak;
      ak, next := SendBatch(bridge, payload, appendFails);
      if ak.None? {
        return false, next;
      }
      if lost {
        acksLost := acksLost + 1;
        return true, next;
      }
      ok := GatewayToNode(bridge.sha, ak.value);
    }

    /** Node and bridge agree on a seq, and there is something to agree on. */
    ghost predicate Agreed(bridge: TempLogBridge)
      reads this, node, bridge.store
    {
      && Look(bridge.store.logs, Key()).Some? && bridge.store.logs[Key()].through == node.ackedThrough
      && node.oldestSeq < node.nextSeq
    }

    /** The readings a delivery may not touch. */
    ghost predicate SameReadings(n: Node)
      reads node
    {
      node.nextSeq == n.nextSeq && node.oldestSeq == n.oldestSeq && node.flash == n.flash
    }

    /** One round of the loop. */
    method Round(bridge: TempLogBridge, payload: seq<byte>, drop: nat, appendFails: bool) returns (ok: bool, left: nat)
      requires Ready(bridge) && Payload(node.config, node.Value(), nowUnixS) == Some(Ok(payload))
      modifies this`sends, this`acksLost, node, bridge.store
      ensures Ready(bridge) && SameReadings(old(node.Value()))
      ensures !appendFails ==> ok
      ensures sends == old(sends) + 1 && acksLost == old(acksLost) + if ok && drop > 0 then 1 else 0
      ensures ok ==> left == Max(drop - 1, 0) && Left(bridge, left) < old(Left(bridge, drop))
      ensures ok && drop == 0 ==> Agreed(bridge)
    {
      PendingClock(node.config, node.Value(), nowUnixS);
      hide ApplyAck, MovesOn, NodeFits, Honest, Payload, IsCanonMac, Budget, LogFits;
      ghost var n, log := node.Value(), Look(bridge.store.logs, Key());
      ghost var next;
      ok, next := Exchange(bridge, payload, drop > 0, appendFails);
      left := if drop > 0 then drop - 1 else 0;
      ExchangeSpends(node.config, n, log, next, nowUnixS, drop);
      KeptFits(bridge.store.logs, Key());
    }

    /**
     * Repeat rounds, losing the ack in the first dropAcks of them, with round k's append
     * refused if fails(k). From a ready world, even one where another gateway's ack
     * moved the node's pointer, this settles within its budget of sends unless an
     * append is refused; and once an ack got through, node and bridge end at the
     * newest reading. A refused append stops it in a world still ready to start.
     */
    method Deliver(bridge: TempLogBridge, dropAcks: nat, fails: nat -> bool) returns (settled: bool)
      requires Ready(bridge)
      modifies this`sends, this`acksLost, node, bridge.store
      ensures Ready(bridge) && SameReadings(old(node.Value()))
      ensures (forall k :: 0 <= k < old(Left(bridge, dropAcks)) ==> !fails(k)) && old(Left(bridge, dropAcks)) < GUARD
          ==> settled
      ensures sends <= old(sends) + old(Left(bridge, dropAcks))
      ensures settled ==> acksLost == old(acksLost) + Min(sends - old(sends), dropAcks)
      ensures settled ==> Pending(node.Value()) == 0
      ensures settled && sends > old(sends) + dropAcks ==>
                && Look(bridge.store.logs, Key()).Some?
                && bridge.store.logs[Key()].through == node.ackedThrough == node.nextSeq - 1
    {
      var drop, guard := dropAcks, 0;
      while guard < GUARD
        invariant 0 <= guard <= GUARD && Ready(bridge) && SameReadings(old(node.Value()))
        invariant sends == old(sends) + guard && Left(bridge, drop) + guard <= old(Left(bridge, dropAcks))
        invariant drop == Max(dropAcks - guard, 0) && acksLost == old(acksLost) + Min(guard, dropAcks)
        invariant guard > dropAcks ==> Agreed(bridge)
      {
        LeftIsNat(node.config, node.Value(), Look(bridge.store.logs, Key()), nowUnixS, drop);
        var payload := node.BuildBatch(nowUnixS);
        if payload.None? {
          NothingPending(node.config, node.Value(), nowUnixS);
          return true;
        }
        PendingIsEncodable(node.config, node.Value(), Look(bridge.store.logs, Key()), nowUnixS, drop);
        if payload.value.Err? {
          return false;
        }
        var ok;
        ok, drop := Round(bridge, payload.value.value, drop, fails(guard));
        if !ok {
          return false;
        }
        guard := guard + 1;
      }
      LeftIsNat(node.config, node.Value(), Look(bridge.store.logs, Key()), nowUnixS, drop);
      return false;
    }
  }

  lemma StoreOrRefuse(logs: map<LogKey, LogState>, journal: seq<Line>, mac: string, b: DecodedBatch, nowUnixS: real)
    ensures var o := Stored(logs, journal, mac, b, nowUnixS, true);
            o == Stored(logs, journal, mac, b, nowUnixS, false) || (o.reply.Silence? && o.logs == logs)
    ensures var o := Stored(logs, journal, mac, b, nowUnixS, false);
            o.reply.Silence? ==> o.logs == logs
  {
    hide FormatAk, JournalOf, NextLog, ResultOf, MacToBytes, MacToString;
  }

  /** A refused append changes nothing; otherwise the line is handled as if nothing could fail. */
  lemma StoredOrRefused(sha: Cell.Sha, logs: map<LogKey, LogState>, journal: seq<Line>, line: string, nowUnixS: real,
      appendFails: bool)
    ensures var o := Handled(sha, logs, journal, line, nowUnixS, appendFails);
            && (!o.reply.Silence? ==> o == Handled(sha, logs, journal, line, nowUnixS, false))
            && (o.reply.Silence? ==> o.logs == logs)
            && (!appendFails ==> o == Handled(sha, logs, journal, line, nowUnixS, false))
  {
    hide Accepted, Stored;
    var a := Accepted(sha, line);
    if a.Some? {
      StoreOrRefuse(logs, journal, a.value.0, a.value.1, nowUnixS);
    }
  }

  lemma KeptFits(logs: map<LogKey, LogState>, key: LogKey)
    requires LogsFit(logs)
    ensures Look(logs, key).Some? ==> LogFits(Look(logs, key).value)
  {
  }

  lemma LeftIsNat(c: Config, n: Node, log: Option<LogState>, nowUnixS: int, drop: nat)
    requires NodeFits(c, n, nowUnixS)
    ensures Budget(n, log, drop) >= 0
  {
  }

  lemma NothingPending(c: Config, n: Node, nowUnixS: int)
    requires Payload(c, n, nowUnixS).None?
    ensures Pending(n) == 0
  {
  }

  lemma PendingIsEncodable(c: Config, n: Node, log: Option<LogState>, nowUnixS: int, drop: nat)
    requires NodeFits(c, n, nowUnixS) && Payload(c, n, nowUnixS).Some?
    ensures Payload(c, n, nowUnixS).value.Ok? && Budget(n, log, drop) >= 1
  {
    BatchIsARun(c, n, nowUnixS);
  }

  // ── Every reachable world is ready ─────────────────────────────────

  /** A node's band, interval and log id fit a batch header. */
  ghost predicate ConfigFits(c: Config) {
    IsU32(c.intervalS) && IsI16(c.bandMin) && IsI16(c.bandMax)
  }

  /** Readings are 16-bit, and neither boots nor seconds outgrow 32 bits. */
  ghost predicate StepFits(w: Protocol.World, s: Protocol.Step) {
    match s
    case TakeReading(Some(centi)) => IsI16(centi)
    case RebootNode => w.node.bootId < U32_MAX
    case Tick(seconds) => w.clock + seconds <= U32_MAX
    case _ => true
  }

  /** The window never exceeds the ring, and is never short by a whole sector once it has wrapped. */
  ghost predicate WindowInv(capacity: int, n: Node) {
    && 1 <= n.oldestSeq <= n.nextSeq <= n.oldestSeq + capacity
    && (n.oldestSeq - 1) % RECORDS_PER_SECTOR == 0
    && (n.oldestSeq > 1 ==> n.nextSeq - n.oldestSeq >= capacity - 255)
  }

  ghost predicate MemoryFits(n: Node, clock: int) {
    && IsU32(n.bootId) && IsU32(clock) && 0 <= n.bootUnixS <= clock
    && (forall q :: q in n.epochs ==> IsU32(n.epochs[q]))
    && (forall q :: q in n.flash ==> RecordFits(n.flash[q]))
  }

  ghost predicate FitInv(c: Config, w: Protocol.World) {
    && MemoryFits(w.node, w.clock) && WindowInv(c.capacity, w.node)
    && forall a :: a in w.acks ==> a.hostUnixS <= U32_MAX
  }

  lemma WindowStep(c: Config, n: Node)
    requires GoodCapacity(c.capacity) && WindowInv(c.capacity, n)
    ensures WindowInv(c.capacity, Append(c.capacity, n))
  {
    var starts := FlashRing.SectorStart(n.nextSeq, c.capacity);
    FlashRing.SectorStartsAreAligned(n.nextSeq, c.capacity);
    FlashRing.WindowArithmetic(n.nextSeq, n.oldestSeq, c.capacity, starts, OldestAfter(c.capacity, n));
  }

  lemma ReadingFits(c: Config, w: Protocol.World, s: Protocol.Step)
    requires GoodCapacity(c.capacity) && FitInv(c, w) && StepFits(w, s) && (s.TakeReading? || s.BurnReading?)
    ensures FitInv(c, Protocol.NextWorld(c, w, s))
  {
    var t := Protocol.NextWorld(c, w, s);
    WindowStep(c, w.node);
    hide GoodCapacity, OldestAfter;
    assert s.TakeReading? ==> RecordFits(Reading(c, w.node, w.clock, s.centiC));
    assert forall q ::
        q in t.node.flash ==> q == w.node.nextSeq || (q in w.node.flash && t.node.flash[q] == w.node.flash[q]);
  }

  lemma AckFitsNode(c: Config, w: Protocol.World, a: Protocol.SentAck)
    requires GoodCapacity(c.capacity) && FitInv(c, w) && a in w.acks
    ensures FitInv(c, Protocol.NextWorld(c, w, Protocol.DeliverAck(a)))
  {
    hide GoodCapacity, Protocol.TableAfter, RecordFits, WindowInv;
    WindowSeesNoAck(c.capacity, w.node, ApplyAck(w.node, a.through, a.hostUnixS, w.clock));
  }

  lemma WindowSeesNoAck(capacity: int, n: Node, m: Node)
    requires m.oldestSeq == n.oldestSeq && m.nextSeq == n.nextSeq
    ensures WindowInv(capacity, n) <==> WindowInv(capacity, m)
  {
  }

  lemma OtherStepsFit(c: Config, w: Protocol.World, s: Protocol.Step)
    requires GoodCapacity(c.capacity) && FitInv(c, w) && Protocol.Possible(c, w, s) && StepFits(w, s)
    requires !s.TakeReading? && !s.BurnReading? && !s.DeliverAck?
    ensures FitInv(c, Protocol.NextWorld(c, w, s))
  {
    hide GoodCapacity, NextLog, JournalOf, Protocol.SentNow, RecordFits, Rebuilt, WindowInv, ResultOf;
    hide Sample, Append, Reading, ApplyAck, Protocol.Writes, Protocol.TableAfter, Protocol.Record, Protocol.Reopened;
    var t := Protocol.NextWorld(c, w, s);
    if s.RebootNode? {
      WindowSeesNoAck(c.capacity, w.node, t.node);
    } else {
      NodeStays(c, w, s);
    }
  }

  /** Away from the node, the clock is bounded and every new ack's host time fits. */
  lemma NodeStays(c: Config, w: Protocol.World, s: Protocol.Step)
    requires GoodCapacity(c.capacity) && Protocol.Possible(c, w, s) && StepFits(w, s)
    requires !s.TakeReading? && !s.BurnReading? && !s.DeliverAck? && !s.RebootNode?
    ensures var t := Protocol.NextWorld(c, w, s);
            && t.node == w.node && w.clock <= t.clock <= Max(w.clock, U32_MAX)
            && forall a :: a in t.acks ==> a in w.acks || a.hostUnixS <= U32_MAX
  {
    hide GoodCapacity, NextLog, JournalOf, Protocol.SentNow, RecordFits, Rebuilt, WindowInv;
  }

  lemma StepKeepsFit(c: Config, w: Protocol.World, s: Protocol.Step)
    requires Protocol.Inv(c, w) && FitInv(c, w) && Protocol.Possible(c, w, s) && StepFits(w, s)
    ensures Protocol.GoodConfig(c) && FitInv(c, Protocol.NextWorld(c, w, s))
  {
    hide FitInv, StepFits, Protocol.NextWorld;
    if s.TakeReading? || s.BurnReading? {
      ReadingFits(c, w, s);
    } else if s.DeliverAck? {
      AckFitsNode(c, w, s.a);
    } else {
      OtherStepsFit(c, w, s);
    }
  }

  lemma StartFits(c: Config, at: int)
    requires GoodCapacity(c.capacity) && IsU32(at)
    ensures FitInv(c, Protocol.Start(at))
  {
  }

  lemma {:induction false} RunKeepsFit(c: Config, ws: seq<Protocol.World>, ss: seq<Protocol.Step>, i: nat)
    requires Protocol.IsRun(c, ws, ss) && i < |ws| && IsU32(ws[0].clock)
    requires forall k :: 0 <= k < i ==> StepFits(ws[k], ss[k])
    ensures FitInv(c, ws[i])
  {
    hide FitInv, StepFits, Protocol.NextWorld, Protocol.Possible, Protocol.Inv;
    if i > 0 {
      RunKeepsFit(c, ws, ss, i - 1);
      Protocol.RunKeepsInv(c, ws, ss, i - 1);
      StepKeepsFit(c, ws[i - 1], ss[i - 1]);
    } else {
      var at :| ws[0] == Protocol.Start(at);
      StartFits(c, at);
    }
  }

  lemma SeenIsBelow(at: Protocol.BridgeState, f: Protocol.Facts, a: Acc)
    requires Protocol.BridgeInv(at, f) && Fold(at.journal, f.key) == Some(a)
    requires forall q :: q in f.history ==> q < f.nextSeq
    ensures forall q :: q in a.seen ==> q < f.nextSeq
  {
    forall q | q in a.seen ensures q < f.nextSeq {
      Protocol.SeenIsJournaled(at.journal, f.key, q);
      var i :| 0 <= i < |at.journal| && at.journal[i].Written? && at.journal[i].rec.SampleLine?
          && at.journal[i].rec.sample.seqNo == q;
      assert Protocol.RecTrue(at.journal[i].rec, f);
    }
  }

  lemma BaseIsBelow(at: Protocol.BridgeState, f: Protocol.Facts, a: Acc)
    requires Protocol.BridgeInv(at, f) && Fold(at.journal, f.key) == Some(a) && 1 <= f.oldestSeq <= f.nextSeq
    ensures a.start.Some? && a.start.value < f.nextSeq && a.lossMax < f.nextSeq
  {
    if a.lossMax >= 1 {
      Protocol.BaseIsJournaled(at.journal, f.key, a.lossMax);
      var i :| 0 <= i < |at.journal| && Protocol.LossCovers(at.journal[i], a.lossMax);
      assert Protocol.RecTrue(at.journal[i].rec, f);
    }
    if a.start.value >= 1 {
      Protocol.BaseIsJournaled(at.journal, f.key, a.start.value);
      var i :| 0 <= i < |at.journal| && Protocol.StartAbove(at.journal[i], a.start.value);
      assert Protocol.RecTrue(at.journal[i].rec, f);
    }
  }

  /** A bridge's log never runs ahead of its node, and fits an ack. */
  lemma LogIsHonest(at: Protocol.BridgeState, f: Protocol.Facts)
    requires Protocol.BridgeInv(at, f) && 1 <= f.oldestSeq <= f.nextSeq
    requires forall q :: q in f.history ==> q < f.nextSeq
    ensures Honest(at.log, f.nextSeq) && (at.log.Some? ==> LogFits(at.log.value))
  {
    if at.log.Some? {
      var a := Fold(at.journal, f.key).value;
      SeenIsBelow(at, f, a);
      BaseIsBelow(at, f, a);
      ClosureStaysBelow(Max(StartOf(a), a.lossMax), a.seen, f.nextSeq);
      FoldFits(at.journal, f.key);
      ClosureFits(Max(StartOf(a), a.lossMax), a.seen);
    }
  }

  lemma HistoryIsBelow(c: Config, w: Protocol.World)
    requires Protocol.Inv(c, w)
    ensures var f := Protocol.FactsOf(c, w);
            1 <= f.oldestSeq <= f.nextSeq && f.nextSeq == w.node.nextSeq && forall q :: q in f.history ==> q < f.nextSeq
    ensures 0 <= w.node.ackedThrough < w.node.nextSeq <= U32_MAX + 1 && IsLogKey(Protocol.KeyOf(c))
  {
  }

  lemma FitsTogether(c: Config, w: Protocol.World)
    requires FitInv(c, w) && ConfigFits(c) && IsU32(c.logId)
    requires 0 <= w.node.ackedThrough < w.node.nextSeq <= U32_MAX + 1
    ensures NodeFits(c, w.node, w.clock)
  {
  }

  /**
   * Every world a run can reach, whatever was lost, copied, cut short or acked by
   * other bridges on the way, is one each bridge's delivery settles from, within
   * the acks to drop, one, and the capacity in sends.
   */
  lemma ReachableIsReady(c: Config, ws: seq<Protocol.World>, ss: seq<Protocol.Step>, i: nat, b: int, drop: nat)
    requires Protocol.IsRun(c, ws, ss) && i < |ws| && ConfigFits(c) && IsU32(ws[0].clock)
    requires forall k :: 0 <= k < i ==> StepFits(ws[k], ss[k])
    ensures var w := ws[i];
            && ReadyState(c, w.node, Protocol.BridgeAt(w, b).log, w.clock)
            && Budget(w.node, Protocol.BridgeAt(w, b).log, drop) <= drop + 1 + c.capacity
  {
    var w := ws[i];
    hide Protocol.Inv, Protocol.FactsOf, Protocol.BridgeInv, FitInv, StepFits, Honest, LogFits, NodeFits;
    Protocol.RunKeepsInv(c, ws, ss, i);
    RunKeepsFit(c, ws, ss, i);
    HistoryIsBelow(c, w);
    Protocol.AtInv(c, w, b);
    LogIsHonest(Protocol.BridgeAt(w, b), Protocol.FactsOf(c, w));
    FitsTogether(c, w);
    WindowOf(c, w);
    BudgetIsSmall(w.node, Protocol.BridgeAt(w, b).log, drop, c.capacity);
  }

  lemma WindowOf(c: Config, w: Protocol.World)
    requires FitInv(c, w)
    ensures 1 <= w.node.oldestSeq <= w.node.nextSeq && w.node.nextSeq - w.node.oldestSeq <= c.capacity
        && c.capacity >= 0
  {
  }

  /** A full ring and a few lost acks. */
  lemma BudgetIsSmall(n: Node, log: Option<LogState>, drop: nat, capacity: nat)
    requires 1 <= n.oldestSeq <= n.nextSeq && n.nextSeq - n.oldestSeq <= capacity && 0 <= n.ackedThrough
    ensures Budget(n, log, drop) <= drop + 1 + capacity
  {
  }

  /** Without that it can fail at once: a first reading is sent if and only if it is a 16-bit value. */
  lemma ReadingMustFit(c: Config, at: int, centi: int)
    requires Protocol.GoodConfig(c) && ConfigFits(c) && IsU32(at)
    ensures var w := Protocol.NextWorld(c, Protocol.Start(at), Protocol.TakeReading(Some(centi)));
            && Payload(c, w.node, w.clock).Some?
            && (Payload(c, w.node, w.clock).value.Ok? <==> IsI16(centi))
  {
    var n := Protocol.NextWorld(c, Protocol.Start(at), Protocol.TakeReading(Some(centi))).node;
    var s := SampleFields(0, centi, FlagsOf(c, Some(centi)));
    assert n.flash == map[1 := FlashRecord(1, 0, centi, FlagsOf(c, Some(centi)))];
    assert PendingFirst(n) == 1 && n.nextSeq == 2;
    assert BatchSamples(n) == [s] + Gather(n.flash, 2, 1, 2, BATCH_MAX_SAMPLES - 1) == [s];
    assert SampleFits(s) <==> IsI16(centi);
    assert BatchSamples(n)[0] == s;
    assert HeaderFits(BatchHeaderNow(c, n, at));
  }
}
