/**
 * One node and any number of bridges over a lossy radio: batches and acks are
 * lost, copied and delivered in any order and to any bridge, each of which acks
 * on its own; the node reboots, bridges crash in the middle of a write and
 * restart. No reading is ever lost silently.
 */
module Protocol {
  import opened Prelude
  import opened Closure
  import opened Records
  import opened BatchCodec
  import opened Node
  import opened Plan
  import opened Rebuild
  import opened Confluence
  import EpochTable
  import Recovery

  datatype SentBatch = SentBatch(batch: DecodedBatch, sentAt: int)

  /** An ack in the air, and the bridge whose gateway sent it. */
  datatype SentAck = SentAck(from: int, through: int, hostUnixS: int, sentAt: int)

  /** What one bridge holds of this node's log, and its journal file. */
  datatype BridgeState = BridgeState(log: Option<LogState>, journal: seq<Line>)

  const UNOPENED := BridgeState(None, [])

  /** What each seq really was: the record written for it, or None for a write that power failed. */
  type History = map<int, Option<FlashRecord>>

  /**
   * The clock, the node with the firmware's table of boot starts beside its own
   * map, what really happened (each seq's record and the second it was taken,
   * each boot's start), the bridges, and the messages in the air.
   */
  datatype World = World(
    clock: int, node: Node, table: EpochTable.Table, history: History, taken: map<int, int>, boots: map<int, int>,
    bridges: map<int, BridgeState>, batches: multiset<SentBatch>, acks: multiset<SentAck>)

  /** Which memory of boot starts a batch's header is built from. */
  datatype Memory = Simulator | Firmware

  datatype Step =
    | Tick(seconds: nat)
    | TakeReading(centiC: Option<int>)
    | BurnReading
    | RebootNode
    | Send(memory: Memory)
    | DeliverBatch(bridge: int, m: SentBatch)
    | CopyBatch(m: SentBatch)
    | LoseBatch(m: SentBatch)
    | DeliverAck(a: SentAck)
    | CopyAck(a: SentAck)
    | LoseAck(a: SentAck)
    | CrashDuring(bridge: int, m: SentBatch, kept: nat, torn: bool)
    | RefuseBatch(bridge: int, m: SentBatch)
    | RestartBridge(bridge: int)

  function KeyOf(c: Config): LogKey {
    LogKey(c.mac, c.logId)
  }

  ghost predicate GoodConfig(c: Config) {
    GoodCapacity(c.capacity) && IsLogKey(KeyOf(c))
  }

  function Start(bootUnixS: int): World {
    World(bootUnixS, NewNode(bootUnixS), EpochTable.EMPTY, map[], map[], map[1 := bootUnixS], map[], multiset{},
        multiset{})
  }

  function BridgeAt(w: World, b: int): BridgeState {
    if b in w.bridges then w.bridges[b] else UNOPENED
  }

  /** What bridge b would write for this batch now. */
  function Writes(c: Config, w: World, b: int, m: SentBatch): seq<JournalRecord> {
    JournalOf(BridgeAt(w, b).log, KeyOf(c), m.batch, w.clock)
  }

  /** The header of the next batch, its boot's start taken from one memory or the other. */
  function HeaderNow(c: Config, w: World, memory: Memory): HeaderFields {
    var h := BatchHeaderNow(c, w.node, w.clock);
    match memory
    case Simulator => h
    case Firmware => h.(bootEpochS := EpochTable.EpochFor(w.table, h.bootId))
  }

  function SentNow(c: Config, w: World, memory: Memory): SentBatch {
    SentBatch(Meaning(HeaderNow(c, w, memory), BatchSamples(w.node)), w.clock)
  }

  ghost predicate Possible(c: Config, w: World, s: Step) {
    match s
    case Tick(_) => true
    case TakeReading(_) => w.node.nextSeq <= U32_MAX
    case BurnReading => w.node.nextSeq <= U32_MAX
    case RebootNode => true
    case Send(memory) => Pending(w.node) > 0 && EncodeResult(HeaderNow(c, w, memory), BatchSamples(w.node)).Ok?
    case DeliverBatch(_, m) => m in w.batches
    case CopyBatch(m) => m in w.batches
    case LoseBatch(m) => m in w.batches
    case DeliverAck(a) => a in w.acks
    case CopyAck(a) => a in w.acks
    case LoseAck(a) => a in w.acks
    case CrashDuring(b, m, kept, _) => m in w.batches && kept <= |Writes(c, w, b, m)|
    case RefuseBatch(b, m) => m in w.batches && Writes(c, w, b, m) != []
    case RestartBridge(b) => b in w.bridges
  }

  function Record(w: World, n: Node, rec: Option<FlashRecord>): World {
    var q := w.node.nextSeq;
    w.(node := n, history := w.history[q := rec], taken := w.taken[q := w.clock])
  }

  /** Bridge b opens its file again, with these lines at its end. */
  function Reopened(c: Config, w: World, b: int, more: seq<Line>): World {
    var journal := BridgeAt(w, b).journal + more;
    w.(bridges := w.bridges[b := BridgeState(Rebuilt(journal, KeyOf(c)), journal)])
  }

  /** The firmware's table after an ack: the first start it hears for a boot. */
  function TableAfter(w: World, hostUnixS: int): EpochTable.Table {
    var up := UptimeS(w.node, w.clock);
    if hostUnixS > up then EpochTable.Noted(w.table, EpochTable.Entry(w.node.bootId, hostUnixS - up)) else w.table
  }

  function NextWorld(c: Config, w: World, s: Step): World
    requires GoodCapacity(c.capacity)
    requires s.CrashDuring? ==> s.kept <= |Writes(c, w, s.bridge, s.m)|
  {
    match s
    case Tick(t) => w.(clock := w.clock + t)
    case TakeReading(centi) =>
      Record(w, Sample(c, w.node, w.clock, centi), Some(Reading(c, w.node, w.clock, centi)))
    case BurnReading => Record(w, Append(c.capacity, w.node), None)
    case RebootNode =>
      w.(node := Reboot(w.node, w.clock), boots := w.boots[w.node.bootId + 1 := w.clock])
    case Send(memory) => w.(batches := w.batches + multiset{SentNow(c, w, memory)})
    case DeliverBatch(b, m) =>
      var at := BridgeAt(w, b);
      var r := ResultOf(at.log, KeyOf(c), m.batch, w.clock);
      w.(bridges := w.bridges[b := BridgeState(Some(NextLog(at.log, m.batch)), at.journal + Lines(Writes(c, w, b, m)))],
         batches := w.batches - multiset{m},
         acks := w.acks + multiset{SentAck(b, r.ack.ackedThrough, r.ack.hostUnixS, w.clock)})
    case CopyBatch(m) => w.(batches := w.batches + multiset{m})
    case LoseBatch(m) => w.(batches := w.batches - multiset{m})
    case DeliverAck(a) =>
      w.(node := ApplyAck(w.node, a.through, a.hostUnixS, w.clock),
         table := TableAfter(w, a.hostUnixS),
         acks := w.acks - multiset{a})
    case CopyAck(a) => w.(acks := w.acks + multiset{a})
    case LoseAck(a) => w.(acks := w.acks - multiset{a})
    case CrashDuring(b, m, kept, torn) =>
      Reopened(c, w.(batches := w.batches - multiset{m}), b, Lines(Writes(c, w, b, m)[..kept]) + Recovery.Torn(torn))
    case RefuseBatch(_, m) => w.(batches := w.batches - multiset{m})
    case RestartBridge(b) => Reopened(c, w, b, [])
  }

  /** A run: worlds one possible step apart, from a new node and bridges that have heard nothing. */
  ghost predicate IsRun(c: Config, ws: seq<World>, ss: seq<Step>) {
    && GoodConfig(c)
    && |ws| == |ss| + 1
    && (exists at :: ws[0] == Start(at))
    && forall i :: 0 <= i < |ss| ==>
         Possible(c, ws[i], ss[i]) && ws[i + 1] == NextWorld(c, ws[i], ss[i])
  }

  // ── Accounted for ──────────────────────────────────────────────────

  /** A sample tells the truth about its seq: the node's own record, or the placeholder when that is unreadable. */
  ghost predicate Truthful(h: History, boot: int, seqNo: int, uptimeS: int, centiC: int, flags: int) {
    && seqNo in h
    && if h[seqNo].None? then
         uptimeS == 0 && centiC == TEMP_INVALID && flags == RECORD_LOST + SENSOR_ERROR
       else h[seqNo].value == FlashRecord(boot, uptimeS, centiC, flags)
  }

  /** The line holds the node's own record of q, or its placeholder when the node's is unreadable. */
  ghost predicate StoredAt(line: Line, h: History, q: int) {
    && line.Written? && line.rec.SampleLine?
    && var s := line.rec.sample;
       s.seqNo == q && Truthful(h, s.bootId, q, s.uptimeS, s.centiC, s.flags)
  }

  ghost predicate LossCovers(line: Line, q: int) {
    line.Written? && line.rec.LossLine? && q <= line.rec.loss.throughSeq
  }

  ghost predicate StartAbove(line: Line, q: int) {
    line.Written? && line.rec.StartLine? && q < line.rec.firstSeq
  }

  /** The bridge stored q. */
  ghost predicate Stored(w: World, b: int, q: int) {
    exists i :: 0 <= i < |BridgeAt(w, b).journal| && StoredAt(BridgeAt(w, b).journal[i], w.history, q)
  }

  /** A loss the bridge journaled covers q, and the ring really has wrapped over it. */
  ghost predicate ReportedLost(w: World, b: int, q: int) {
    q < w.node.oldestSeq && exists i :: 0 <= i < |BridgeAt(w, b).journal| && LossCovers(BridgeAt(w, b).journal[i], q)
  }

  /** q was overwritten, and lies before the bridge first heard of the log. */
  ghost predicate BeforeStart(w: World, b: int, q: int) {
    q < w.node.oldestSeq && exists i :: 0 <= i < |BridgeAt(w, b).journal| && StartAbove(BridgeAt(w, b).journal[i], q)
  }

  /** Some bridge can say what became of q. */
  ghost predicate Accounted(w: World, q: int) {
    exists b :: b in w.bridges && AccountedAt(w, b, q)
  }

  ghost predicate AccountedAt(w: World, b: int, q: int) {
    Stored(w, b, q) || ReportedLost(w, b, q) || BeforeStart(w, b, q)
  }

  /** The seqs that are accounted for or have left the ring. */
  ghost function Settled(w: World): iset<int> {
    iset q | Accounted(w, q) || q < w.node.oldestSeq
  }

  // ── What the invariant says ────────────────────────────────────────

  /** The ring holds exactly the readable records from oldestSeq up. */
  ghost predicate NodeInv(n: Node, h: History) {
    && 1 <= n.oldestSeq <= n.nextSeq <= U32_MAX + 1
    && 0 <= n.ackedThrough < n.nextSeq
    && (forall q :: q in h <==> 1 <= q < n.nextSeq)
    && (forall q :: q in n.flash <==> q in h && n.oldestSeq <= q && h[q].Some?)
    && (forall q :: q in n.flash ==> h[q] == Some(n.flash[q]))
    && (forall q :: q in h && h[q].Some? ==> !IsLost(h[q].value.flags))
  }

  /** Everything below seqNo is settled. */
  ghost predicate AllBelow(settled: iset<int>, seqNo: int) {
    forall q :: 1 <= q < seqNo ==> q in settled
  }

  /**
   * A batch in the air is honest about its samples, claims only losses that
   * happened, and starts no later than the first seq still to be settled.
   */
  ghost predicate BatchInv(b: DecodedBatch, oldestSeq: int, nextSeq: int, h: History, settled: iset<int>) {
    && Decoded(b)
    && 1 <= b.header.firstSeq <= nextSeq && AllBelow(settled, b.header.firstSeq)
    && b.header.lostThrough < oldestSeq
    && forall i :: 0 <= i < |b.samples| ==>
         Truthful(h, b.header.bootId, b.samples[i].seqNo, b.samples[i].uptimeS, b.samples[i].centiC, b.samples[i].flags)
  }

  ghost predicate RecInv(rec: JournalRecord, key: LogKey, oldestSeq: int, nextSeq: int, h: History,
      settled: iset<int>)
  {
    && rec.Key() == key
    && match rec
       case StartLine(_, firstSeq, _) => firstSeq <= nextSeq && AllBelow(settled, firstSeq)
       case LossLine(l) => l.throughSeq < oldestSeq
       case SampleLine(s) => Truthful(h, s.bootId, s.seqNo, s.uptimeS, s.centiC, s.flags)
  }

  /** What a world's history, ring and settled seqs are: all a record's truth depends on. */
  datatype Facts = Facts(key: LogKey, oldestSeq: int, nextSeq: int, history: History, settled: iset<int>)

  ghost function FactsOf(c: Config, w: World): Facts {
    Facts(KeyOf(c), w.node.oldestSeq, w.node.nextSeq, w.history, Settled(w))
  }

  ghost predicate BatchTrue(b: DecodedBatch, f: Facts) {
    BatchInv(b, f.oldestSeq, f.nextSeq, f.history, f.settled)
  }

  ghost predicate RecTrue(rec: JournalRecord, f: Facts) {
    RecInv(rec, f.key, f.oldestSeq, f.nextSeq, f.history, f.settled)
  }

  ghost predicate JournalInv(journal: seq<Line>, f: Facts) {
    forall i :: 0 <= i < |journal| && journal[i].Written? ==> RecTrue(journal[i].rec, f)
  }

  ghost predicate BridgeInv(at: BridgeState, f: Facts) {
    && Mirror(at.log, Fold(at.journal, f.key))
    && JournalInv(at.journal, f)
    && (at.log.Some? ==> at.log.value.through >= 0)
  }

  /** Bridge b holds its log at least this far. */
  ghost predicate Reaches(bridges: map<int, BridgeState>, b: int, through: int) {
    b in bridges && bridges[b].log.Some? && through <= bridges[b].log.value.through
  }

  ghost predicate SomeReaches(bridges: map<int, BridgeState>, through: int) {
    through == 0 || exists b :: Reaches(bridges, b, through)
  }

  ghost predicate Inv(c: Config, w: World) {
    && GoodConfig(c)
    && NodeInv(w.node, w.history)
    && (forall b :: b in w.bridges ==> BridgeInv(w.bridges[b], FactsOf(c, w)))
    && (forall m :: m in w.batches ==> BatchTrue(m.batch, FactsOf(c, w)))
    && SomeReaches(w.bridges, w.node.ackedThrough)
    && (forall a :: a in w.acks ==> a.through >= 0 && Reaches(w.bridges, a.from, a.through))
  }

  // ── Growing worlds ─────────────────────────────────────────────────

  ghost predicate Extends(h: History, g: History) {
    forall q :: q in h ==> q in g && g[q] == h[q]
  }

  ghost predicate FactsGrow(f: Facts, g: Facts) {
    && f.key == g.key && f.oldestSeq <= g.oldestSeq && f.nextSeq <= g.nextSeq
    && Extends(f.history, g.history) && f.settled <= g.settled
  }

  /** Every bridge is still there, its journal only longer and its log no further back. */
  ghost predicate BridgesGrow(bs: map<int, BridgeState>, cs: map<int, BridgeState>) {
    forall b :: b in bs ==>
      && b in cs && bs[b].journal <= cs[b].journal
      && (bs[b].log.Some? ==> cs[b].log.Some? && bs[b].log.value.through <= cs[b].log.value.through)
  }

  ghost predicate WorldGrows(w: World, t: World) {
    && w.node.oldestSeq <= t.node.oldestSeq && w.node.nextSeq <= t.node.nextSeq
    && Extends(w.history, t.history) && BridgesGrow(w.bridges, t.bridges)
  }

  lemma AccountedAtGrows(w: World, t: World, b: int, q: int)
    requires WorldGrows(w, t) && b in w.bridges && AccountedAt(w, b, q)
    ensures b in t.bridges && AccountedAt(t, b, q)
  {
    var xs, ys := BridgeAt(w, b).journal, BridgeAt(t, b).journal;
    assert forall i :: 0 <= i < |xs| ==> ys[i] == xs[i];
    if Stored(w, b, q) {
      var i :| 0 <= i < |xs| && StoredAt(xs[i], w.history, q);
      assert StoredAt(ys[i], t.history, q);
    } else if ReportedLost(w, b, q) {
      var i :| 0 <= i < |xs| && LossCovers(xs[i], q);
      assert LossCovers(ys[i], q);
    } else {
      var i :| 0 <= i < |xs| && StartAbove(xs[i], q);
      assert StartAbove(ys[i], q);
    }
  }

  /** What is settled stays settled. */
  lemma SettledGrows(c: Config, w: World, t: World)
    requires WorldGrows(w, t)
    ensures FactsGrow(FactsOf(c, w), FactsOf(c, t))
  {
    forall q | q in Settled(w) ensures q in Settled(t) {
      if Accounted(w, q) {
        var b :| b in w.bridges && AccountedAt(w, b, q);
        AccountedAtGrows(w, t, b, q);
      }
    }
  }

  lemma BatchStaysTrue(b: DecodedBatch, f: Facts, g: Facts)
    requires BatchTrue(b, f) && FactsGrow(f, g)
    ensures BatchTrue(b, g)
  {
  }

  lemma JournalStaysTrue(journal: seq<Line>, f: Facts, g: Facts)
    requires JournalInv(journal, f) && FactsGrow(f, g)
    ensures JournalInv(journal, g)
  {
    forall i | 0 <= i < |journal| && journal[i].Written? ensures RecTrue(journal[i].rec, g) {
      assert RecTrue(journal[i].rec, f);
    }
  }

  lemma StillReaches(bs: map<int, BridgeState>, cs: map<int, BridgeState>, b: int, through: int)
    requires BridgesGrow(bs, cs) && Reaches(bs, b, through)
    ensures Reaches(cs, b, through)
  {
  }

  lemma SomeStillReaches(bs: map<int, BridgeState>, cs: map<int, BridgeState>, through: int)
    requires BridgesGrow(bs, cs) && SomeReaches(bs, through)
    ensures SomeReaches(cs, through)
  {
    if through != 0 {
      var b :| Reaches(bs, b, through);
      StillReaches(bs, cs, b, through);
    }
  }

  lemma AtInv(c: Config, w: World, b: int)
    requires Inv(c, w)
    ensures BridgeInv(BridgeAt(w, b), FactsOf(c, w))
  {
    assert b !in w.bridges ==> Fold([], KeyOf(c)) == None;
  }

  // ── What a bridge's pointer covers ─────────────────────────────────

  /** Only a sample line makes a seq seen. */
  lemma {:induction false} SeenIsJournaled(lines: seq<Line>, key: LogKey, q: int)
    requires Fold(lines, key).Some? && q in Fold(lines, key).value.seen
    ensures exists i ::
              0 <= i < |lines| && lines[i].Written? && lines[i].rec.SampleLine?
              && lines[i].rec.sample.seqNo == q
  {
    var n := |lines| - 1;
    var before := Fold(lines[..n], key);
    if before.Some? && q in before.value.seen {
      SeenIsJournaled(lines[..n], key, q);
      var i :| 0 <= i < n && lines[..n][i].Written? && lines[..n][i].rec.SampleLine?
          && lines[..n][i].rec.sample.seqNo == q;
      assert lines[i] == lines[..n][i];
    } else {
      assert lines[n].Written? && lines[n].rec.SampleLine? && lines[n].rec.sample.seqNo == q;
    }
  }

  /** Only a loss line or a start line raises the base. */
  lemma {:induction false} BaseIsJournaled(lines: seq<Line>, key: LogKey, q: int)
    requires Fold(lines, key).Some? && 1 <= q
    ensures var a := Fold(lines, key).value;
            && (q <= a.lossMax ==> exists i :: 0 <= i < |lines| && LossCovers(lines[i], q))
            && (a.start.Some? && q <= a.start.value ==> exists i :: 0 <= i < |lines| && StartAbove(lines[i], q))
  {
    var n := |lines| - 1;
    var a, before := Fold(lines, key).value, Fold(lines[..n], key);
    if before.Some? {
      BaseIsJournaled(lines[..n], key, q);
      if q <= before.value.lossMax {
        var i :| 0 <= i < n && LossCovers(lines[..n][i], q);
        assert LossCovers(lines[i], q);
      }
      if before.value.start.Some? && q <= before.value.start.value {
        var i :| 0 <= i < n && StartAbove(lines[..n][i], q);
        assert StartAbove(lines[i], q);
      }
    }
    assert q <= a.lossMax && !(before.Some? && q <= before.value.lossMax) ==> LossCovers(lines[n], q);
    assert a.start.Some? && q <= a.start.value && !(before.Some? && before.value.start.Some?)
        ==> StartAbove(lines[n], q);
  }

  /** Whatever lies below a bridge's pointer, some bridge can account for. */
  lemma BelowThroughIsAccounted(c: Config, w: World, b: int, q: int)
    requires Inv(c, w) && Reaches(w.bridges, b, q) && q >= 1
    ensures Accounted(w, q)
  {
    var at, key := w.bridges[b], KeyOf(c);
    assert BridgeInv(at, FactsOf(c, w));
    var a := Fold(at.journal, key).value;
    if Max(StartOf(a), a.lossMax) < q {
      CloseStops(Max(StartOf(a), a.lossMax), a.seen);
      SeenIsStored(c, w, b, q);
    } else {
      BaseIsSettled(c, w, b, q);
    }
  }

  lemma SeenIsStored(c: Config, w: World, b: int, q: int)
    requires Inv(c, w) && b in w.bridges && Fold(w.bridges[b].journal, KeyOf(c)).Some?
    requires q in Fold(w.bridges[b].journal, KeyOf(c)).value.seen
    ensures Accounted(w, q)
  {
    var lines, f := w.bridges[b].journal, FactsOf(c, w);
    assert BridgeInv(w.bridges[b], f);
    SeenIsJournaled(lines, KeyOf(c), q);
    var i :| 0 <= i < |lines| && lines[i].Written? && lines[i].rec.SampleLine? && lines[i].rec.sample.seqNo == q;
    assert RecTrue(lines[i].rec, f);
    assert StoredAt(BridgeAt(w, b).journal[i], w.history, q);
    assert AccountedAt(w, b, q);
  }

  lemma BaseIsSettled(c: Config, w: World, b: int, q: int)
    requires Inv(c, w) && b in w.bridges && Fold(w.bridges[b].journal, KeyOf(c)).Some?
    requires var a := Fold(w.bridges[b].journal, KeyOf(c)).value;
             a.start.Some? && 1 <= q <= Max(a.start.value, a.lossMax)
    ensures Accounted(w, q)
  {
    var lines, f := w.bridges[b].journal, FactsOf(c, w);
    var a := Fold(lines, KeyOf(c)).value;
    assert BridgeInv(w.bridges[b], f);
    BaseIsJournaled(lines, KeyOf(c), q);
    if q <= a.lossMax {
      var i :| 0 <= i < |lines| && LossCovers(lines[i], q);
      assert RecTrue(lines[i].rec, f) && LossCovers(BridgeAt(w, b).journal[i], q);
      assert AccountedAt(w, b, q);
    } else {
      var i :| 0 <= i < |lines| && StartAbove(lines[i], q);
      assert RecTrue(lines[i].rec, f) && StartAbove(BridgeAt(w, b).journal[i], q);
      assert q in f.settled;
      assert q < w.node.oldestSeq ==> AccountedAt(w, b, q);
    }
  }

  // ── Steps of the node ──────────────────────────────────────────────

  lemma AppendKeepsNode(c: Config, n: Node, h: History)
    requires GoodConfig(c) && NodeInv(n, h) && n.nextSeq <= U32_MAX
    ensures var m := Append(c.capacity, n);
            && NodeInv(m, h[n.nextSeq := None]) && n.oldestSeq <= m.oldestSeq <= n.nextSeq
            && Extends(h, h[n.nextSeq := None])
  {
    var m := Append(c.capacity, n);
    assert m.oldestSeq <= n.nextSeq;
  }

  /** Writing the record of the seq just spent keeps the ring what history says. */
  lemma RecordKeepsNode(n: Node, h: History, q: int, rec: FlashRecord)
    requires NodeInv(n, h[q := None]) && q + 1 == n.nextSeq && n.oldestSeq <= q && !IsLost(rec.flags)
    ensures NodeInv(n.(flash := n.flash[q := rec]), h[q := Some(rec)])
  {
    var m, g := n.(flash := n.flash[q := rec]), h[q := Some(rec)];
    assert forall k :: k in g <==> k in h[q := None];
    assert forall k :: k in m.flash <==> k == q || k in n.flash;
  }

  lemma SampleKeepsNode(c: Config, n: Node, h: History, now: int, centi: Option<int>)
    requires GoodConfig(c) && NodeInv(n, h) && n.nextSeq <= U32_MAX
    ensures var m := Sample(c, n, now, centi);
            var g := h[n.nextSeq := Some(Reading(c, n, now, centi))];
            NodeInv(m, g) && n.oldestSeq <= m.oldestSeq && Extends(h, g)
  {
    AppendKeepsNode(c, n, h);
    RecordKeepsNode(Append(c.capacity, n), h, n.nextSeq, Reading(c, n, now, centi));
  }

  /** A step that only changes the node keeps the rest honest. */
  lemma NodeStepKeeps(c: Config, w: World, t: World)
    requires Inv(c, w) && NodeInv(t.node, t.history)
    requires w.node.oldestSeq <= t.node.oldestSeq && w.node.nextSeq <= t.node.nextSeq && Extends(w.history, t.history)
    requires t.bridges == w.bridges && t.batches == w.batches && t.acks <= w.acks
    requires SomeReaches(w.bridges, t.node.ackedThrough)
    ensures Inv(c, t)
  {
    var f, g := FactsOf(c, w), FactsOf(c, t);
    SettledGrows(c, w, t);
    hide Settled, FactsOf, NodeInv, AllBelow, BatchInv, RecInv;
    forall b | b in t.bridges ensures BridgeInv(t.bridges[b], g) {
      JournalStaysTrue(t.bridges[b].journal, f, g);
    }
    forall m | m in t.batches ensures BatchTrue(m.batch, g) {
      BatchStaysTrue(m.batch, f, g);
    }
    assert forall a :: a in t.acks ==> a in w.acks;
  }

  lemma AckKeeps(c: Config, w: World, a: SentAck)
    requires Inv(c, w) && a in w.acks
    ensures Inv(c, NextWorld(c, w, DeliverAck(a)))
  {
    var t := NextWorld(c, w, DeliverAck(a));
    assert Reaches(w.bridges, a.from, t.node.ackedThrough);
    NodeStepKeeps(c, w, t);
  }

  lemma NodeStepsKeep(c: Config, w: World, s: Step)
    requires Inv(c, w) && Possible(c, w, s)
    requires s.TakeReading? || s.BurnReading? || s.RebootNode?
    ensures Inv(c, NextWorld(c, w, s))
  {
    if s.TakeReading? {
      SampleKeepsNode(c, w.node, w.history, w.clock, s.centiC);
    } else if s.BurnReading? {
      AppendKeepsNode(c, w.node, w.history);
    }
    NodeStepKeeps(c, w, NextWorld(c, w, s));
  }

  // ── What the node sends ────────────────────────────────────────────

  lemma {:induction false} GatherIsTruthful(n: Node, h: History, boot: int, seqNo: int, room: nat, i: nat)
    requires NodeInv(n, h) && seqNo >= n.oldestSeq
    requires i < |Gather(n.flash, n.nextSeq, boot, seqNo, room)|
    ensures var s := Gather(n.flash, n.nextSeq, boot, seqNo, room)[i];
            seqNo + i < n.nextSeq && Truthful(h, boot, seqNo + i, s.uptimeS, s.centiC, s.flags)
    decreases room
  {
    if i > 0 {
      GatherIsTruthful(n, h, boot, seqNo + 1, room - 1, i - 1);
    }
  }

  /** Sample i of the next batch: seqs run on from the first pending one, and each is told truly. */
  lemma SentSampleIsTruthful(n: Node, h: History, header: HeaderFields, i: nat)
    requires NodeInv(n, h) && i < |BatchSamples(n)| && header.firstSeq == PendingFirst(n)
        && header.bootId == BatchBoot(n)
    ensures var s := Meaning(header, BatchSamples(n)).samples[i];
            && s.seqNo == PendingFirst(n) + i && IsU32(s.seqNo)
            && Truthful(h, header.bootId, s.seqNo, s.uptimeS, s.centiC, s.flags)
  {
    hide Gather, Truthful, NodeInv;
    GatherIsTruthful(n, h, BatchBoot(n), PendingFirst(n), BATCH_MAX_SAMPLES, i);
    PendingFitsTheWire(n, h);
    assert (header.firstSeq + i) % 0x1_0000_0000 == PendingFirst(n) + i;
  }

  lemma PendingFitsTheWire(n: Node, h: History)
    requires NodeInv(n, h)
    ensures 1 <= PendingFirst(n) && n.oldestSeq <= PendingFirst(n) && n.nextSeq <= U32_MAX + 1
  {
  }

  /** Below the first pending seq everything is acked by some bridge or has left the ring. */
  lemma BelowPendingIsSettled(c: Config, w: World)
    requires Inv(c, w)
    ensures AllBelow(Settled(w), PendingFirst(w.node))
  {
    forall q | 1 <= q < PendingFirst(w.node) ensures q in Settled(w) {
      if q >= w.node.oldestSeq {
        var b :| Reaches(w.bridges, b, w.node.ackedThrough);
        BelowThroughIsAccounted(c, w, b, q);
      }
    }
  }

  lemma HeaderIsHonest(c: Config, w: World, memory: Memory)
    requires NodeInv(w.node, w.history)
    ensures var h := HeaderNow(c, w, memory);
            && h.firstSeq == PendingFirst(w.node) && 1 <= h.firstSeq <= w.node.nextSeq && h.bootId == BatchBoot(w.node)
            && h.lostThrough < w.node.oldestSeq
  {
  }

  /** Every batch sent tells the truth. */
  lemma SentBatchIsHonest(c: Config, w: World, memory: Memory)
    requires Inv(c, w) && Possible(c, w, Send(memory))
    ensures BatchTrue(SentNow(c, w, memory).batch, FactsOf(c, w))
  {
    var h, b := HeaderNow(c, w, memory), SentNow(c, w, memory).batch;
    BelowPendingIsSettled(c, w);
    HeaderIsHonest(c, w, memory);
    MeaningIsDecoded(h, BatchSamples(w.node));
    forall i | 0 <= i < |b.samples|
      ensures Truthful(w.history, b.header.bootId, b.samples[i].seqNo, b.samples[i].uptimeS, b.samples[i].centiC,
          b.samples[i].flags)
    {
      SentSampleIsTruthful(w.node, w.history, h, i);
    }
  }

  /** What can be encoded means something decodable. */
  lemma MeaningIsDecoded(h: HeaderFields, samples: seq<SampleFields>)
    requires EncodeResult(h, samples).Ok?
    ensures Decoded(Meaning(h, samples))
  {
    hide Decode, BatchByte, Decoded;
    DecodeEncoded(Encoded(h, samples), h, samples);
  }

  lemma SendKeeps(c: Config, w: World, memory: Memory)
    requires Inv(c, w) && Possible(c, w, Send(memory))
    ensures Inv(c, NextWorld(c, w, Send(memory)))
  {
    SentBatchIsHonest(c, w, memory);
    var t, sent := NextWorld(c, w, Send(memory)), SentNow(c, w, memory);
    assert FactsOf(c, t) == FactsOf(c, w) by {
      SettledIsAsBefore(w, t);
    }
    hide Settled, SentNow, NodeInv, BridgeInv, BatchTrue;
    assert forall m :: m in t.batches ==> m in w.batches || m == sent;
  }

  /** Messages and clocks settle nothing. */
  lemma SettledIsAsBefore(w: World, t: World)
    requires t.node == w.node && t.history == w.history && t.bridges == w.bridges
    ensures Settled(t) == Settled(w)
  {
    forall b, q ensures AccountedAt(t, b, q) == AccountedAt(w, b, q) {
      assert BridgeAt(t, b) == BridgeAt(w, b);
    }
  }

  // ── What a bridge writes ───────────────────────────────────────────

  ghost predicate AllTrue(recs: seq<JournalRecord>, f: Facts) {
    forall i :: 0 <= i < |recs| ==> RecTrue(recs[i], f)
  }

  lemma NewRecordsAreTrue(seen: set<int>, b: DecodedBatch, now: int, f: Facts)
    requires BatchTrue(b, f)
    ensures AllTrue(SampleLines(RecordsOf(f.key, b.header, now, Fresh(b.samples, seen))), f)
  {
    var unseen := Fresh(b.samples, seen);
    FreshFacts(b.samples, seen);
    var recs := SampleLines(RecordsOf(f.key, b.header, now, unseen));
    forall i | 0 <= i < |recs| ensures RecTrue(recs[i], f) {
      assert unseen[i] in b.samples;
    }
  }

  lemma OpeningIsTrue(prev: Option<LogState>, b: DecodedBatch, now: int, f: Facts)
    requires BatchTrue(b, f)
    ensures AllTrue(StartLines(prev, f.key, b, now), f)
    ensures AllTrue(LossLines(LossOf(prev, f.key, b, now)), f)
  {
    hide AllBelow, Truthful, Decoded, Missing;
  }

  /** Everything a truthful batch makes a bridge write is true. */
  lemma WritesAreTrue(prev: Option<LogState>, b: DecodedBatch, now: int, f: Facts)
    requires BatchTrue(b, f)
    ensures AllTrue(JournalOf(prev, f.key, b, now), f)
  {
    hide RecTrue, BatchTrue, StartLines, LossLines, LossOf, RecordsOf, SampleLines, Fresh;
    OpeningIsTrue(prev, b, now, f);
    NewRecordsAreTrue(SeenOf(prev), b, now, f);
  }

  lemma LinesAreTrue(recs: seq<JournalRecord>, journal: seq<Line>, torn: bool, f: Facts)
    requires JournalInv(journal, f) && AllTrue(recs, f)
    ensures JournalInv(journal + (Lines(recs) + Recovery.Torn(torn)), f)
  {
    hide RecTrue;
    var all := journal + (Lines(recs) + Recovery.Torn(torn));
    forall i | 0 <= i < |all| && all[i].Written? ensures RecTrue(all[i].rec, f) {
      if i < |journal| {
        assert all[i] == journal[i];
      } else {
        assert all[i] == Written(recs[i - |journal|]);
      }
    }
  }

  lemma {:induction false} FoldHasNoNegativeLoss(lines: seq<Line>, key: LogKey)
    ensures Fold(lines, key).Some? ==> Fold(lines, key).value.lossMax >= 0
  {
    if lines != [] {
      FoldHasNoNegativeLoss(lines[..|lines| - 1], key);
    }
  }

  lemma RebuiltIsNotNegative(lines: seq<Line>, key: LogKey)
    ensures Rebuilt(lines, key).Some? ==> Rebuilt(lines, key).value.through >= 0
  {
    FoldHasNoNegativeLoss(lines, key);
  }

  // ── Steps of a bridge ──────────────────────────────────────────────

  /** What a bridge may become: a longer true journal, mirrored by a log no further back. */
  ghost predicate StepsOn(at: BridgeState, x: BridgeState, f: Facts) {
    && BridgeInv(x, f) && at.journal <= x.journal
    && (at.log.Some? ==> x.log.Some? && at.log.value.through <= x.log.value.through)
  }

  /** One bridge steps on, and perhaps acks; every promise made still holds. */
  lemma BridgeStepKeeps(c: Config, w: World, t: World, b: int, x: BridgeState)
    requires Inv(c, w) && StepsOn(BridgeAt(w, b), x, FactsOf(c, w))
    requires t.node == w.node && t.history == w.history && t.bridges == w.bridges[b := x]
    requires forall m :: m in t.batches ==> m in w.batches
    requires forall a :: a in t.acks ==> a in w.acks || (a.through >= 0 && Reaches(t.bridges, a.from, a.through))
    ensures Inv(c, t)
  {
    var f, g := FactsOf(c, w), FactsOf(c, t);
    SettledGrows(c, w, t);
    SomeStillReaches(w.bridges, t.bridges, w.node.ackedThrough);
    hide Settled, FactsOf, NodeInv, AllBelow, BatchInv, RecInv;
    forall k | k in t.bridges ensures BridgeInv(t.bridges[k], g) {
      JournalStaysTrue(t.bridges[k].journal, f, g);
    }
    forall m | m in t.batches ensures BatchTrue(m.batch, g) {
      BatchStaysTrue(m.batch, f, g);
    }
    forall a | a in t.acks ensures Reaches(t.bridges, a.from, a.through) {
      if a in w.acks {
        StillReaches(w.bridges, t.bridges, a.from, a.through);
      }
    }
  }

  /** What a bridge commits is what its journal, so written, rebuilds to. */
  lemma DeliveredMirrors(at: BridgeState, key: LogKey, b: DecodedBatch, now: int)
    requires Mirror(at.log, Fold(at.journal, key)) && IsLogKey(key) && Decoded(b)
    ensures Mirror(Some(NextLog(at.log, b)), Fold(at.journal + Lines(JournalOf(at.log, key, b, now)), key))
    ensures NextLog(at.log, b).through >= 0
  {
    Recovery.JournalRebuildsNext(Fold(at.journal, key), key, b, now);
    Recovery.JournalIsReadable(at.log, key, b, now);
    Recovery.FoldAppended(at.journal, JournalOf(at.log, key, b, now), key, key);
    RebuiltIsNotNegative(at.journal + Lines(JournalOf(at.log, key, b, now)), key);
  }

  lemma DeliveredStepsOn(at: BridgeState, f: Facts, b: DecodedBatch, now: int)
    requires BridgeInv(at, f) && BatchTrue(b, f) && IsLogKey(f.key)
    ensures StepsOn(at, BridgeState(Some(NextLog(at.log, b)), at.journal + Lines(JournalOf(at.log, f.key, b, now))), f)
  {
    var recs := JournalOf(at.log, f.key, b, now);
    assert Decoded(b);
    hide BatchTrue, RecTrue, NextLog, JournalOf, Fold, Mirror, Decoded;
    DeliveredMirrors(at, f.key, b, now);
    NextMovesForward(at.log, b);
    WritesAreTrue(at.log, b, now, f);
    LinesAreTrue(recs, at.journal, false, f);
    assert Lines(recs) + [] == Lines(recs);
  }

  lemma DeliverBatchKeeps(c: Config, w: World, b: int, m: SentBatch)
    requires Inv(c, w) && m in w.batches
    ensures Inv(c, NextWorld(c, w, DeliverBatch(b, m)))
  {
    hide Inv, GoodCapacity, NextLog, JournalOf, Sample, Append, Reading, BatchNow, ApplyAck, FactsOf, BridgeInv,
        StepsOn;
    hide Reopened, Record, Reboot, LossOf, NewRecords, SentNow, TableAfter;
    InvIsGood(c, w, m);
    AtInv(c, w, b);
    DeliveredStepsOn(BridgeAt(w, b), FactsOf(c, w), m.batch, w.clock);
    StepsOnMeans(BridgeAt(w, b), NextWorld(c, w, DeliverBatch(b, m)).bridges[b], FactsOf(c, w));
    BridgeStepKeeps(c, w, NextWorld(c, w, DeliverBatch(b, m)), b, NextWorld(c, w, DeliverBatch(b, m)).bridges[b]);
  }

  lemma StepsOnMeans(at: BridgeState, x: BridgeState, f: Facts)
    requires StepsOn(at, x, f)
    ensures x.log.Some? ==> x.log.value.through >= 0
  {
  }

  lemma InvIsGood(c: Config, w: World, m: SentBatch)
    requires Inv(c, w)
    ensures GoodCapacity(c.capacity) && IsLogKey(KeyOf(c)) && FactsOf(c, w).key == KeyOf(c)
    ensures m in w.batches ==> BatchTrue(m.batch, FactsOf(c, w)) && Decoded(m.batch)
  {
  }

  /** A prefix of what the bridge would write leaves its log no further back. */
  lemma PrefixIsAhead(log: Option<LogState>, acc: Option<Acc>, key: LogKey, b: DecodedBatch, now: int, kept: nat)
    requires Mirror(log, acc) && kept <= |JournalOf(log, key, b, now)|
    ensures var r := Recovery.TakeAll(acc, JournalOf(log, key, b, now)[..kept]);
            && (r.Some? ==> r.value.start.Some?)
            && (log.Some? ==> r.Some? && log.value.through <= Finish(r.value).through)
  {
    Recovery.PrefixIsBetween(acc, key, b, now, kept);
  }

  /** Reopening on some of a batch's records steps on when it leaves the log no further back. */
  lemma ReopenStepsOn(at: BridgeState, f: Facts, recs: seq<JournalRecord>, torn: bool)
    requires BridgeInv(at, f) && Recovery.Journaled(recs, f.key) && AllTrue(recs, f)
    requires var acc := Recovery.TakeAll(Fold(at.journal, f.key), recs);
             && (acc.Some? ==> acc.value.start.Some?)
             && (at.log.Some? ==> acc.Some? && at.log.value.through <= Finish(acc.value).through)
    ensures var journal := at.journal + (Lines(recs) + Recovery.Torn(torn));
            StepsOn(at, BridgeState(Rebuilt(journal, f.key), journal), f)
  {
    hide RecTrue;
    Recovery.ReopenFold(at.journal, f.key, recs, torn, f.key);
    LinesAreTrue(recs, at.journal, torn, f);
    RebuiltIsNotNegative(at.journal + (Lines(recs) + Recovery.Torn(torn)), f.key);
  }

  lemma CrashStepsOn(at: BridgeState, f: Facts, b: DecodedBatch, now: int, kept: nat, torn: bool)
    requires BridgeInv(at, f) && BatchTrue(b, f) && IsLogKey(f.key) && kept <= |JournalOf(at.log, f.key, b, now)|
    ensures var journal := at.journal + (Lines(JournalOf(at.log, f.key, b, now)[..kept]) + Recovery.Torn(torn));
            StepsOn(at, BridgeState(Rebuilt(journal, f.key), journal), f)
  {
    assert Decoded(b);
    hide BatchTrue, RecTrue, JournalOf, Fold, Decoded, Finish;
    WritesAreTrue(at.log, b, now, f);
    Recovery.JournalIsReadable(at.log, f.key, b, now);
    PrefixIsAhead(at.log, Fold(at.journal, f.key), f.key, b, now, kept);
    ReopenStepsOn(at, f, JournalOf(at.log, f.key, b, now)[..kept], torn);
  }

  lemma CrashKeeps(c: Config, w: World, b: int, m: SentBatch, kept: nat, torn: bool)
    requires Inv(c, w) && Possible(c, w, CrashDuring(b, m, kept, torn))
    ensures Inv(c, NextWorld(c, w, CrashDuring(b, m, kept, torn)))
  {
    hide Inv, GoodCapacity, JournalOf, Sample, Append, Reading, BatchNow, ApplyAck, FactsOf, BridgeInv, StepsOn,
        Rebuilt;
    hide Record, Reboot, LossOf, NewRecords, SentNow, TableAfter, NextLog, ResultOf;
    InvIsGood(c, w, m);
    AtInv(c, w, b);
    CrashStepsOn(BridgeAt(w, b), FactsOf(c, w), m.batch, w.clock, kept, torn);
    var t := NextWorld(c, w, CrashDuring(b, m, kept, torn));
    BridgeStepKeeps(c, w, t, b, t.bridges[b]);
  }

  lemma RestartKeeps(c: Config, w: World, b: int)
    requires Inv(c, w) && b in w.bridges
    ensures Inv(c, NextWorld(c, w, RestartBridge(b)))
  {
    var at := w.bridges[b];
    assert BridgeInv(at, FactsOf(c, w));
    assert at.journal + [] == at.journal;
    assert BridgeState(Rebuilt(at.journal, KeyOf(c)), at.journal) == at;
    assert w.bridges[b := at] == w.bridges;
    assert NextWorld(c, w, RestartBridge(b)) == w;
  }

  // ── Steps of the air ───────────────────────────────────────────────

  /** Messages copied or lost, and time passing. */
  lemma AirKeeps(c: Config, w: World, t: World)
    requires Inv(c, w) && t.node == w.node && t.history == w.history && t.bridges == w.bridges
    requires (forall m :: m in t.batches ==> m in w.batches) && (forall a :: a in t.acks ==> a in w.acks)
    ensures Inv(c, t)
  {
    SettledIsAsBefore(w, t);
    assert FactsOf(c, t) == FactsOf(c, w);
    hide FactsOf, BridgeInv, BatchTrue, NodeInv;
  }

  lemma AirStepsKeep(c: Config, w: World, s: Step)
    requires Inv(c, w) && Possible(c, w, s)
    requires s.CopyBatch? || s.CopyAck? || s.LoseBatch? || s.LoseAck? || s.RefuseBatch? || s.Tick?
    ensures Inv(c, NextWorld(c, w, s))
  {
    hide Inv, GoodCapacity, Sample, Append, Reading, BatchNow, ResultOf, NextLog, ApplyAck, Reopened, Record, Writes;
    hide EncodeResult, Pending, Reboot, JournalOf, FactsOf, SentNow, TableAfter;
    GoodByInv(c, w);
    AirKeeps(c, w, NextWorld(c, w, s));
  }

  lemma GoodByInv(c: Config, w: World)
    requires Inv(c, w)
    ensures GoodCapacity(c.capacity)
  {
  }

  lemma StepKeepsInv(c: Config, w: World, s: Step)
    requires Inv(c, w) && Possible(c, w, s)
    ensures Inv(c, NextWorld(c, w, s))
  {
    hide Inv, NextWorld;
    match s
    case TakeReading(_) => NodeStepsKeep(c, w, s);
    case BurnReading => NodeStepsKeep(c, w, s);
    case RebootNode => NodeStepsKeep(c, w, s);
    case DeliverAck(a) => AckKeeps(c, w, a);
    case Send(memory) => SendKeeps(c, w, memory);
    case DeliverBatch(b, m) => DeliverBatchKeeps(c, w, b, m);
    case CrashDuring(b, m, kept, torn) => CrashKeeps(c, w, b, m, kept, torn);
    case CopyBatch(_) => AirStepsKeep(c, w, s);
    case CopyAck(_) => AirStepsKeep(c, w, s);
    case LoseBatch(_) => AirStepsKeep(c, w, s);
    case RefuseBatch(_, _) => AirStepsKeep(c, w, s);
    case LoseAck(_) => AirStepsKeep(c, w, s);
    case Tick(_) => AirStepsKeep(c, w, s);
    case RestartBridge(b) => RestartKeeps(c, w, b);
  }

  lemma StartIsGood(c: Config, at: int)
    requires GoodConfig(c)
    ensures Inv(c, Start(at))
  {
  }

  lemma {:induction false} RunKeepsInv(c: Config, ws: seq<World>, ss: seq<Step>, i: nat)
    requires IsRun(c, ws, ss) && i < |ws|
    ensures Inv(c, ws[i])
  {
    hide Inv, NextWorld, Possible;
    if i > 0 {
      RunKeepsInv(c, ws, ss, i - 1);
      StepKeepsInv(c, ws[i - 1], ss[i - 1]);
    } else {
      var at :| ws[0] == Start(at);
      StartIsGood(c, at);
    }
  }

  // ── Every seq is accounted for ─────────────────────────────────────

  /** The node still has q in its ring, and will send it again until it is acked. */
  ghost predicate StillPending(w: World, q: int) {
    && PendingFirst(w.node) <= q < w.node.nextSeq
    && q in w.history
    && (w.history[q].Some? ==> q in w.node.flash && w.node.flash[q] == w.history[q].value)
  }

  /** The node's next batch will say that q was overwritten. */
  ghost predicate WillReport(w: World, q: int) {
    q < w.node.oldestSeq && q <= LostThrough(w.node)
  }

  /**
   * No silent loss: at every moment of every run, for every seq ever assigned,
   * some bridge has stored the node's own record of it, or journaled a loss that
   * covers it and really overwrote it, or first heard of the log after it was
   * overwritten; or the node still has it pending, or will report it lost next.
   */
  lemma NothingIsLostSilently(c: Config, ws: seq<World>, ss: seq<Step>, i: nat, q: int)
    requires IsRun(c, ws, ss) && i < |ws| && 1 <= q < ws[i].node.nextSeq
    ensures var w := ws[i];
            (exists b :: b in w.bridges && (Stored(w, b, q) || ReportedLost(w, b, q) || BeforeStart(w, b, q)))
            || StillPending(w, q) || WillReport(w, q)
  {
    var w := ws[i];
    RunKeepsInv(c, ws, ss, i);
    if q <= w.node.ackedThrough {
      var b :| Reaches(w.bridges, b, w.node.ackedThrough);
      BelowThroughIsAccounted(c, w, b, q);
      var k :| k in w.bridges && AccountedAt(w, k, q);
    }
  }

  /** Nothing any bridge ever acked, to anyone, is missing without a record of why. */
  lemma AckedIsAccounted(c: Config, ws: seq<World>, ss: seq<Step>, i: nat, a: SentAck, q: int)
    requires IsRun(c, ws, ss) && i < |ws| && a in ws[i].acks && 1 <= q <= a.through
    ensures Accounted(ws[i], q)
  {
    RunKeepsInv(c, ws, ss, i);
    BelowThroughIsAccounted(c, ws[i], a.from, q);
  }

  /** Every loss any bridge ever journals is true: those seqs have left the ring. */
  lemma LossesAreTrue(c: Config, ws: seq<World>, ss: seq<Step>, i: nat, b: int, k: nat)
    requires IsRun(c, ws, ss) && i < |ws| && b in ws[i].bridges && k < |ws[i].bridges[b].journal|
    requires ws[i].bridges[b].journal[k].Written? && ws[i].bridges[b].journal[k].rec.LossLine?
    ensures ws[i].bridges[b].journal[k].rec.loss.throughSeq < ws[i].node.oldestSeq
  {
    RunKeepsInv(c, ws, ss, i);
    assert BridgeInv(ws[i].bridges[b], FactsOf(c, ws[i]));
    assert RecTrue(ws[i].bridges[b].journal[k].rec, FactsOf(c, ws[i]));
  }
}
