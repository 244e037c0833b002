/** How far a sample's placed time can be from its true time, when messages are at most D seconds late. */
module Placement {
  import opened Prelude
  import opened Records
  import opened Node
  import opened Plan
  import opened Protocol
  import EpochTable
  import Recovery

  type Times = map<int, int>

  /** How far the clock has run past the 32 bits an ack can carry. */
  function Over(clock: int): int {
    Max(clock - U32_MAX, 0)
  }

  /** Every boot's start is known, the current one's included, and lies in the past. */
  ghost predicate BootsInv(n: Node, boots: Times, clock: int) {
    && n.bootId in boots && boots[n.bootId] == n.bootUnixS
    && forall b :: b in boots ==> b <= n.bootId && boots[b] <= clock
  }

  /** A record's uptime is what the clock showed, counted from its boot. */
  ghost predicate TakenInv(h: History, taken: Times, boots: Times) {
    && taken.Keys == h.Keys
    && forall q :: q in h && h[q].Some? ==>
         h[q].value.bootId in boots && taken[q] == boots[h[q].value.bootId] + h[q].value.uptimeS
  }

  /** A boot's start as a late ack tells it: never too late, and at most this early. */
  ghost predicate EpochNear(boot: int, epoch: int, boots: Times, early: int) {
    boot in boots && boots[boot] - early <= epoch <= boots[boot]
  }

  /** Every start in the simulator's memory is near. */
  ghost predicate EpochsInv(epochs: Times, boots: Times, early: int) {
    forall b :: b in epochs ==> EpochNear(b, epochs[b], boots, early)
  }

  /** Every start in the firmware's table is near. */
  ghost predicate TableInv(table: seq<EpochTable.Entry>, boots: Times, early: int) {
    forall i :: 0 <= i < |table| && table[i].epochS != 0 ==> EpochNear(table[i].bootId, table[i].epochS, boots, early)
  }

  ghost predicate HeaderTimed(h: BatchHeader, sentAt: int, boots: Times, early: int) {
    && h.bootNow in boots && h.uptimeNowS == sentAt - boots[h.bootNow]
    && (h.bootEpochS != 0 ==> EpochNear(h.bootId, h.bootEpochS, boots, early))
  }

  /** A receipt anchor is never early and at most D late; an epoch anchor never late and at most `early` early. */
  ghost predicate PlacedWithin(s: SampleRecord, taken: Times, D: int, early: int) {
    s.tUnix.Some? ==>
      && s.seqNo in taken
      && match s.anchor
         case Receipt => taken[s.seqNo] <= s.tUnix.value <= taken[s.seqNo] + D
         case Epoch => taken[s.seqNo] - early <= s.tUnix.value <= taken[s.seqNo]
         case Unplaced => false
  }

  ghost predicate LinePlaced(line: Line, taken: Times, D: int, early: int) {
    line.Written? && line.rec.SampleLine? ==> PlacedWithin(line.rec.sample, taken, D, early)
  }

  ghost predicate JournalPlaced(journal: seq<Line>, taken: Times, D: int, early: int) {
    forall i :: 0 <= i < |journal| ==> LinePlaced(journal[i], taken, D, early)
  }

  ghost predicate AckTimed(a: SentAck, clock: int) {
    a.hostUnixS == Min(a.sentAt, U32_MAX) && a.sentAt <= clock
  }

  ghost predicate SentTimed(m: SentBatch, boots: Times, clock: int, early: int) {
    m.sentAt <= clock && HeaderTimed(m.batch.header, m.sentAt, boots, early)
  }

  /** What memories, messages and journals may say of the times, within D and `early`. */
  ghost predicate TimedWithin(w: World, D: int, early: int) {
    && BootsInv(w.node, w.boots, w.clock)
    && TakenInv(w.history, w.taken, w.boots)
    && EpochsInv(w.node.epochs, w.boots, early) && TableInv(w.table, w.boots, early)
    && (forall b :: b in w.bridges ==> JournalPlaced(w.bridges[b].journal, w.taken, D, early))
    && (forall m :: m in w.batches ==> SentTimed(m, w.boots, w.clock, early))
    && (forall a :: a in w.acks ==> AckTimed(a, w.clock))
  }

  ghost predicate TimedInv(w: World, D: int) {
    TimedWithin(w, D, D + Over(w.clock))
  }

  /** No message is acted on more than D seconds after it was sent. */
  ghost predicate Prompt(w: World, s: Step, D: int) {
    match s
    case DeliverBatch(_, m) => w.clock - m.sentAt <= D
    case CrashDuring(_, m, _, _) => w.clock - m.sentAt <= D
    case DeliverAck(a) => w.clock - a.sentAt <= D
    case _ => true
  }

  // ── Knowing more changes nothing known ─────────────────────────────

  ghost predicate Keeps(a: Times, b: Times) {
    forall k :: k in a ==> k in b && b[k] == a[k]
  }

  lemma PlacedKeeps(journal: seq<Line>, taken: Times, more: Times, D: int, early: int, earlier: int)
    requires JournalPlaced(journal, taken, D, early) && Keeps(taken, more) && early <= earlier
    ensures JournalPlaced(journal, more, D, earlier)
  {
    forall i | 0 <= i < |journal| ensures LinePlaced(journal[i], more, D, earlier) {
      assert LinePlaced(journal[i], taken, D, early);
    }
  }

  /** A step that writes no journal: what it knew still holds, over a longer time. */
  lemma TimedAfterStep(w: World, t: World, D: int)
    requires TimedInv(w, D) && w.clock <= t.clock && Keeps(w.taken, t.taken) && Keeps(w.boots, t.boots)
    requires t.bridges == w.bridges
    requires (forall m :: m in t.batches ==> m in w.batches) && (forall a :: a in t.acks ==> a in w.acks)
    requires BootsInv(t.node, t.boots, t.clock) && TakenInv(t.history, t.taken, t.boots)
    requires EpochsInv(t.node.epochs, t.boots, D + Over(t.clock)) && TableInv(t.table, t.boots, D + Over(t.clock))
    ensures TimedInv(t, D)
  {
    hide JournalPlaced, TakenInv, EpochsInv, TableInv;
    forall b | b in t.bridges ensures JournalPlaced(t.bridges[b].journal, t.taken, D, D + Over(t.clock)) {
      PlacedKeeps(t.bridges[b].journal, w.taken, t.taken, D, D + Over(w.clock), D + Over(t.clock));
    }
  }

  lemma RecordingIsTimed(w: World, t: World, D: int, rec: Option<FlashRecord>)
    requires TimedInv(w, D) && w.node.nextSeq !in w.history
    requires rec.Some? ==> rec.value.bootId == w.node.bootId && rec.value.uptimeS == w.clock - w.node.bootUnixS
    requires t == Record(w, t.node, rec)
    requires t.node.bootId == w.node.bootId && t.node.bootUnixS == w.node.bootUnixS && t.node.epochs == w.node.epochs
    ensures TimedInv(t, D)
  {
    var q := w.node.nextSeq;
    assert t.taken.Keys == t.history.Keys;
    assert forall k ::
        k in t.history ==> k == q || (k in w.history && t.history[k] == w.history[k] && t.taken[k] == w.taken[k]);
    TimedAfterStep(w, t, D);
  }

  lemma ReadingIsTimed(c: Config, w: World, s: Step, D: int)
    requires Inv(c, w) && TimedInv(w, D) && (s.TakeReading? || s.BurnReading?)
    ensures TimedInv(NextWorld(c, w, s), D)
  {
    var t := NextWorld(c, w, s);
    assert w.node.nextSeq !in w.history;
    hide TimedInv, Inv, NodeInv;
    if s.TakeReading? {
      RecordingIsTimed(w, t, D, Some(Reading(c, w.node, w.clock, s.centiC)));
    } else {
      RecordingIsTimed(w, t, D, None);
    }
  }

  lemma RebootIsTimed(c: Config, w: World, D: int)
    requires TimedInv(w, D) && GoodCapacity(c.capacity)
    ensures TimedInv(NextWorld(c, w, RebootNode), D)
  {
    TimedAfterStep(w, NextWorld(c, w, RebootNode), D);
  }

  // ── What a node learns from an ack ─────────────────────────────────

  /** The start an ack tells is never after the boot, and early by no more than the ack was late or its clock capped. */
  lemma HeardStartIsNear(w: World, a: SentAck, D: int)
    requires BootsInv(w.node, w.boots, w.clock) && AckTimed(a, w.clock) && w.clock - a.sentAt <= D
    ensures EpochNear(w.node.bootId, a.hostUnixS - UptimeS(w.node, w.clock), w.boots, D + Over(w.clock))
  {
  }

  lemma NotedIsNear(table: EpochTable.Table, e: EpochTable.Entry, boots: Times, early: int)
    requires TableInv(table, boots, early) && EpochNear(e.bootId, e.epochS, boots, early)
    ensures TableInv(EpochTable.Noted(table, e), boots, early)
  {
    hide EpochTable.EpochFor, EpochNear;
  }

  /** A start found in the table is near. */
  lemma {:induction false} FoundIsNear(table: seq<EpochTable.Entry>, bootId: int, boots: Times, early: int)
    requires TableInv(table, boots, early) && EpochTable.EpochFor(table, bootId) != 0
    ensures EpochNear(bootId, EpochTable.EpochFor(table, bootId), boots, early)
  {
    assert table != [];
    if !(table[0].bootId == bootId && table[0].epochS != 0) {
      FoundIsNear(table[1..], bootId, boots, early);
    }
  }

  lemma AckIsTimed(c: Config, w: World, a: SentAck, D: int)
    requires TimedInv(w, D) && GoodCapacity(c.capacity) && a in w.acks && w.clock - a.sentAt <= D
    ensures TimedInv(NextWorld(c, w, DeliverAck(a)), D)
  {
    var up := UptimeS(w.node, w.clock);
    HeardStartIsNear(w, a, D);
    NotedIsNear(w.table, EpochTable.Entry(w.node.bootId, a.hostUnixS - up), w.boots, D + Over(w.clock));
    hide EpochTable.Noted, EpochTable.EpochFor, JournalPlaced, EpochNear, HeaderTimed, TableInv;
    TimedAfterStep(w, NextWorld(c, w, DeliverAck(a)), D);
  }

  lemma SentHeaderIsTimed(c: Config, w: World, memory: Memory, D: int)
    requires TimedInv(w, D)
    ensures SentTimed(SentNow(c, w, memory), w.boots, w.clock, D + Over(w.clock))
  {
    var boot := BatchBoot(w.node);
    if EpochTable.EpochFor(w.table, boot) != 0 {
      FoundIsNear(w.table, boot, w.boots, D + Over(w.clock));
    }
  }

  lemma SendIsTimed(c: Config, w: World, memory: Memory, D: int)
    requires TimedInv(w, D) && GoodCapacity(c.capacity)
    ensures TimedInv(NextWorld(c, w, Send(memory)), D)
  {
    var t, sent := NextWorld(c, w, Send(memory)), SentNow(c, w, memory);
    SentHeaderIsTimed(c, w, memory, D);
    hide SentNow, SentTimed, JournalPlaced, EpochsInv, TableInv, TakenInv, BootsInv, GoodCapacity, Over;
    assert forall m :: m in t.batches ==> m in w.batches || m == sent;
  }

  // ── Placing ────────────────────────────────────────────────────────

  /** One sample of a truthful, timed batch is placed near when it was taken. */
  lemma RecordIsPlaced(key: LogKey, h: BatchHeader, now: int, s: BatchSample, sentAt: int, w: World, D: int, early: int)
    requires HeaderTimed(h, sentAt, w.boots, early) && sentAt <= now <= sentAt + D
    requires TakenInv(w.history, w.taken, w.boots)
    requires Truthful(w.history, h.bootId, s.seqNo, s.uptimeS, s.centiC, s.flags)
    ensures PlacedWithin(RecordOf(key, h, now, s), w.taken, D, early)
  {
    if !IsLost(s.flags) {
      assert w.history[s.seqNo].Some?;
    }
  }

  lemma NewRecordsArePlaced(seen: set<int>, key: LogKey, w: World, f: Facts, m: SentBatch, D: int, early: int)
    requires BatchTrue(m.batch, f) && f.history == w.history && HeaderTimed(m.batch.header, m.sentAt, w.boots, early)
    requires m.sentAt <= w.clock <= m.sentAt + D && TakenInv(w.history, w.taken, w.boots)
    ensures var lines := Lines(SampleLines(RecordsOf(key, m.batch.header, w.clock, Fresh(m.batch.samples, seen))));
            JournalPlaced(lines, w.taken, D, early)
  {
    var unseen := Fresh(m.batch.samples, seen);
    FreshFacts(m.batch.samples, seen);
    var lines := Lines(SampleLines(RecordsOf(key, m.batch.header, w.clock, unseen)));
    hide PlacedWithin, HeaderTimed, TakenInv, RecordOf, Fresh, AllBelow, Truthful;
    forall i | 0 <= i < |lines| ensures LinePlaced(lines[i], w.taken, D, early) {
      assert unseen[i] in m.batch.samples;
      RecordIsPlaced(key, m.batch.header, w.clock, unseen[i], m.sentAt, w, D, early);
    }
  }

  lemma LinesConcat(xs: seq<JournalRecord>, ys: seq<JournalRecord>)
    ensures Lines(xs + ys) == Lines(xs) + Lines(ys)
  {
  }

  /** Starts and losses are not placed at all. */
  lemma OpeningIsPlaced(prev: Option<LogState>, key: LogKey, b: DecodedBatch, now: int, taken: Times, D: int,
      early: int)
    ensures JournalPlaced(Lines(StartLines(prev, key, b, now) + LossLines(LossOf(prev, key, b, now))), taken, D, early)
  {
  }

  lemma WritesArePlaced(c: Config, w: World, b: int, m: SentBatch, D: int, early: int)
    requires BatchTrue(m.batch, FactsOf(c, w)) && HeaderTimed(m.batch.header, m.sentAt, w.boots, early)
    requires m.sentAt <= w.clock <= m.sentAt + D && TakenInv(w.history, w.taken, w.boots)
    ensures JournalPlaced(Lines(Writes(c, w, b, m)), w.taken, D, early)
  {
    var key, prev, x, now := KeyOf(c), BridgeAt(w, b).log, m.batch, w.clock;
    var opening := StartLines(prev, key, x, now) + LossLines(LossOf(prev, key, x, now));
    hide JournalPlaced, BatchTrue, HeaderTimed, TakenInv, StartLines, LossLines, LossOf, SampleLines, RecordsOf,
        Settled;
    NewRecordsArePlaced(SeenOf(prev), key, w, FactsOf(c, w), m, D, early);
    OpeningIsPlaced(prev, key, x, now, w.taken, D, early);
    LinesConcat(opening, SampleLines(NewRecords(prev, key, x, now)));
    PlacedConcat(Lines(opening), Lines(SampleLines(NewRecords(prev, key, x, now))), w.taken, D, early);
  }

  lemma PlacedConcat(xs: seq<Line>, ys: seq<Line>, taken: Times, D: int, early: int)
    requires JournalPlaced(xs, taken, D, early) && JournalPlaced(ys, taken, D, early)
    ensures JournalPlaced(xs + ys, taken, D, early)
  {
  }

  /** A bridge step that writes only placed lines and sends only timed acks. */
  lemma TimedAfterWrite(w: World, t: World, b: int, x: BridgeState, lines: seq<Line>, D: int)
    requires TimedInv(w, D) && JournalPlaced(lines, w.taken, D, D + Over(w.clock))
    requires t.bridges == w.bridges[b := x] && x.journal == BridgeAt(w, b).journal + lines
    requires t.clock == w.clock && t.node == w.node && t.history == w.history && t.taken == w.taken
        && t.boots == w.boots
    requires t.table == w.table && forall m :: m in t.batches ==> m in w.batches
    requires forall a :: a in t.acks ==> a in w.acks || AckTimed(a, w.clock)
    ensures TimedInv(t, D)
  {
    hide JournalPlaced, BootsInv, TakenInv, EpochsInv, TableInv, SentTimed, AckTimed, Over;
    PlacedConcat(BridgeAt(w, b).journal, lines, w.taken, D, D + Over(w.clock));
  }

  lemma SentIsTimed(w: World, m: SentBatch, D: int)
    requires TimedInv(w, D) && m in w.batches
    ensures HeaderTimed(m.batch.header, m.sentAt, w.boots, D + Over(w.clock)) && m.sentAt <= w.clock
    ensures TakenInv(w.history, w.taken, w.boots)
  {
  }

  lemma DeliveryIsTimed(c: Config, w: World, b: int, m: SentBatch, D: int)
    requires Inv(c, w) && TimedInv(w, D) && m in w.batches && w.clock - m.sentAt <= D
    ensures TimedInv(NextWorld(c, w, DeliverBatch(b, m)), D)
  {
    hide TimedInv, Inv, JournalPlaced, JournalOf, NextLog, FactsOf, GoodCapacity, HeaderTimed, TakenInv, BatchTrue;
    hide LossOf, NewRecords, SentNow, Reopened, Record, TableAfter;
    InvIsGood(c, w, m);
    SentIsTimed(w, m, D);
    WritesArePlaced(c, w, b, m, D, D + Over(w.clock));
    var t := NextWorld(c, w, DeliverBatch(b, m));
    TimedAfterWrite(w, t, b, t.bridges[b], Lines(Writes(c, w, b, m)), D);
  }

  lemma PrefixIsPlaced(recs: seq<JournalRecord>, kept: nat, torn: bool, taken: Times, D: int, early: int)
    requires kept <= |recs| && JournalPlaced(Lines(recs), taken, D, early)
    ensures JournalPlaced(Lines(recs[..kept]) + Recovery.Torn(torn), taken, D, early)
  {
    assert Lines(recs[..kept]) == Lines(recs)[..kept];
  }

  lemma CrashIsTimed(c: Config, w: World, b: int, m: SentBatch, kept: nat, torn: bool, D: int)
    requires Inv(c, w) && TimedInv(w, D) && Possible(c, w, CrashDuring(b, m, kept, torn)) && w.clock - m.sentAt <= D
    ensures TimedInv(NextWorld(c, w, CrashDuring(b, m, kept, torn)), D)
  {
    hide TimedInv, Inv, JournalPlaced, JournalOf, NextLog, FactsOf, GoodCapacity, HeaderTimed, TakenInv, BatchTrue;
    hide LossOf, NewRecords, SentNow, Record, TableAfter;
    InvIsGood(c, w, m);
    SentIsTimed(w, m, D);
    WritesArePlaced(c, w, b, m, D, D + Over(w.clock));
    PrefixIsPlaced(Writes(c, w, b, m), kept, torn, w.taken, D, D + Over(w.clock));
    var t := NextWorld(c, w, CrashDuring(b, m, kept, torn));
    TimedAfterWrite(w, t, b, t.bridges[b], Lines(Writes(c, w, b, m)[..kept]) + Recovery.Torn(torn), D);
  }

  lemma RestartIsTimed(c: Config, w: World, b: int, D: int)
    requires GoodCapacity(c.capacity) && TimedInv(w, D)
    ensures TimedInv(NextWorld(c, w, RestartBridge(b)), D)
  {
    var t := NextWorld(c, w, RestartBridge(b));
    hide TimedInv;
    TimedAfterWrite(w, t, b, t.bridges[b], [], D);
  }

  /** The memories of a world where only time has passed. */
  lemma MemoriesKeep(w: World, t: World, D: int)
    requires TimedInv(w, D) && w.clock <= t.clock && t.node == w.node && t.history == w.history && t.taken == w.taken
    requires t.boots == w.boots && t.table == w.table
    ensures BootsInv(t.node, t.boots, t.clock) && TakenInv(t.history, t.taken, t.boots)
    ensures EpochsInv(t.node.epochs, t.boots, D + Over(t.clock)) && TableInv(t.table, t.boots, D + Over(t.clock))
  {
  }

  /** Nothing new is in the air, and only the clock moves elsewhere. */
  lemma RadioKeeps(c: Config, w: World, s: Step)
    requires GoodCapacity(c.capacity) && Possible(c, w, s)
    requires s.CopyBatch? || s.CopyAck? || s.LoseBatch? || s.LoseAck? || s.RefuseBatch? || s.Tick?
    ensures var t := NextWorld(c, w, s);
            && t == w.(clock := t.clock, batches := t.batches, acks := t.acks) && w.clock <= t.clock
            && (forall m :: m in t.batches ==> m in w.batches) && (forall a :: a in t.acks ==> a in w.acks)
  {
    hide Sample, Append, Reading, BatchNow, ResultOf, NextLog, Writes, ApplyAck, Record, SentNow, TableAfter, Reopened;
  }

  /** Messages copied or lost in the air, and time passing. */
  lemma RadioIsTimed(c: Config, w: World, s: Step, D: int)
    requires GoodCapacity(c.capacity) && TimedInv(w, D) && Possible(c, w, s)
    requires s.CopyBatch? || s.CopyAck? || s.LoseBatch? || s.LoseAck? || s.RefuseBatch? || s.Tick?
    ensures TimedInv(NextWorld(c, w, s), D)
  {
    hide Sample, Append, Reading, BatchNow, ResultOf, NextLog, Writes, ApplyAck, Record, TimedInv, SentNow, TableAfter;
    hide BootsInv, TakenInv, EpochsInv, TableInv, Reopened, NextWorld;
    var t := NextWorld(c, w, s);
    RadioKeeps(c, w, s);
    MemoriesKeep(w, t, D);
    TimedAfterStep(w, t, D);
  }

  lemma StepIsTimed(c: Config, w: World, s: Step, D: int)
    requires Inv(c, w) && TimedInv(w, D) && Possible(c, w, s) && Prompt(w, s, D)
    ensures TimedInv(NextWorld(c, w, s), D)
  {
    hide TimedInv, Inv, NextWorld, GoodCapacity;
    GoodByInv(c, w);
    match s
    case TakeReading(_) => ReadingIsTimed(c, w, s, D);
    case BurnReading => ReadingIsTimed(c, w, s, D);
    case RebootNode => RebootIsTimed(c, w, D);
    case DeliverAck(a) => AckIsTimed(c, w, a, D);
    case Send(memory) => SendIsTimed(c, w, memory, D);
    case DeliverBatch(b, m) => DeliveryIsTimed(c, w, b, m, D);
    case CrashDuring(b, m, kept, torn) => CrashIsTimed(c, w, b, m, kept, torn, D);
    case CopyBatch(_) => RadioIsTimed(c, w, s, D);
    case LoseBatch(_) => RadioIsTimed(c, w, s, D);
    case RefuseBatch(_, _) => RadioIsTimed(c, w, s, D);
    case CopyAck(_) => RadioIsTimed(c, w, s, D);
    case LoseAck(_) => RadioIsTimed(c, w, s, D);
    case Tick(_) => RadioIsTimed(c, w, s, D);
    case RestartBridge(b) => RestartIsTimed(c, w, b, D);
  }

  lemma StartIsTimed(bootUnixS: int, D: int)
    requires D >= 0
    ensures TimedInv(Start(bootUnixS), D)
  {
  }

  lemma {:induction false} RunIsTimed(c: Config, ws: seq<World>, ss: seq<Step>, D: int, i: nat)
    requires IsRun(c, ws, ss) && i < |ws| && D >= 0
    requires forall k :: 0 <= k < i ==> Prompt(ws[k], ss[k], D)
    ensures TimedInv(ws[i], D)
  {
    hide TimedInv, Inv, NextWorld, Prompt, Possible, GoodConfig;
    if i > 0 {
      RunIsTimed(c, ws, ss, D, i - 1);
      RunKeepsInv(c, ws, ss, i - 1);
      StepIsTimed(c, ws[i - 1], ss[i - 1], D);
    } else {
      var at :| ws[0] == Start(at);
      StartIsTimed(at, D);
    }
  }

  /**
   * When every message is acted on within D seconds, every sample any bridge
   * places is within D of the second it was taken, whether the node remembers
   * boot starts as the simulator or as the firmware does: a receipt anchor only
   * late, an epoch anchor only early, both exact at D == 0. An epoch anchor is
   * earlier by what the clock has run past 32 bits, since an ack's clock is capped.
   */
  lemma PlacedSamplesAreNear(c: Config, ws: seq<World>, ss: seq<Step>, D: int, i: nat, b: int, k: nat)
    requires IsRun(c, ws, ss) && i < |ws| && D >= 0
    requires forall j :: 0 <= j < i ==> Prompt(ws[j], ss[j], D)
    requires b in ws[i].bridges && k < |ws[i].bridges[b].journal|
    requires ws[i].bridges[b].journal[k].Written? && ws[i].bridges[b].journal[k].rec.SampleLine?
    ensures PlacedWithin(ws[i].bridges[b].journal[k].rec.sample, ws[i].taken, D, D + Over(ws[i].clock))
  {
    RunIsTimed(c, ws, ss, D, i);
    assert JournalPlaced(ws[i].bridges[b].journal, ws[i].taken, D, D + Over(ws[i].clock));
    assert LinePlaced(ws[i].bridges[b].journal[k], ws[i].taken, D, D + Over(ws[i].clock));
  }
}
