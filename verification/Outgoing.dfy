/** What a node's next batch says, exactly, in every world a run can reach. */
module Outgoing {
  import opened Prelude
  import opened Bytes
  import opened Records
  import opened BatchCodec
  import opened Node
  import opened Plan
  import opened Rebuild
  import opened Protocol
  import EpochTable

  // ── Which seqs, and which loss ─────────────────────────────────────

  /** The ring has overwritten q, and no ack told the node it was stored. */
  ghost predicate OverwrittenUnacked(n: Node, q: int) {
    n.ackedThrough < q < n.oldestSeq
  }

  /** The ring still covers q, and no ack told the node it was stored. */
  ghost predicate HeldUnacked(n: Node, q: int) {
    n.ackedThrough < q && n.oldestSeq <= q < n.nextSeq
  }

  /** lost is the greatest seq overwritten before it was acked; 0 exactly when there is none. */
  ghost predicate TellsLoss(n: Node, lost: int) {
    && lost >= 0
    && (lost == 0 <==> forall q :: !OverwrittenUnacked(n, q))
    && (lost != 0 ==> OverwrittenUnacked(n, lost) && forall q :: OverwrittenUnacked(n, q) ==> q <= lost)
  }

  /** first is the least seq still to be sent. */
  ghost predicate IsLeastPending(n: Node, first: int) {
    HeldUnacked(n, first) && forall q :: HeldUnacked(n, q) ==> first <= q
  }

  lemma LossIsTold(n: Node, h: History)
    requires NodeInv(n, h)
    ensures TellsLoss(n, LostThrough(n))
  {
    hide NodeInv;
    NodeIsSane(n, h);
    if n.ackedThrough + 1 < n.oldestSeq {
      assert OverwrittenUnacked(n, n.oldestSeq - 1);
    }
  }

  lemma NodeIsSane(n: Node, h: History)
    requires NodeInv(n, h)
    ensures 1 <= n.oldestSeq <= n.nextSeq && 0 <= n.ackedThrough < n.nextSeq
  {
  }

  /** The boot a batch is of: that of its first record, or the current one if that cannot be read. */
  ghost predicate IsBootOf(n: Node, first: int, boot: int) {
    if first in n.flash then boot == n.flash[first].bootId else boot == n.bootId
  }

  /**
   * The next batch's header, by the node's fields: what is pending and what was
   * lost, its clock, the start it remembers of the batch's boot, its policy.
   */
  lemma HeaderTellsTheNode(c: Config, ws: seq<World>, ss: seq<Step>, i: nat, memory: Memory)
    requires IsRun(c, ws, ss) && i < |ws| && Pending(ws[i].node) > 0
    ensures var w, h := ws[i], SentNow(c, ws[i], memory).batch.header;
            && IsLeastPending(w.node, h.firstSeq) && TellsLoss(w.node, h.lostThrough)
            && IsBootOf(w.node, h.firstSeq, h.bootId) && h.bootNow == w.node.bootId
            && h.uptimeNowS == w.clock - w.node.bootUnixS
            && h.sampleIntervalS == c.intervalS && h.policyMinCenti == c.bandMin && h.policyMaxCenti == c.bandMax
            && h.logId == c.logId && h.version == 0 && h.flags == 0
            && (memory == Simulator ==>
                  h.bootEpochS == if h.bootId in w.node.epochs then w.node.epochs[h.bootId] else 0)
            && (memory == Firmware ==> h.bootEpochS == EpochTable.EpochFor(w.table, h.bootId))
  {
    RunKeepsInv(c, ws, ss, i);
    hide IsRun, Gather, TellsLoss, LostThrough, NodeInv, EpochTable.EpochFor;
    InvKnowsNode(c, ws[i]);
    NodeIsSane(ws[i].node, ws[i].history);
    LossIsTold(ws[i].node, ws[i].history);
    FirstIsLeast(ws[i].node);
  }

  lemma InvKnowsNode(c: Config, w: World)
    requires Inv(c, w)
    ensures NodeInv(w.node, w.history)
  {
  }

  lemma FirstIsLeast(n: Node)
    requires Pending(n) > 0
    ensures IsLeastPending(n, PendingFirst(n))
  {
  }

  // ── How much fits ──────────────────────────────────────────────────

  /** q is readable and of another boot. */
  ghost predicate OtherBoot(n: Node, boot: int, q: int) {
    q in n.flash && n.flash[q].bootId != boot
  }

  /** A sample is its readable record, or the marked placeholder. */
  ghost predicate IsSampleOf(n: Node, q: int, s: SampleFields) {
    if q in n.flash then s.uptimeS == n.flash[q].uptimeS && s.centiC == n.flash[q].centiC && s.flags == n.flash[q].flags
    else s.uptimeS == 0 && s.centiC == -32768 && s.flags == 0x14
  }

  /** The samples from first on have q's in its place. */
  ghost predicate SampledAt(n: Node, samples: seq<SampleFields>, first: int, q: int) {
    first <= q < first + |samples| && IsSampleOf(n, q, samples[q - first])
  }

  /**
   * A batch is as long as it can be: it stops at 91 samples, at the newest seq or
   * at a record of another boot, and never earlier.
   */
  lemma {:induction false} GatherIsMaximal(n: Node, boot: int, first: int, room: nat)
    requires first <= n.nextSeq
    ensures var s := Gather(n.flash, n.nextSeq, boot, first, room);
            && |s| <= room && first + |s| <= n.nextSeq
            && (|s| == room || first + |s| == n.nextSeq || OtherBoot(n, boot, first + |s|))
            && (forall q :: first <= q < first + |s| ==> !OtherBoot(n, boot, q))
            && forall q :: first <= q < first + |s| ==> SampledAt(n, s, first, q)
    decreases room
  {
    if first < n.nextSeq && room > 0 && !OtherBoot(n, boot, first) {
      GatherIsMaximal(n, boot, first + 1, room - 1);
      var s, more := Gather(n.flash, n.nextSeq, boot, first, room),
          Gather(n.flash, n.nextSeq, boot, first + 1, room - 1);
      assert s == [SampleFor(n.flash, boot, first).value] + more;
      forall q | first <= q < first + |s| ensures !OtherBoot(n, boot, q) && SampledAt(n, s, first, q) {
        if q > first {
          assert SampledAt(n, more, first + 1, q) && s[q - first] == more[q - (first + 1)];
        }
      }
    }
  }

  /** The next batch carries at least one sample, and as many as one batch of one boot can. */
  lemma BatchIsMaximal(c: Config, ws: seq<World>, ss: seq<Step>, i: nat, memory: Memory)
    requires IsRun(c, ws, ss) && i < |ws| && Pending(ws[i].node) > 0
    ensures var n, b := ws[i].node, SentNow(c, ws[i], memory).batch;
            var first, k := b.header.firstSeq, |b.samples|;
            && 1 <= k <= 91 && first + k <= n.nextSeq && b.header.count == k
            && (k == 91 || first + k == n.nextSeq || OtherBoot(n, b.header.bootId, first + k))
            && forall q :: first <= q < first + k ==> !OtherBoot(n, b.header.bootId, q)
  {
    hide IsRun, Gather;
    PendingGathers(ws[i].node);
  }

  lemma PendingGathers(n: Node)
    requires Pending(n) > 0
    ensures var first, k := PendingFirst(n), |BatchSamples(n)|;
            && 1 <= k <= BATCH_MAX_SAMPLES && first + k <= n.nextSeq
            && (k == BATCH_MAX_SAMPLES || first + k == n.nextSeq || OtherBoot(n, BatchBoot(n), first + k))
            && (forall q :: first <= q < first + k ==> !OtherBoot(n, BatchBoot(n), q))
            && forall q :: first <= q < first + k ==> SampledAt(n, BatchSamples(n), first, q)
  {
    hide Gather;
    GatherIsMaximal(n, BatchBoot(n), PendingFirst(n), BATCH_MAX_SAMPLES);
  }

  // ── The bytes ──────────────────────────────────────────────────────

  /** Where the payload says it: the words of the header, at their offsets in the bytes sent. */
  lemma PayloadTellsTheNode(c: Config, n: Node, h: History, nowUnixS: int, p: seq<byte>)
    requires NodeInv(n, h) && Payload(c, n, nowUnixS) == Some(Ok(p))
    ensures |p| >= 40 && p[0] == 0 && p[1] == 0 && 1 <= ReadU16(p, 2) <= 91 && |p| == 40 + 8 * ReadU16(p, 2)
    ensures IsLeastPending(n, ReadU32(p, 4)) && IsBootOf(n, ReadU32(p, 4), ReadU32(p, 8))
    ensures ReadU32(p, 12) == n.bootId && ReadU32(p, 16) == nowUnixS - n.bootUnixS
    ensures ReadU32(p, 20) == if ReadU32(p, 8) in n.epochs then n.epochs[ReadU32(p, 8)] else 0
    ensures TellsLoss(n, ReadU32(p, 24)) && ReadU32(p, 28) == c.intervalS
    ensures ReadI16(p, 32) == c.bandMin && ReadI16(p, 34) == c.bandMax && ReadU32(p, 36) == c.logId
  {
    hide NodeInv, Gather, TellsLoss, LostThrough, ReadU16, ReadU32, ReadI16, BatchSamples, StartsWith, IsSampleOf;
    hide IsLeastPending, EncodeResult;
    LossIsTold(n, h);
    PayloadIsEncoded(c, n, nowUnixS, p);
    FirstIsLeast(n);
    PendingGathers(n);
    BatchLayout(BatchHeaderNow(c, n, nowUnixS), BatchSamples(n), p);
  }

  lemma PayloadIsEncoded(c: Config, n: Node, nowUnixS: int, p: seq<byte>)
    requires Payload(c, n, nowUnixS) == Some(Ok(p))
    ensures EncodeResult(BatchHeaderNow(c, n, nowUnixS), BatchSamples(n)) == Ok(p) && Pending(n) > 0
  {
    hide Gather, EncodeResult;
  }

  // ── What was read ──────────────────────────────────────────────────

  /** Step j took the reading that seq q stands for, or lost it to a power cut. */
  ghost predicate ReadAt(c: Config, w: World, s: Step, q: int, rec: Option<FlashRecord>) {
    && w.node.nextSeq == q
    && match s
       case TakeReading(centi) => rec.Some? && IsReading(c, w, centi, rec.value)
       case BurnReading => rec.None?
       case _ => false
  }

  /** The record of a reading taken now: its boot and uptime, its value, and the band's verdict. */
  ghost predicate IsReading(c: Config, w: World, centi: Option<int>, r: FlashRecord) {
    && r.bootId == w.node.bootId && r.uptimeS == w.clock - w.node.bootUnixS
    && (centi.None? ==> r.centiC == -32768 && r.flags == 4)
    && (centi.Some? ==>
          && r.centiC == centi.value
          && r.flags in {0, 1} && (r.flags == 0 <==> c.bandMin <= centi.value <= c.bandMax))
  }

  /** Every seq's history is what the step that spent it did, at the time it did it. */
  lemma {:induction false} HistoryIsWhatWasRead(c: Config, ws: seq<World>, ss: seq<Step>, i: nat, q: int)
    returns (j: nat)
    requires IsRun(c, ws, ss) && i < |ws| && q in ws[i].history
    ensures j < i && ReadAt(c, ws[j], ss[j], q, ws[i].history[q])
    ensures q in ws[i].taken && ws[i].taken[q] == ws[j].clock
  {
    hide Inv, NextWorld, Possible, ReadAt;
    j := 0;
    if i == 0 {
      assert false;
    } else {
      RunKeepsInv(c, ws, ss, i - 1);
      StepReads(c, ws[i - 1], ss[i - 1], q);
      if q in ws[i - 1].history {
        j := HistoryIsWhatWasRead(c, ws, ss, i - 1, q);
      } else {
        j := i - 1;
      }
    }
  }

  lemma StepReads(c: Config, w: World, s: Step, q: int)
    requires Inv(c, w) && Possible(c, w, s) && q in NextWorld(c, w, s).history
    ensures var t := NextWorld(c, w, s);
            if q in w.history then
              t.history[q] == w.history[q] && (q in w.taken ==> q in t.taken && t.taken[q] == w.taken[q])
            else ReadAt(c, w, s, q, t.history[q]) && q in t.taken && t.taken[q] == w.clock
  {
  }

  /**
   * From probe to journal: whatever sample any bridge has journaled in a run is a
   * reading the node took, with its value, the band's verdict, its boot and its
   * uptime; or it is marked lost, and power was cut when its seq was written.
   */
  lemma JournaledIsWhatWasRead(c: Config, ws: seq<World>, ss: seq<Step>, i: nat, b: int, k: nat) returns (j: nat)
    requires IsRun(c, ws, ss) && i < |ws| && b in ws[i].bridges && k < |ws[i].bridges[b].journal|
    requires ws[i].bridges[b].journal[k].Written? && ws[i].bridges[b].journal[k].rec.SampleLine?
    ensures var r := ws[i].bridges[b].journal[k].rec.sample;
            && j < i && ws[j].node.nextSeq == r.seqNo && r.key == KeyOf(c)
            && match ss[j]
               case TakeReading(centi) =>
                 IsReading(c, ws[j], centi, FlashRecord(r.bootId, r.uptimeS, r.centiC, r.flags))
               case BurnReading => r.uptimeS == 0 && r.centiC == -32768 && r.flags == 0x14
               case _ => false
  {
    hide IsRun, Inv, NextWorld, Possible;
    RunKeepsInv(c, ws, ss, i);
    JournaledIsTruthful(c, ws[i], b, k);
    j := HistoryIsWhatWasRead(c, ws, ss, i, ws[i].bridges[b].journal[k].rec.sample.seqNo);
  }

  lemma JournaledIsTruthful(c: Config, w: World, b: int, k: nat)
    requires Inv(c, w) && b in w.bridges && k < |w.bridges[b].journal|
    requires w.bridges[b].journal[k].Written? && w.bridges[b].journal[k].rec.SampleLine?
    ensures var r := w.bridges[b].journal[k].rec.sample;
            r.key == KeyOf(c) && Truthful(w.history, r.bootId, r.seqNo, r.uptimeS, r.centiC, r.flags)
  {
    assert BridgeInv(w.bridges[b], FactsOf(c, w));
    assert RecTrue(w.bridges[b].journal[k].rec, FactsOf(c, w));
  }

  // ── The starts it has learnt ───────────────────────────────────────

  /** At step j an ack tells the node, in boot k, a clock later than its own uptime. */
  predicate Hears(w: World, s: Step, boot: int) {
    s.DeliverAck? && w.node.bootId == boot && s.a.hostUnixS > w.clock - w.node.bootUnixS
  }

  /** The start such an ack tells. */
  function StartHeard(w: World, s: Step): int {
    if s.DeliverAck? then s.a.hostUnixS - (w.clock - w.node.bootUnixS) else 0
  }

  /** Boot k's start, last told at step j. */
  ghost predicate LastHeard(ws: seq<World>, ss: seq<Step>, i: int, boot: int, j: int) {
    && 0 <= j < i <= |ss| <= |ws| && Hears(ws[j], ss[j], boot)
    && forall m :: j < m < i ==> !Hears(ws[m], ss[m], boot)
  }

  /** The simulated node remembers a boot's start exactly when an ack told it, and then as the last one did. */
  lemma {:induction false} EpochIsLastHeard(c: Config, ws: seq<World>, ss: seq<Step>, i: nat, boot: int)
    requires IsRun(c, ws, ss) && i < |ws|
    ensures boot in ws[i].node.epochs <==> exists j :: 0 <= j < i && Hears(ws[j], ss[j], boot)
    ensures forall j :: LastHeard(ws, ss, i, boot, j) ==> ws[i].node.epochs[boot] == StartHeard(ws[j], ss[j])
    ensures boot in ws[i].node.epochs ==> ws[i].node.epochs[boot] > 0
  {
    hide NextWorld, Possible, Hears, StartHeard;
    if i > 0 {
      EpochIsLastHeard(c, ws, ss, i - 1, boot);
      StepLearns(c, ws[i - 1], ss[i - 1], boot);
      forall j | LastHeard(ws, ss, i, boot, j) ensures ws[i].node.epochs[boot] == StartHeard(ws[j], ss[j]) {
        if j < i - 1 {
          assert LastHeard(ws, ss, i - 1, boot, j) && !Hears(ws[i - 1], ss[i - 1], boot);
        }
      }
    }
  }

  lemma StepLearns(c: Config, w: World, s: Step, boot: int)
    requires Possible(c, w, s) && GoodConfig(c)
    ensures var e, f := w.node.epochs, NextWorld(c, w, s).node.epochs;
            if Hears(w, s, boot) then boot in f && f[boot] == StartHeard(w, s) > 0
            else (boot in f <==> boot in e) && (boot in f ==> f[boot] == e[boot])
  {
    hide JournalOf, ResultOf, NextLog, SentNow, Reading, OldestAfter, Without, Rebuilt, TableAfter;
  }

  /**
   * When a batch's samples can be given a time: exactly when their boot is still
   * running as it is sent, or some ack told its start while it ran.
   */
  lemma WhenABatchIsPlaced(c: Config, ws: seq<World>, ss: seq<Step>, i: nat)
    requires IsRun(c, ws, ss) && i < |ws|
    ensures var h := SentNow(c, ws[i], Simulator).batch.header;
            h.bootId == h.bootNow || h.bootEpochS != 0
            <==> h.bootId == ws[i].node.bootId || exists j :: 0 <= j < i && Hears(ws[j], ss[j], h.bootId)
  {
    hide IsRun, Hears;
    EpochIsLastHeard(c, ws, ss, i, BatchBoot(ws[i].node));
  }

  /** The acks the firmware's table took a start from, as its notes, oldest first. */
  function Notes(ws: seq<World>, ss: seq<Step>, i: nat): seq<EpochTable.Entry>
    requires i <= |ss| <= |ws|
  {
    if i == 0 then [] else
      var w, s := ws[i - 1], ss[i - 1];
      Notes(ws, ss, i - 1)
      + if Hears(w, s, w.node.bootId) then [EpochTable.Entry(w.node.bootId, StartHeard(w, s))] else []
  }

  /** No note is of a boot above this one. */
  ghost predicate NotedUpTo(notes: seq<EpochTable.Entry>, top: int) {
    EpochTable.InBootOrder(notes) && forall k :: 0 <= k < |notes| ==> notes[k].bootId <= top
  }

  lemma NotesGrow(notes: seq<EpochTable.Entry>, top: int, e: EpochTable.Entry)
    requires NotedUpTo(notes, top) && 1 <= top == e.bootId
    ensures NotedUpTo(notes + [e], top)
  {
  }

  lemma NotesStayBelow(notes: seq<EpochTable.Entry>, top: int, higher: int)
    requires NotedUpTo(notes, top) && top <= higher
    ensures NotedUpTo(notes, higher)
  {
  }

  /** The firmware's table is what those notes leave, so it holds the newest four boots by their first notes. */
  lemma {:induction false} TableTakesEveryNote(c: Config, ws: seq<World>, ss: seq<Step>, i: nat)
    requires IsRun(c, ws, ss) && i < |ws|
    ensures ws[i].table == EpochTable.After(Notes(ws, ss, i))
    ensures ws[i].node.bootId >= 1 && NotedUpTo(Notes(ws, ss, i), ws[i].node.bootId)
  {
    hide NextWorld, Possible, EpochTable.Noted, EpochTable.After, Hears, StartHeard, NotedUpTo;
    if i == 0 {
      NoNotesYet();
    } else {
      TableTakesEveryNote(c, ws, ss, i - 1);
      var w, s, pre := ws[i - 1], ss[i - 1], Notes(ws, ss, i - 1);
      StepNotes(c, w, s);
      BootsGoUp(c, w, s);
      if Hears(w, s, w.node.bootId) {
        var e := EpochTable.Entry(w.node.bootId, StartHeard(w, s));
        EpochTable.AfterOneMore(pre, e);
        NotesGrow(pre, w.node.bootId, e);
        NotesStayBelow(pre + [e], w.node.bootId, ws[i].node.bootId);
      } else {
        assert pre + [] == pre;
        NotesStayBelow(pre, w.node.bootId, ws[i].node.bootId);
      }
    }
  }

  lemma NoNotesYet()
    ensures EpochTable.After([]) == EpochTable.EMPTY && NotedUpTo([], 1)
  {
  }

  lemma BootsGoUp(c: Config, w: World, s: Step)
    requires Possible(c, w, s) && GoodConfig(c)
    ensures NextWorld(c, w, s).node.bootId >= w.node.bootId
  {
    hide TableAfter, JournalOf, ResultOf, NextLog, SentNow, Reading, OldestAfter, Without, Rebuilt;
  }

  lemma StepNotes(c: Config, w: World, s: Step)
    requires Possible(c, w, s) && GoodConfig(c)
    ensures NextWorld(c, w, s).table
         == if Hears(w, s, w.node.bootId) then
              EpochTable.Noted(w.table, EpochTable.Entry(w.node.bootId, StartHeard(w, s)))
            else w.table
  {
    hide JournalOf, ResultOf, NextLog, SentNow, Sample, Append, Reading, ApplyAck, Rebuilt, EpochTable.Noted;
  }
}
