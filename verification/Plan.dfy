/** store.ts's planBatch: the records, the pointer and the loss a batch brings to a log. */
module Plan {
  import opened Prelude
  import opened Closure
  import opened Records

  datatype LogState = LogState(through: int, seen: set<int>, maxSeq: int)

  datatype AckToSend = AckToSend(mac: string, ackedThrough: int, hostUnixS: int)

  datatype IngestResult = IngestResult(
    key: LogKey, firstContact: bool, newSamples: seq<SampleRecord>, duplicates: int, loss: Option<LossRecord>,
    previousThrough: Option<int>, through: int, heldAbove: Option<int>, ack: AckToSend)

  datatype Plan = Plan(records: seq<JournalRecord>, added: seq<int>, maxSeq: int, result: IngestResult)

  // ── The specification ──────────────────────────────────────────────

  /** The seqs a run of samples covers. */
  function SeqNos(samples: seq<BatchSample>): set<int> {
    set s | s in samples :: s.seqNo
  }

  /** The samples not yet held, each seq at its first appearance. */
  function Fresh(samples: seq<BatchSample>, seen: set<int>): (r: seq<BatchSample>)
    ensures |r| <= |samples|
  {
    if samples == [] then [] else
      var n := |samples| - 1;
      var r := Fresh(samples[..n], seen);
      if samples[n].seqNo in seen || samples[n].seqNo in SeqNos(samples[..n]) then r else r + [samples[n]]
  }

  predicate Distinct(samples: seq<BatchSample>) {
    forall i, j :: 0 <= i < j < |samples| ==> samples[i].seqNo != samples[j].seqNo
  }

  /** Every new seq is taken exactly once, from a sample of the batch; nothing held is taken again. */
  lemma {:induction false} FreshFacts(samples: seq<BatchSample>, seen: set<int>)
    ensures var r := Fresh(samples, seen);
            && SeqNos(r) == SeqNos(samples) - seen
            && (forall s :: s in r ==> s in samples && s.seqNo !in seen)
            && Distinct(r)
  {
    if samples != [] {
      var n := |samples| - 1;
      var s, pre := samples[n], samples[..n];
      FreshFacts(pre, seen);
      var r := Fresh(pre, seen);
      assert samples == pre + [s];
      assert SeqNos(samples) == SeqNos(pre) + {s.seqNo};
      if !(s.seqNo in seen || s.seqNo in SeqNos(pre)) {
        assert SeqNos(r + [s]) == SeqNos(r) + {s.seqNo};
        forall i | 0 <= i < |r| ensures r[i].seqNo != s.seqNo {
          assert r[i] in r;
        }
      }
    }
  }

  /** anchorOf: the rule that places a batch's samples, and the boot's start under it. */
  function AnchorOf(h: BatchHeader, nowUnixS: int): (Anchor, Option<int>) {
    if h.bootId == h.bootNow then (Receipt, Some(nowUnixS - h.uptimeNowS))
    else if h.bootEpochS != 0 then (Epoch, Some(h.bootEpochS))
    else (Unplaced, None)
  }

  /** The record of one sample; a lost-record placeholder is never placed. */
  function RecordOf(key: LogKey, h: BatchHeader, nowUnixS: int, s: BatchSample): SampleRecord {
    var (rule, epoch) := AnchorOf(h, nowUnixS);
    var placed := epoch.Some? && !IsLost(s.flags);
    SampleRecord(key, s.seqNo, h.bootId, s.uptimeS, s.centiC, s.flags,
                 if placed then Some(epoch.value + s.uptimeS) else None,
                 if placed then rule else Unplaced,
                 h.policyMinCenti, h.policyMaxCenti, nowUnixS)
  }

  function RecordsOf(key: LogKey, h: BatchHeader, nowUnixS: int, samples: seq<BatchSample>): (r: seq<SampleRecord>)
    ensures |r| == |samples|
    ensures forall i :: 0 <= i < |r| ==> r[i] == RecordOf(key, h, nowUnixS, samples[i])
  {
    seq(|samples|, i requires 0 <= i < |samples| => RecordOf(key, h, nowUnixS, samples[i]))
  }

  function SampleLines(records: seq<SampleRecord>): (r: seq<JournalRecord>)
    ensures |r| == |records|
    ensures forall i :: 0 <= i < |r| ==> r[i] == SampleLine(records[i])
  {
    seq(|records|, i requires 0 <= i < |records| => SampleLine(records[i]))
  }

  /** The highest seq among the samples, or m if that is higher. */
  function Highest(m: int, samples: seq<BatchSample>): (r: int)
    ensures m <= r && forall s :: s in samples ==> s.seqNo <= r
    ensures r == m || r in SeqNos(samples)
  {
    if samples == [] then m else
      var n := |samples| - 1;
      assert samples == samples[..n] + [samples[n]];
      Max(Highest(m, samples[..n]), samples[n].seqNo)
  }

  function SeenOf(prev: Option<LogState>): set<int> {
    if prev.Some? then prev.value.seen else {}
  }

  /** Where the pointer stands before the batch: a new log starts just below its first batch. */
  function ThroughBefore(prev: Option<LogState>, h: BatchHeader): int {
    if prev.Some? then prev.value.through else Max(h.firstSeq - 1, 0)
  }

  /** How many seqs in (before, lost] are neither held nor arriving. */
  function Missing(seen: set<int>, inBatch: set<int>, before: int, lost: int): nat {
    |Range(before + 1, lost) - seen - inBatch|
  }

  /** The loss event a batch brings: how many seqs of the lost range the bridge will never hold. */
  function LossOf(prev: Option<LogState>, key: LogKey, b: DecodedBatch, nowUnixS: int): Option<LossRecord> {
    var before := ThroughBefore(prev, b.header);
    var lost := b.header.lostThrough;
    if lost > before then
      Some(LossRecord(key, Some(before + 1), lost, Some(Missing(SeenOf(prev), SeqNos(b.samples), before, lost)),
          nowUnixS))
    else if prev.None? && lost > 0 then
      Some(LossRecord(key, None, lost, None, nowUnixS))
    else None
  }

  /** The log after the batch: everything held closes up from the higher of pointer and loss. */
  function NextLog(prev: Option<LogState>, b: DecodedBatch): LogState {
    var seen := SeenOf(prev) + SeqNos(b.samples);
    LogState(
      Close(Max(ThroughBefore(prev, b.header), b.header.lostThrough), seen),
      seen,
      Highest(if prev.Some? then prev.value.maxSeq else 0, Fresh(b.samples, SeenOf(prev))))
  }

  function StartLines(prev: Option<LogState>, key: LogKey, b: DecodedBatch, nowUnixS: int): seq<JournalRecord> {
    if prev.None? then [StartLine(key, b.header.firstSeq, nowUnixS)] else []
  }

  function LossLines(loss: Option<LossRecord>): seq<JournalRecord> {
    if loss.Some? then [LossLine(loss.value)] else []
  }

  function NewRecords(prev: Option<LogState>, key: LogKey, b: DecodedBatch, nowUnixS: int): seq<SampleRecord> {
    RecordsOf(key, b.header, nowUnixS, Fresh(b.samples, SeenOf(prev)))
  }

  /** What the batch adds to the journal, in the order it is written. */
  function JournalOf(prev: Option<LogState>, key: LogKey, b: DecodedBatch, nowUnixS: int): seq<JournalRecord> {
    StartLines(prev, key, b, nowUnixS) + LossLines(LossOf(prev, key, b, nowUnixS))
    + SampleLines(NewRecords(prev, key, b, nowUnixS))
  }

  function ResultOf(prev: Option<LogState>, key: LogKey, b: DecodedBatch, nowUnixS: int): IngestResult {
    var next := NextLog(prev, b);
    var unseen := NewRecords(prev, key, b, nowUnixS);
    IngestResult(
      key, prev.None?, unseen, |b.samples| - |unseen|, LossOf(prev, key, b, nowUnixS),
      if prev.Some? then Some(prev.value.through) else None,
      next.through,
      if next.maxSeq > next.through then Some(next.maxSeq) else None,
      AckToSend(key.mac, next.through, Min(nowUnixS, U32_MAX)))
  }

  function Numbers(samples: seq<BatchSample>): (r: seq<int>)
    ensures |r| == |samples| && forall i :: 0 <= i < |r| ==> r[i] == samples[i].seqNo
  {
    seq(|samples|, i requires 0 <= i < |samples| => samples[i].seqNo)
  }

  // ── The code ───────────────────────────────────────────────────────

  /** The members of a set in (after, upTo]. */
  function Within(s: set<int>, after: int, upTo: int): set<int> {
    set q | q in s && after < q <= upTo
  }

  lemma WithinAdd(s: set<int>, q: int, after: int, upTo: int)
    requires q !in s
    ensures |Within(s + {q}, after, upTo)| == |Within(s, after, upTo)| + if after < q <= upTo then 1 else 0
  {
    var w := Within(s, after, upTo);
    assert Within(s + {q}, after, upTo) == if after < q <= upTo then w + {q} else w;
  }

  /** How many of a set's members lie in (after, upTo], by walking the set and never the range. */
  method CountHeld(held: set<int>, after: int, upTo: int) returns (n: int)
    ensures n == |Within(held, after, upTo)|
  {
    var rest := held;
    n := 0;
    while rest != {}
      invariant rest <= held
      invariant n == |Within(held - rest, after, upTo)|
      decreases |rest|
    {
      Inhabited(rest);
      var q :| q in rest;
      WithinAdd(held - rest, q, after, upTo);
      assert held - (rest - {q}) == held - rest + {q};
      rest := rest - {q};
      if q > after && q <= upTo {
        n := n + 1;
      }
    }
    assert held - rest == held;
  }

  /** Missing as planBatch computes it: the range's length less two counts of held seqs. */
  lemma MissingByCounting(seen: set<int>, inBatch: set<int>, before: int, lost: int)
    requires before <= lost
    ensures Missing(seen, inBatch, before, lost)
         == lost - before - |Within(seen, before, lost)| - |Within(inBatch - seen, before, lost)|
  {
    var r := Range(before + 1, lost);
    var a, c := Within(seen, before, lost), Within(inBatch - seen, before, lost);
    assert r == (r - seen - inBatch) + (a + c);
    assert |a + c| == |a| + |c|;
  }

  /** The loss event, if the batch reports one, and the pointer it leaves. */
  method FindLoss(prev: Option<LogState>, key: LogKey, b: DecodedBatch, nowUnixS: int)
    returns (loss: Option<LossRecord>, through: int)
    ensures loss == LossOf(prev, key, b, nowUnixS)
    ensures through == Max(ThroughBefore(prev, b.header), b.header.lostThrough)
  {
    var h, seen, inBatch := b.header, SeenOf(prev), SeqNos(b.samples);
    through := ThroughBefore(prev, h);
    loss := None;
    if h.lostThrough > through {
      var inSeen := CountHeld(seen, through, h.lostThrough);
      var arriving := CountHeld(inBatch - seen, through, h.lostThrough);
      MissingByCounting(seen, inBatch, through, h.lostThrough);
      var missing := h.lostThrough - through - (inSeen + arriving);
      loss := Some(LossRecord(key, Some(through + 1), h.lostThrough, Some(missing), nowUnixS));
      through := h.lostThrough;
    } else if prev.None? && h.lostThrough > 0 {
      loss := Some(LossRecord(key, None, h.lostThrough, None, nowUnixS));
    }
  }

  method MakeRecords(key: LogKey, h: BatchHeader, nowUnixS: int, samples: seq<BatchSample>)
    returns (records: seq<SampleRecord>)
    ensures records == RecordsOf(key, h, nowUnixS, samples)
  {
    records := [];
    for i := 0 to |samples|
      invariant records == RecordsOf(key, h, nowUnixS, samples[..i])
    {
      records := records + [RecordOf(key, h, nowUnixS, samples[i])];
    }
    assert samples[..|samples|] == samples;
  }

  /** The plan for one batch agrees with JournalOf, NextLog and ResultOf, whatever log it meets. */
  method PlanBatch(prev: Option<LogState>, key: LogKey, b: DecodedBatch, nowUnixS: int) returns (plan: Plan)
    ensures plan.records == JournalOf(prev, key, b, nowUnixS)
    ensures plan.added == Numbers(Fresh(b.samples, SeenOf(prev)))
    ensures plan.maxSeq == NextLog(prev, b).maxSeq
    ensures plan.result == ResultOf(prev, key, b, nowUnixS)
  {
    hide Fresh, Highest, RecordsOf, SampleLines, Numbers, Close, LossOf, StartLines, LossLines, SeqNos, ThroughBefore;
    var seen := SeenOf(prev);
    var records := StartLines(prev, key, b, nowUnixS);
    var loss, through := FindLoss(prev, key, b, nowUnixS);
    records := records + LossLines(loss);
    var unseen, added, addedSet := SelectFresh(b.samples, seen);
    var newSamples := MakeRecords(key, b.header, nowUnixS, unseen);
    records := records + SampleLines(newSamples);
    assert seen + addedSet == NextLog(prev, b).seen;
    through := Advance(through, seen, addedSet);
    var maxSeq := Highest(if prev.Some? then prev.value.maxSeq else 0, unseen);
    assert NextLog(prev, b) == LogState(through, seen + addedSet, maxSeq);
    plan := Plan(records, added, maxSeq, IngestResult(
      key, prev.None?, newSamples, |b.samples| - |unseen|, loss,
      if prev.Some? then Some(prev.value.through) else None,
      through,
      if maxSeq > through then Some(maxSeq) else None,
      AckToSend(key.mac, through, Min(nowUnixS, U32_MAX))));
  }

  lemma SelectStep(samples: seq<BatchSample>, seen: set<int>, i: nat)
    requires i < |samples|
    ensures SeqNos(samples[..i + 1]) == SeqNos(samples[..i]) + {samples[i].seqNo}
    ensures Fresh(samples[..i + 1], seen) == Fresh(samples[..i], seen)
      + if samples[i].seqNo in seen || samples[i].seqNo in SeqNos(samples[..i]) then [] else [samples[i]]
  {
    assert samples[..i + 1] == samples[..i] + [samples[i]];
    assert samples[..i + 1][..i] == samples[..i];
  }

  /** The dedupe loop. */
  method SelectFresh(samples: seq<BatchSample>, seen: set<int>)
    returns (unseen: seq<BatchSample>, added: seq<int>, addedSet: set<int>)
    ensures unseen == Fresh(samples, seen)
    ensures added == Numbers(unseen)
    ensures addedSet == SeqNos(samples) - seen
  {
    unseen, added, addedSet := [], [], {};
    var i := 0;
    while i < |samples|
      invariant 0 <= i <= |samples|
      invariant unseen == Fresh(samples[..i], seen)
      invariant added == Numbers(unseen)
      invariant addedSet == SeqNos(samples[..i]) - seen
    {
      var s := samples[i];
      SelectStep(samples, seen, i);
      if !(s.seqNo in seen || s.seqNo in addedSet) {
        addedSet := addedSet + {s.seqNo};
        added := added + [s.seqNo];
        unseen := unseen + [s];
      }
      i := i + 1;
    }
    assert samples[..i] == samples;
  }

  /** The last loop of planBatch and of rebuild: step over everything held. */
  method Advance(from: int, seen: set<int>, addedSet: set<int>) returns (through: int)
    ensures through == Close(from, seen + addedSet)
  {
    through := from;
    CloseStops(from, seen + addedSet);
    while through + 1 in seen || through + 1 in addedSet
      invariant from <= through <= Close(from, seen + addedSet)
      decreases Close(from, seen + addedSet) - through
    {
      through := through + 1;
    }
    CloseAbsorbs(from, seen + addedSet, through);
  }
}
