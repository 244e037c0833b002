/** What one more batch writes to a log's journal and answers, after any run of batches. */
module Ledger {
  import opened Prelude
  import opened Records
  import opened Plan
  import opened Confluence

  // ── The loss event ─────────────────────────────────────────────────

  /** The seqs of (before, lost] that none of the batches carried. */
  function NeverArrived(before: int, lost: int, bs: seq<DecodedBatch>): set<int> {
    set q | before < q <= lost && q !in AllSeqs(bs)
  }

  /** The pointer the next batch meets; a log it begins stands just below its first seq. */
  function PointerBefore(bs: seq<DecodedBatch>, b: DecodedBatch): int {
    if bs == [] then Max(b.header.firstSeq - 1, 0) else Closed(bs)
  }

  /** A loss event as it should be: it counts a range exactly when it can, and then by what never arrived. */
  ghost predicate LossIs(l: LossRecord, bs: seq<DecodedBatch>, b: DecodedBatch, key: LogKey, nowUnixS: int) {
    var before, lost := PointerBefore(bs, b), b.header.lostThrough;
    && l.key == key && l.throughSeq == lost && l.receivedUnixS == nowUnixS
    && (l.fromSeq.Some? <==> lost > before) && (l.missing.Some? <==> lost > before)
    && (lost > before ==> l.fromSeq.value == before + 1 && l.missing.value == |NeverArrived(before, lost, bs + [b])|)
  }

  /**
   * The loss event of the next batch, whatever came before: there is one exactly
   * when more is reported lost than was closed, and its count is of the seqs that
   * no batch so far, nor this one, has carried.
   */
  lemma LossIsExact(bs: seq<DecodedBatch>, b: DecodedBatch, key: LogKey, nowUnixS: int)
    ensures var loss := LossOf(After(bs), key, b, nowUnixS);
            && (loss.Some? <==> b.header.lostThrough > Closed(bs))
            && (loss.Some? ==> LossIs(loss.value, bs, b, key, nowUnixS))
  {
    hide After, Closed, Range, SeqNos;
    WhenALossIsRecorded(bs, b, key, nowUnixS);
    StateBefore(bs, b);
    var before, lost := PointerBefore(bs, b), b.header.lostThrough;
    assert Range(before + 1, lost) - AllSeqs(bs) - SeqNos(b.samples) == NeverArrived(before, lost, bs + [b]) by {
      AllSeqsNext(bs, b);
    }
    ClosedIsNat(bs);
  }

  lemma ClosedIsNat(bs: seq<DecodedBatch>)
    ensures Closed(bs) >= 0
  {
    ThroughIsClosed(bs);
  }

  lemma AllSeqsNext(bs: seq<DecodedBatch>, b: DecodedBatch)
    ensures AllSeqs(bs + [b]) == AllSeqs(bs) + SeqNos(b.samples)
  {
    assert (bs + [b])[..|bs|] == bs;
  }

  /** What the next batch finds held, and where it finds the pointer. */
  lemma StateBefore(bs: seq<DecodedBatch>, b: DecodedBatch)
    ensures SeenOf(After(bs)) == AllSeqs(bs) && ThroughBefore(After(bs), b.header) == PointerBefore(bs, b)
    ensures After(bs).Some? <==> bs != []
  {
    ThroughIsClosed(bs);
    if bs != [] {
      AfterInClosedForm(bs);
    }
  }

  // ── The samples ────────────────────────────────────────────────────

  /** Sample i is the first in the batch with its seq, and no batch before carried that seq. */
  ghost predicate IsNew(samples: seq<BatchSample>, held: set<int>, i: int) {
    && 0 <= i < |samples| && samples[i].seqNo !in held
    && forall j :: 0 <= j < i ==> samples[j].seqNo != samples[i].seqNo
  }

  ghost predicate Ascending(at: seq<nat>) {
    forall i, j :: 0 <= i < j < |at| ==> at[i] < at[j]
  }

  /** at lists, in order, the places of the new samples. */
  ghost predicate ListsNew(at: seq<nat>, samples: seq<BatchSample>, held: set<int>) {
    Ascending(at) && forall i: nat :: i in at <==> IsNew(samples, held, i)
  }

  lemma LastIsNew(samples: seq<BatchSample>, held: set<int>)
    requires samples != []
    ensures var n := |samples| - 1;
            IsNew(samples, held, n)
            <==> samples[n].seqNo !in held && samples[n].seqNo !in SeqNos(samples[..n])
  {
    var n := |samples| - 1;
    assert forall j :: 0 <= j < n ==> samples[..n][j] == samples[j] && samples[j] in samples[..n];
  }

  lemma {:induction false} FreshIsFirst(samples: seq<BatchSample>, held: set<int>) returns (at: seq<nat>)
    ensures ListsNew(at, samples, held) && |at| == |Fresh(samples, held)|
    ensures forall k :: 0 <= k < |at| ==> at[k] < |samples| && Fresh(samples, held)[k] == samples[at[k]]
  {
    if samples == [] {
      at := [];
    } else {
      var n := |samples| - 1;
      var pre := samples[..n];
      at := FreshIsFirst(pre, held);
      assert forall i :: 0 <= i < n ==> (IsNew(pre, held, i) <==> IsNew(samples, held, i));
      LastIsNew(samples, held);
      if IsNew(samples, held, n) {
        at := at + [n];
      }
    }
  }

  /** The record holds everything the batch says of the sample, and the time its rule gives, if one applies. */
  ghost predicate Tells(r: SampleRecord, key: LogKey, h: BatchHeader, s: BatchSample, nowUnixS: int) {
    && r.key == key && r.seqNo == s.seqNo && r.bootId == h.bootId && r.uptimeS == s.uptimeS
    && r.centiC == s.centiC && r.flags == s.flags
    && r.policyMinCenti == h.policyMinCenti && r.policyMaxCenti == h.policyMaxCenti && r.receivedUnixS == nowUnixS
    && (r.tUnix.Some? <==> !IsLost(s.flags) && (h.bootId == h.bootNow || h.bootEpochS != 0))
    && (r.tUnix.None? <==> r.anchor == Unplaced)
    && (r.anchor == Receipt ==> h.bootId == h.bootNow && nowUnixS - r.tUnix.value == h.uptimeNowS - s.uptimeS)
    && (r.anchor == Epoch ==> h.bootId != h.bootNow && r.tUnix.value - s.uptimeS == h.bootEpochS)
  }

  /**
   * Everything a batch writes, after any batches: a start line at first contact
   * only, then its loss event if it brings one, then the new samples in the
   * order the batch has them, each told whole.
   */
  lemma WhatABatchWrites(bs: seq<DecodedBatch>, b: DecodedBatch, key: LogKey, nowUnixS: int) returns (at: seq<nat>)
    ensures ListsNew(at, b.samples, AllSeqs(bs))
    ensures var j := JournalOf(After(bs), key, b, nowUnixS);
            var start := if bs == [] then 1 else 0;
            var loss := if b.header.lostThrough > Closed(bs) then 1 else 0;
            && |j| == start + loss + |at|
            && (start == 1 ==> j[0] == StartLine(key, b.header.firstSeq, nowUnixS))
            && (loss == 1 ==> j[start].LossLine? && LossIs(j[start].loss, bs, b, key, nowUnixS))
            && var told := j[start + loss..];
               forall k :: 0 <= k < |at| ==>
                 && at[k] < |b.samples| && told[k].SampleLine?
                 && Tells(told[k].sample, key, b.header, b.samples[at[k]], nowUnixS)
  {
    hide After, Closed, Fresh, LossIs, Tells, ListsNew, LossOf, RecordOf, SampleLines, NewRecords, JournalOf;
    StateBefore(bs, b);
    LossIsExact(bs, b, key, nowUnixS);
    OpeningLines(After(bs), key, b, nowUnixS);
    at := SamplesAreTold(bs, b, key, nowUnixS);
  }

  lemma SamplesAreTold(bs: seq<DecodedBatch>, b: DecodedBatch, key: LogKey, nowUnixS: int) returns (at: seq<nat>)
    ensures ListsNew(at, b.samples, AllSeqs(bs))
    ensures var told := SampleLines(NewRecords(After(bs), key, b, nowUnixS));
            && |told| == |at|
            && forall k :: 0 <= k < |at| ==>
                 && at[k] < |b.samples| && told[k].SampleLine?
                 && Tells(told[k].sample, key, b.header, b.samples[at[k]], nowUnixS)
  {
    hide After, Fresh, Tells, ListsNew, RecordOf;
    StateBefore(bs, b);
    at := FreshIsFirst(b.samples, AllSeqs(bs));
    var told := SampleLines(NewRecords(After(bs), key, b, nowUnixS));
    forall k | 0 <= k < |at|
      ensures told[k].SampleLine? && Tells(told[k].sample, key, b.header, b.samples[at[k]], nowUnixS)
    {
      RecordTells(key, b.header, nowUnixS, b.samples[at[k]]);
    }
  }

  /** The lines before the samples, and the samples after them. */
  lemma OpeningLines(prev: Option<LogState>, key: LogKey, b: DecodedBatch, nowUnixS: int)
    ensures var j, told := JournalOf(prev, key, b, nowUnixS), SampleLines(NewRecords(prev, key, b, nowUnixS));
            var start := if prev.None? then 1 else 0;
            var loss := if LossOf(prev, key, b, nowUnixS).Some? then 1 else 0;
            && |j| == start + loss + |told| && j[start + loss..] == told
            && (start == 1 ==> j[0] == StartLine(key, b.header.firstSeq, nowUnixS))
            && (loss == 1 ==> j[start] == LossLine(LossOf(prev, key, b, nowUnixS).value))
  {
    hide LossOf, NewRecords, SampleLines;
    ThreeParts(StartLines(prev, key, b, nowUnixS), LossLines(LossOf(prev, key, b, nowUnixS)),
               SampleLines(NewRecords(prev, key, b, nowUnixS)));
  }

  lemma ThreeParts(x: seq<JournalRecord>, y: seq<JournalRecord>, z: seq<JournalRecord>)
    ensures var j := x + y + z;
            && |j| == |x| + |y| + |z| && j[|x| + |y|..] == z
            && (|x| > 0 ==> j[0] == x[0]) && (|y| > 0 ==> j[|x|] == y[0])
  {
  }

  lemma RecordTells(key: LogKey, h: BatchHeader, nowUnixS: int, s: BatchSample)
    ensures Tells(RecordOf(key, h, nowUnixS, s), key, h, s, nowUnixS)
  {
  }

  /** What ingesting the batch answers: its new samples and repeats, the pointer's way, and the ack. */
  lemma WhatABatchAnswers(bs: seq<DecodedBatch>, b: DecodedBatch, key: LogKey, nowUnixS: int) returns (at: seq<nat>)
    ensures ListsNew(at, b.samples, AllSeqs(bs))
    ensures var r := ResultOf(After(bs), key, b, nowUnixS);
            && r.key == key && (r.firstContact <==> bs == []) && |r.newSamples| == |at|
            && (forall k :: 0 <= k < |at| ==>
                  at[k] < |b.samples| && Tells(r.newSamples[k], key, b.header, b.samples[at[k]], nowUnixS))
            && r.duplicates == |b.samples| - |at|
            && r.previousThrough == (if bs == [] then None else Some(Closed(bs)))
            && r.through == Closed(bs + [b])
            && r.ack == AckToSend(key.mac, Closed(bs + [b]), Min(nowUnixS, U32_MAX))
  {
    hide After, Closed, Fresh, Tells, ListsNew, NextLog;
    StateBefore(bs, b);
    ThroughIsClosed(bs);
    ThroughIsClosed(bs + [b]);
    EventStep(bs, b, key);
    at := FreshIsFirst(b.samples, AllSeqs(bs));
    forall k | 0 <= k < |at|
      ensures Tells(RecordOf(key, b.header, nowUnixS, b.samples[at[k]]), key, b.header, b.samples[at[k]], nowUnixS)
    {
      RecordTells(key, b.header, nowUnixS, b.samples[at[k]]);
    }
  }

  // ── Conservation ───────────────────────────────────────────────────

  /** How many samples a run of batches journals. */
  function Journaled(bs: seq<DecodedBatch>, key: LogKey): nat {
    if bs == [] then 0 else
      var n := |bs| - 1;
      Journaled(bs[..n], key) + |ResultOf(After(bs[..n]), key, bs[n], 0).newSamples|
  }

  lemma {:induction false} DistinctCount(samples: seq<BatchSample>)
    requires Distinct(samples)
    ensures |SeqNos(samples)| == |samples|
  {
    if samples != [] {
      var n := |samples| - 1;
      DistinctCount(samples[..n]);
      assert samples == samples[..n] + [samples[n]];
      assert SeqNos(samples) == SeqNos(samples[..n]) + {samples[n].seqNo};
    }
  }

  lemma NewCount(bs: seq<DecodedBatch>, b: DecodedBatch, key: LogKey)
    ensures |ResultOf(After(bs), key, b, 0).newSamples| == |SeqNos(b.samples) - AllSeqs(bs)|
  {
    hide After, Fresh, SeqNos, NextLog;
    StateBefore(bs, b);
    FreshFacts(b.samples, AllSeqs(bs));
    DistinctCount(Fresh(b.samples, AllSeqs(bs)));
  }

  /** Each seq that ever arrives is journaled once: as many samples as different seqs. */
  lemma {:induction false} EachSeqIsJournaledOnce(bs: seq<DecodedBatch>, key: LogKey)
    ensures Journaled(bs, key) == |AllSeqs(bs)|
  {
    hide ResultOf, After, SeqNos;
    if bs != [] {
      var n := |bs| - 1;
      var pre, more := bs[..n], SeqNos(bs[n].samples) - AllSeqs(bs[..n]);
      EachSeqIsJournaledOnce(pre, key);
      NewCount(pre, bs[n], key);
      assert AllSeqs(bs) == AllSeqs(pre) + more;
      assert |AllSeqs(pre) + more| == |AllSeqs(pre)| + |more|;
    }
  }
}
