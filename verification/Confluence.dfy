/** What one log's state is after any run of batches: order and repetition do not matter. */
module Confluence {
  import opened Prelude
  import opened Closure
  import opened Records
  import opened Plan

  /** One log after a run of batches, oldest first. */
  function After(bs: seq<DecodedBatch>): Option<LogState> {
    if bs == [] then None else Some(NextLog(After(bs[..|bs| - 1]), bs[|bs| - 1]))
  }

  /** Every seq some batch carried. */
  function AllSeqs(bs: seq<DecodedBatch>): set<int> {
    if bs == [] then {} else AllSeqs(bs[..|bs| - 1]) + SeqNos(bs[|bs| - 1].samples)
  }

  lemma {:induction false} InAllSeqs(bs: seq<DecodedBatch>, b: DecodedBatch)
    requires b in bs
    ensures SeqNos(b.samples) <= AllSeqs(bs)
  {
    var n := |bs| - 1;
    if b != bs[n] {
      assert b in bs[..n];
      InAllSeqs(bs[..n], b);
    }
  }

  lemma {:induction false} AllSeqsGrows(bs: seq<DecodedBatch>, cs: seq<DecodedBatch>)
    requires forall b :: b in bs ==> b in cs
    ensures AllSeqs(bs) <= AllSeqs(cs)
  {
    if bs != [] {
      AllSeqsGrows(bs[..|bs| - 1], cs);
      InAllSeqs(cs, bs[|bs| - 1]);
    }
  }

  lemma MaxLostGrows(bs: seq<DecodedBatch>, cs: seq<DecodedBatch>)
    requires forall b :: b in bs ==> b in cs
    ensures MaxLost(bs) <= MaxLost(cs)
  {
  }

  /** The greatest lost_through any of the batches reported; 0 when there are none. */
  function MaxLost(bs: seq<DecodedBatch>): (m: int)
    ensures m >= 0 && forall b :: b in bs ==> b.header.lostThrough <= m
    ensures m == 0 || exists b :: b in bs && b.header.lostThrough == m
  {
    if bs == [] then 0 else
      var n := |bs| - 1;
      assert bs == bs[..n] + [bs[n]];
      Max(MaxLost(bs[..n]), bs[n].header.lostThrough)
  }

  /** m is the greatest of 0 and the members of held. */
  ghost predicate IsHighest(m: int, held: set<int>) {
    m >= 0 && (forall q :: q in held ==> q <= m) && (m == 0 || m in held)
  }

  /** A log's state as one closure from its start and its greatest loss over all its seqs. */
  ghost predicate InClosedForm(st: LogState, start: int, lost: int, seqs: set<int>) {
    && st.seen == seqs
    && st.through == Close(Max(start, lost), seqs)
    && IsHighest(st.maxSeq, seqs)
  }

  lemma ClosedFormFirst(b: DecodedBatch)
    ensures InClosedForm(NextLog(None, b), Max(b.header.firstSeq - 1, 0), Max(0, b.header.lostThrough),
        SeqNos(b.samples))
  {
    HighestStep(None, b);
    assert {} + SeqNos(b.samples) == SeqNos(b.samples);
  }

  lemma ClosedFormStep(prev: LogState, start: int, lost: int, seqs: set<int>, b: DecodedBatch)
    requires InClosedForm(prev, start, lost, seqs)
    ensures InClosedForm(NextLog(Some(prev), b), start, Max(lost, b.header.lostThrough), seqs + SeqNos(b.samples))
  {
    HighestStep(Some(prev), b);
    CloseInSteps(Max(start, lost), seqs, b.header.lostThrough, seqs + SeqNos(b.samples));
  }

  /**
   * The closed form: after any batches at all, honest or not, `through` is one
   * closure from the log's start and the greatest loss reported, over all the
   * seqs that ever arrived.
   */
  lemma {:induction false} AfterInClosedForm(bs: seq<DecodedBatch>)
    requires bs != []
    ensures InClosedForm(After(bs).value, Max(bs[0].header.firstSeq - 1, 0), MaxLost(bs), AllSeqs(bs))
  {
    var n := |bs| - 1;
    var b, pre := bs[n], bs[..n];
    if n == 0 {
      ClosedFormFirst(b);
      assert {} + SeqNos(b.samples) == SeqNos(b.samples);
    } else {
      AfterInClosedForm(pre);
      ClosedFormStep(After(pre).value, Max(bs[0].header.firstSeq - 1, 0), MaxLost(pre), AllSeqs(pre), b);
    }
  }

  lemma HighestStep(prev: Option<LogState>, b: DecodedBatch)
    requires prev.Some? ==> IsHighest(prev.value.maxSeq, prev.value.seen)
    ensures IsHighest(NextLog(prev, b).maxSeq, NextLog(prev, b).seen)
  {
    var unseen := Fresh(b.samples, SeenOf(prev));
    FreshFacts(b.samples, SeenOf(prev));
    forall q | q in SeqNos(unseen) ensures q <= NextLog(prev, b).maxSeq {
      var s :| s in unseen && s.seqNo == q;
    }
    assert NextLog(prev, b).seen == SeenOf(prev) + SeqNos(unseen);
  }

  lemma ClosedFormIsUnique(s: LogState, t: LogState, start: int, lost: int, seqs: set<int>)
    requires InClosedForm(s, start, lost, seqs) && InClosedForm(t, start, lost, seqs)
    ensures s == t
  {
  }

  /** Any reordering and duplication of the batches after the first leaves the log the same. */
  lemma OrderAndRepetitionDoNotMatter(bs: seq<DecodedBatch>, cs: seq<DecodedBatch>)
    requires bs != [] && cs != [] && bs[0] == cs[0]
    requires forall b :: b in bs <==> b in cs
    ensures After(bs) == After(cs)
  {
    AfterInClosedForm(bs);
    AfterInClosedForm(cs);
    AllSeqsGrows(bs, cs);
    AllSeqsGrows(cs, bs);
    MaxLostGrows(bs, cs);
    MaxLostGrows(cs, bs);
    ClosedFormIsUnique(After(bs).value, After(cs).value, Max(bs[0].header.firstSeq - 1, 0), MaxLost(bs), AllSeqs(bs));
  }

  /** The pointer never moves back, and nothing held is ever dropped. */
  lemma NextMovesForward(prev: Option<LogState>, b: DecodedBatch)
    ensures prev.Some? ==> prev.value.through <= NextLog(prev, b).through && prev.value.seen <= NextLog(prev, b).seen
  {
  }

  /** Whatever decodable batches arrive, including seqs that wrap, the pointer fits the ack's 32 bits. */
  lemma {:induction false} AcksFitTheWire(bs: seq<DecodedBatch>)
    requires bs != [] && forall b :: b in bs ==> Decoded(b)
    ensures IsU32(After(bs).value.through)
  {
    AfterInClosedForm(bs);
    assert bs[0] in bs;
    AllSeqsFit(bs);
    var base := Max(Max(bs[0].header.firstSeq - 1, 0), MaxLost(bs));
    CloseStops(base, AllSeqs(bs));
    assert base < Close(base, AllSeqs(bs)) ==> Close(base, AllSeqs(bs)) in AllSeqs(bs);
  }

  lemma {:induction false} AllSeqsFit(bs: seq<DecodedBatch>)
    requires forall b :: b in bs ==> Decoded(b)
    ensures forall q :: q in AllSeqs(bs) ==> IsU32(q)
  {
    if bs != [] {
      AllSeqsFit(bs[..|bs| - 1]);
      assert Decoded(bs[|bs| - 1]);
    }
  }

  /** A log the bridge already knows keeps its place when an older batch of it comes again. */
  lemma RedeliveryChangesNothing(bs: seq<DecodedBatch>, b: DecodedBatch)
    requires b in bs
    ensures After(bs + [b]) == After(bs)
  {
    assert (bs + [b])[0] == bs[0];
    OrderAndRepetitionDoNotMatter(bs + [b], bs);
  }

  /**
   * heldAbove is reported exactly when something is held past a gap, and is then
   * the highest such seq; the ack's lower value asks for the seq just above it.
   */
  lemma {:induction false} HeldAboveIsPastAGap(bs: seq<DecodedBatch>, b: DecodedBatch, key: LogKey, nowUnixS: int)
    requires forall x :: x in bs + [b] ==> Decoded(x)
    ensures var r, seen := ResultOf(After(bs), key, b, nowUnixS), NextLog(After(bs), b).seen;
            && (r.heldAbove.Some? <==> exists q :: q in seen && q > r.through)
            && (r.heldAbove.Some? ==> r.heldAbove.value in seen && forall q :: q in seen ==> q <= r.heldAbove.value)
            && r.through + 1 !in seen
  {
    hide ResultOf, NextLog, After, Close, Decoded;
    var all, next := bs + [b], NextLog(After(bs), b);
    EventStep(bs, b, key);
    AfterInClosedForm(all);
    AcksFitTheWire(all);
    CloseStops(Max(Max(all[0].header.firstSeq - 1, 0), MaxLost(all)), AllSeqs(all));
    ResultTellsTheLog(After(bs), key, b, nowUnixS);
    assert next.maxSeq > next.through ==> next.maxSeq in next.seen;
  }

  lemma ResultTellsTheLog(prev: Option<LogState>, key: LogKey, b: DecodedBatch, nowUnixS: int)
    ensures var r, next := ResultOf(prev, key, b, nowUnixS), NextLog(prev, b);
            && r.through == next.through
            && r.heldAbove == if next.maxSeq > next.through then Some(next.maxSeq) else None
  {
  }

  /** How many loss events a run of batches journals. */
  function LossEvents(bs: seq<DecodedBatch>, key: LogKey): nat {
    if bs == [] then 0 else
      var n := |bs| - 1;
      LossEvents(bs[..n], key) + if LossOf(After(bs[..n]), key, bs[n], 0).Some? then 1 else 0
  }

  /** The closed form's pointer after the batches; 0 before the first of them. */
  function Closed(bs: seq<DecodedBatch>): int {
    if bs == [] then 0
    else Close(Max(Max(bs[0].header.firstSeq - 1, 0), MaxLost(bs)), AllSeqs(bs))
  }

  lemma ThroughIsClosed(bs: seq<DecodedBatch>)
    ensures After(bs).Some? <==> bs != []
    ensures bs != [] ==> After(bs).value.through == Closed(bs) >= 0
  {
    if bs != [] {
      AfterInClosedForm(bs);
    }
  }

  /** A batch brings a loss event exactly when it reports more lost than all before it closes. */
  lemma WhenALossIsRecorded(bs: seq<DecodedBatch>, b: DecodedBatch, key: LogKey, nowUnixS: int)
    ensures LossOf(After(bs), key, b, nowUnixS).Some? <==> b.header.lostThrough > Closed(bs)
  {
    hide After, Close;
    ThroughIsClosed(bs);
  }

  lemma ClosedMovesForward(bs: seq<DecodedBatch>, b: DecodedBatch)
    ensures Closed(bs) <= Closed(bs + [b])
  {
    ThroughIsClosed(bs);
    ThroughIsClosed(bs + [b]);
    if bs == [] {
      assert Closed(bs) == 0;
    } else {
      hide Closed, Close;
      assert (bs + [b])[..|bs|] == bs;
      NextMovesForward(After(bs), b);
    }
  }

  /**
   * Two neighbouring batches leave the same log in either order, but not always
   * the same number of loss events: it differs exactly when one of them, and not
   * the other, reports a loss that only the other one, coming first, closes.
   */
  lemma LossEventsDependOnOrder(bs: seq<DecodedBatch>, b: DecodedBatch, c: DecodedBatch, key: LogKey)
    ensures var here := Closed(bs);
            LossEvents(bs + [b] + [c], key) != LossEvents(bs + [c] + [b], key)
            <==> (here < b.header.lostThrough <= Closed(bs + [c])) != (here < c.header.lostThrough <= Closed(bs + [b]))
  {
    hide Closed, LossOf, After, LossEvents, NextLog;
    ClosedMovesForward(bs, b);
    ClosedMovesForward(bs, c);
    CountStep(bs, b, key);
    CountStep(bs, c, key);
    CountStep(bs + [b], c, key);
    CountStep(bs + [c], b, key);
  }

  lemma CountStep(bs: seq<DecodedBatch>, b: DecodedBatch, key: LogKey)
    ensures LossEvents(bs + [b], key) == LossEvents(bs, key) + if b.header.lostThrough > Closed(bs) then 1 else 0
  {
    hide Closed, LossOf, After, LossEvents, NextLog;
    EventStep(bs, b, key);
    WhenALossIsRecorded(bs, b, key, 0);
  }

  /** Whichever of two reports without samples is the greater, it adds an event only when it comes second. */
  lemma LossEventsOf(l: int, m: int, key: LogKey)
    requires l > 0 && m > 0
    ensures LossEvents([Empty(0), Empty(l), Empty(m)], key) == if m > l then 2 else 1
  {
    var a, b, c := Empty(0), Empty(l), Empty(m);
    EmptyMoves(None, 0, key);
    EmptyMoves(Some(LogState(0, {}, 0)), l, key);
    EmptyMoves(Some(LogState(l, {}, 0)), m, key);
    hide Empty, NextLog, LossOf, After, LossEvents;
    StartsEmpty(key);
    EventStep([], a, key);
    EventStep([a], b, key);
    EventStep([a, b], c, key);
    assert [] + [a] == [a] && [a] + [b] == [a, b] && [a, b] + [c] == [a, b, c];
  }

  lemma StartsEmpty(key: LogKey)
    ensures After([]) == None && LossEvents([], key) == 0
  {
  }

  lemma EventStep(bs: seq<DecodedBatch>, b: DecodedBatch, key: LogKey)
    ensures After(bs + [b]) == Some(NextLog(After(bs), b))
    ensures LossEvents(bs + [b], key) == LossEvents(bs, key) + if LossOf(After(bs), key, b, 0).Some? then 1 else 0
  {
    assert (bs + [b])[..|bs|] == bs;
  }

  /** A batch with no samples that reports a loss. */
  function Empty(lost: int): DecodedBatch {
    DecodedBatch(BatchHeader(0, 0, 0, 1, 1, 1, 0, 0, lost, 60, 0, 0, 0), [])
  }

  lemma EmptyMoves(prev: Option<LogState>, lost: int, key: LogKey)
    requires lost >= 0 && (prev.Some? ==> prev.value.through >= 0 && prev.value == LogState(prev.value.through, {}, 0))
    ensures var before := if prev.Some? then prev.value.through else 0;
            && NextLog(prev, Empty(lost)) == LogState(Max(before, lost), {}, 0)
            && (LossOf(prev, key, Empty(lost), 0).Some? <==> lost > before)
  {
    assert SeqNos([]) == {};
    assert Fresh([], {}) == [];
  }
}
