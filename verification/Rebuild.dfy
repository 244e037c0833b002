/** Rebuilding every log from the journal: store.ts's rebuild. */
module Rebuild {
  import opened Prelude
  import opened Closure
  import opened Records
  import opened Plan

  // ── Rebuilding from the journal ────────────────────────────────────

  datatype Acc = Acc(start: Option<int>, firstSampleSeq: Option<int>, lossMax: int, seen: set<int>, maxSeq: int)

  const EMPTY_ACC := Acc(None, None, 0, {}, 0)

  /** One readable record taken into a log's accumulator. */
  function Take(acc: Option<Acc>, rec: JournalRecord): Acc {
    var a := if acc.Some? then acc.value else EMPTY_ACC;
    match rec
    case StartLine(_, firstSeq, _) => if a.start.None? then a.(start := Some(Max(firstSeq - 1, 0))) else a
    case SampleLine(s) =>
      a.(seen := a.seen + {s.seqNo},
         firstSampleSeq := if a.firstSampleSeq.None? then Some(s.seqNo) else a.firstSampleSeq,
         maxSeq := Max(a.maxSeq, s.seqNo))
    case LossLine(l) => a.(lossMax := Max(a.lossMax, l.throughSeq))
  }

  /** What the lines say about one log; None when no readable line names it. */
  function Fold(lines: seq<Line>, key: LogKey): Option<Acc> {
    if lines == [] then None else
      var before := Fold(lines[..|lines| - 1], key);
      var rec := AsRecord(lines[|lines| - 1]);
      if rec.Some? && rec.value.Key() == key then Some(Take(before, rec.value)) else before
  }

  /** Where a log begins: its start line, else just below its first sample, else its greatest loss. */
  function StartOf(a: Acc): int {
    if a.start.Some? then a.start.value
    else if a.firstSampleSeq.Some? then a.firstSampleSeq.value - 1
    else a.lossMax
  }

  /** The log an accumulator stands for: one closure over everything it collected. */
  function Finish(a: Acc): LogState {
    LogState(Close(Max(StartOf(a), a.lossMax), a.seen), a.seen, a.maxSeq)
  }

  function FinishAny(a: Option<Acc>): Option<LogState> {
    if a.Some? then Some(Finish(a.value)) else None
  }

  /** What the lines say about one log. */
  function Rebuilt(lines: seq<Line>, key: LogKey): Option<LogState> {
    FinishAny(Fold(lines, key))
  }

  /** Every log some readable line names. */
  function KeysOf(lines: seq<Line>): set<LogKey> {
    if lines == [] then {} else
      var rec := AsRecord(lines[|lines| - 1]);
      KeysOf(lines[..|lines| - 1]) + if rec.Some? then {rec.value.Key()} else {}
  }

  lemma {:induction false} KeysAreFolded(lines: seq<Line>, key: LogKey)
    ensures key in KeysOf(lines) <==> Fold(lines, key).Some?
    ensures key in KeysOf(lines) ==> IsLogKey(key)
  {
    if lines != [] {
      KeysAreFolded(lines[..|lines| - 1], key);
    }
  }

  /** The logs a start-up rebuilds. */
  function RebuildAll(lines: seq<Line>): map<LogKey, LogState> {
    map k | k in KeysOf(lines) && Rebuilt(lines, k).Some? :: Rebuilt(lines, k).value
  }

  /** Non-blank lines that are no readable record. */
  function Skipped(lines: seq<Line>): nat {
    if lines == [] then 0 else
      var last := lines[|lines| - 1];
      Skipped(lines[..|lines| - 1]) + if !last.Blank? && AsRecord(last).None? then 1 else 0
  }

  lemma InhabitedKeys(s: set<LogKey>)
    requires s != {}
    ensures exists k :: k in s
  {
    assert (forall k :: k !in s) ==> s == {};
  }

  /** The lines, one by one, into an accumulator per log. */
  method FoldLines(lines: seq<Line>) returns (accs: map<LogKey, Acc>, skipped: nat)
    ensures accs.Keys == KeysOf(lines)
    ensures forall k :: (if k in accs then Some(accs[k]) else None) == Fold(lines, k)
    ensures skipped == Skipped(lines)
  {
    accs, skipped := map[], 0;
    for i := 0 to |lines|
      invariant accs.Keys == KeysOf(lines[..i])
      invariant forall k :: (if k in accs then Some(accs[k]) else None) == Fold(lines[..i], k)
      invariant skipped == Skipped(lines[..i])
    {
      assert lines[..i + 1][..i] == lines[..i];
      var rec := AsRecord(lines[i]);
      if rec.Some? {
        var key := rec.value.Key();
        accs := accs[key := Take(if key in accs then Some(accs[key]) else None, rec.value)];
      } else if !lines[i].Blank? {
        skipped := skipped + 1;
      }
    }
    assert lines[..|lines|] == lines;
  }

  method FinishLog(a: Acc) returns (st: LogState)
    ensures st == Finish(a)
  {
    var start := if a.start.Some? then a.start.value
                 else if a.firstSampleSeq.Some? then a.firstSampleSeq.value - 1
                 else a.lossMax;
    var through := Advance(Max(start, a.lossMax), a.seen, {});
    assert a.seen + {} == a.seen;
    st := LogState(through, a.seen, a.maxSeq);
  }

  method RebuildLogs(lines: seq<Line>) returns (logs: map<LogKey, LogState>, skipped: nat)
    ensures logs == RebuildAll(lines)
    ensures skipped == Skipped(lines)
  {
    hide Finish, Fold, Skipped, KeysOf;
    var accs;
    accs, skipped := FoldLines(lines);
    logs := map[];
    var rest := accs.Keys;
    while rest != {}
      invariant rest <= accs.Keys
      invariant logs.Keys == accs.Keys - rest
      invariant forall k :: k in logs ==> logs[k] == Finish(accs[k])
      decreases |rest|
    {
      InhabitedKeys(rest);
      var key :| key in rest;
      var st := FinishLog(accs[key]);
      logs := logs[key := st];
      rest := rest - {key};
    }
    assert logs == RebuildAll(lines);
  }

  // ── What any file rebuilds to ──────────────────────────────────────

  /** Line i is readable and names this log. */
  predicate Names(lines: seq<Line>, key: LogKey, i: int) {
    0 <= i < |lines| && AsRecord(lines[i]).Some? && lines[i].rec.Key() == key
  }

  predicate NamesStart(lines: seq<Line>, key: LogKey, i: int) {
    Names(lines, key, i) && lines[i].rec.StartLine?
  }

  predicate NamesSample(lines: seq<Line>, key: LogKey, i: int) {
    Names(lines, key, i) && lines[i].rec.SampleLine?
  }

  predicate NamesLoss(lines: seq<Line>, key: LogKey, i: int) {
    Names(lines, key, i) && lines[i].rec.LossLine?
  }

  /** lost is the greatest loss the file reports for the log; 0 if it reports none. */
  ghost predicate IsGreatestLoss(lost: int, lines: seq<Line>, key: LogKey) {
    && lost >= 0 && (forall i :: NamesLoss(lines, key, i) ==> lines[i].rec.loss.throughSeq <= lost)
    && (lost == 0 || exists i :: NamesLoss(lines, key, i) && lines[i].rec.loss.throughSeq == lost)
  }

  ghost predicate FirstStartAt(lines: seq<Line>, key: LogKey, i: int) {
    NamesStart(lines, key, i) && forall j :: 0 <= j < i ==> !NamesStart(lines, key, j)
  }

  /** start is what the log's first start line says; None if it has none. */
  ghost predicate IsFirstStart(start: Option<int>, lines: seq<Line>, key: LogKey) {
    && ((forall i :: !NamesStart(lines, key, i)) ==> start.None?)
    && (forall i :: FirstStartAt(lines, key, i) ==> start == Some(Max(lines[i].rec.firstSeq - 1, 0)))
  }

  ghost predicate FirstSampleAt(lines: seq<Line>, key: LogKey, i: int) {
    NamesSample(lines, key, i) && forall j :: 0 <= j < i ==> !NamesSample(lines, key, j)
  }

  /** first is the seq of the log's first sample line; None if it has none. */
  ghost predicate IsFirstSample(first: Option<int>, lines: seq<Line>, key: LogKey) {
    && ((forall i :: !NamesSample(lines, key, i)) ==> first.None?)
    && (forall i :: FirstSampleAt(lines, key, i) ==> first == Some(lines[i].rec.sample.seqNo))
  }

  /** seen is every seq some sample line of the log has. */
  ghost predicate IsHeld(seen: set<int>, lines: seq<Line>, key: LogKey) {
    && (forall i :: NamesSample(lines, key, i) ==> lines[i].rec.sample.seqNo in seen)
    && (forall q :: q in seen ==> exists i :: NamesSample(lines, key, i) && lines[i].rec.sample.seqNo == q)
  }

  function AccOf(lines: seq<Line>, key: LogKey): Acc {
    var acc := Fold(lines, key);
    if acc.Some? then acc.value else EMPTY_ACC
  }

  lemma AccStep(lines: seq<Line>, key: LogKey)
    requires lines != []
    ensures var n := |lines| - 1;
            && AccOf(lines, key) == (if Names(lines, key, n) then Take(Some(AccOf(lines[..n], key)), lines[n].rec)
                                     else AccOf(lines[..n], key))
            && forall i :: Names(lines[..n], key, i) <==> i < n && Names(lines, key, i)
  {
  }

  lemma {:induction false} LossIsGreatest(lines: seq<Line>, key: LogKey)
    ensures IsGreatestLoss(AccOf(lines, key).lossMax, lines, key)
  {
    if lines != [] {
      var n := |lines| - 1;
      AccStep(lines, key);
      LossIsGreatest(lines[..n], key);
      var before, after := AccOf(lines[..n], key).lossMax, AccOf(lines, key).lossMax;
      hide AccOf, Names, Fold;
      if after == before != 0 {
        var i :| NamesLoss(lines[..n], key, i) && lines[..n][i].rec.loss.throughSeq == before;
        assert NamesLoss(lines, key, i);
      } else if after != 0 {
        assert NamesLoss(lines, key, n);
      }
      forall i | NamesLoss(lines, key, i) ensures lines[i].rec.loss.throughSeq <= after {
        assert i < n ==> NamesLoss(lines[..n], key, i);
      }
    }
  }

  lemma {:induction false} StartIsFirst(lines: seq<Line>, key: LogKey)
    ensures IsFirstStart(AccOf(lines, key).start, lines, key)
    ensures AccOf(lines, key).start.None? <==> forall i :: !NamesStart(lines, key, i)
  {
    if lines != [] {
      var n := |lines| - 1;
      var pre := lines[..n];
      AccStep(lines, key);
      StartIsFirst(pre, key);
      assert forall i :: NamesStart(pre, key, i) <==> i < n && NamesStart(lines, key, i);
      hide AccOf, Fold;
      forall i | FirstStartAt(lines, key, i)
        ensures AccOf(lines, key).start == Some(Max(lines[i].rec.firstSeq - 1, 0))
      {
        if i < n {
          assert FirstStartAt(pre, key, i) && pre[i] == lines[i];
        } else {
          assert forall j :: NamesStart(pre, key, j) ==> 0 <= j < i && NamesStart(lines, key, j);
        }
      }
      assert AccOf(lines, key).start != AccOf(pre, key).start ==> NamesStart(lines, key, n);
      if exists j :: NamesStart(pre, key, j) {
        var k :| NamesStart(pre, key, k);
        assert NamesStart(lines, key, k);
      }
    }
  }

  lemma {:induction false} SampleIsFirst(lines: seq<Line>, key: LogKey)
    ensures IsFirstSample(AccOf(lines, key).firstSampleSeq, lines, key)
    ensures AccOf(lines, key).firstSampleSeq.None? <==> forall i :: !NamesSample(lines, key, i)
  {
    if lines != [] {
      var n := |lines| - 1;
      var pre := lines[..n];
      AccStep(lines, key);
      SampleIsFirst(pre, key);
      assert forall i :: NamesSample(pre, key, i) <==> i < n && NamesSample(lines, key, i);
      hide AccOf, Fold;
      forall i | FirstSampleAt(lines, key, i)
        ensures AccOf(lines, key).firstSampleSeq == Some(lines[i].rec.sample.seqNo)
      {
        if i < n {
          assert FirstSampleAt(pre, key, i) && pre[i] == lines[i];
        } else {
          assert forall j :: NamesSample(pre, key, j) ==> 0 <= j < i && NamesSample(lines, key, j);
        }
      }
      assert AccOf(lines, key).firstSampleSeq != AccOf(pre, key).firstSampleSeq ==> NamesSample(lines, key, n);
      if exists j :: NamesSample(pre, key, j) {
        var k :| NamesSample(pre, key, k);
        assert NamesSample(lines, key, k);
      }
    }
  }

  lemma {:induction false} HeldIsNamed(lines: seq<Line>, key: LogKey)
    ensures var a := AccOf(lines, key);
            && IsHeld(a.seen, lines, key)
            && a.maxSeq >= 0 && (forall q :: q in a.seen ==> q <= a.maxSeq) && (a.maxSeq == 0 || a.maxSeq in a.seen)
  {
    if lines != [] {
      var n := |lines| - 1;
      var pre := lines[..n];
      AccStep(lines, key);
      HeldIsNamed(pre, key);
      assert forall i :: NamesSample(pre, key, i) <==> i < n && NamesSample(lines, key, i);
      hide AccOf, Fold;
    }
  }

  /**
   * What a start-up makes of a log, whatever the file holds: every seq of its
   * sample lines, and one closure over them from the greatest loss or from where
   * the log begins: at its first start line, else just below its first sample.
   */
  lemma RebuiltIsExact(lines: seq<Line>, key: LogKey) returns (start: Option<int>, first: Option<int>, lost: int)
    ensures IsFirstStart(start, lines, key) && IsFirstSample(first, lines, key) && IsGreatestLoss(lost, lines, key)
    ensures Rebuilt(lines, key).None? <==> forall i :: !Names(lines, key, i)
    ensures Rebuilt(lines, key).Some? ==>
              var st := Rebuilt(lines, key).value;
              var base := if start.Some? then start.value else if first.Some? then first.value - 1 else lost;
              && st.through == Close(Max(base, lost), st.seen) && IsHeld(st.seen, lines, key)
              && st.maxSeq >= 0 && (forall q :: q in st.seen ==> q <= st.maxSeq)
              && (st.maxSeq == 0 || st.maxSeq in st.seen)
  {
    var a := AccOf(lines, key);
    StartIsFirst(lines, key);
    SampleIsFirst(lines, key);
    LossIsGreatest(lines, key);
    HeldIsNamed(lines, key);
    FoldNames(lines, key);
    hide Fold, IsFirstStart, IsFirstSample, IsGreatestLoss, IsHeld, Names;
    return a.start, a.firstSampleSeq, a.lossMax;
  }

  lemma {:induction false} FoldNames(lines: seq<Line>, key: LogKey)
    ensures Fold(lines, key).None? <==> forall i :: !Names(lines, key, i)
  {
    if lines != [] {
      var n := |lines| - 1;
      AccStep(lines, key);
      FoldNames(lines[..n], key);
      assert Fold(lines, key).None? <==> Fold(lines[..n], key).None? && !Names(lines, key, n);
      hide Fold, AccOf;
    }
  }

  /** Skipped counts the lines that hold something other than a readable record. */
  lemma {:induction false} SkippedIsCounted(lines: seq<Line>)
    ensures Skipped(lines) == |set i | 0 <= i < |lines| && !lines[i].Blank? && AsRecord(lines[i]).None?|
  {
    if lines != [] {
      var n := |lines| - 1;
      SkippedIsCounted(lines[..n]);
      var before := set i | 0 <= i < n && !lines[..n][i].Blank? && AsRecord(lines[..n][i]).None?;
      var after := set i | 0 <= i < |lines| && !lines[i].Blank? && AsRecord(lines[i]).None?;
      assert after == before + if !lines[n].Blank? && AsRecord(lines[n]).None? then {n} else {};
    }
  }

  // ── Live logs against the journal ──────────────────────────────────

  function Look(logs: map<LogKey, LogState>, key: LogKey): Option<LogState> {
    if key in logs then Some(logs[key]) else None
  }

  /** A live log is what the journal rebuilds to, and its start line is in the journal. */
  ghost predicate Mirror(live: Option<LogState>, acc: Option<Acc>) {
    live == FinishAny(acc) && (acc.Some? ==> acc.value.start.Some?)
  }

  ghost predicate Mirrors(logs: map<LogKey, LogState>, journal: seq<Line>) {
    forall k :: Mirror(Look(logs, k), Fold(journal, k))
  }
}
