/** The journal is the store: recovery after any run of deliveries, failed appends, crashes and restarts. */
module Recovery {
  import opened Prelude
  import opened Closure
  import opened Records
  import opened Plan
  import opened Confluence
  import opened Rebuild

  function TakeAll(acc: Option<Acc>, recs: seq<JournalRecord>): Option<Acc> {
    if recs == [] then acc else Some(Take(TakeAll(acc, recs[..|recs| - 1]), recs[|recs| - 1]))
  }

  /** Records of one log that its journal lines read back as. */
  ghost predicate Journaled(recs: seq<JournalRecord>, key: LogKey) {
    IsLogKey(key) && forall i :: 0 <= i < |recs| ==> recs[i].Key() == key && IsU32(recs[i].Count())
  }

  lemma {:induction false} TakeAllConcat(acc: Option<Acc>, xs: seq<JournalRecord>, ys: seq<JournalRecord>)
    ensures TakeAll(acc, xs + ys) == TakeAll(TakeAll(acc, xs), ys)
  {
    if ys == [] {
      assert xs + ys == xs;
    } else {
      var n := |ys| - 1;
      TakeAllConcat(acc, xs, ys[..n]);
      assert (xs + ys)[..|xs + ys| - 1] == xs + ys[..n];
    }
  }

  /** Appending one log's records advances that log's fold and no other's. */
  lemma {:induction false} FoldAppended(lines: seq<Line>, recs: seq<JournalRecord>, key: LogKey, k: LogKey)
    requires Journaled(recs, key)
    ensures Fold(lines + Lines(recs), k) == if k == key then TakeAll(Fold(lines, key), recs) else Fold(lines, k)
  {
    if recs == [] {
      assert lines + Lines(recs) == lines;
    } else {
      var n := |recs| - 1;
      FoldAppended(lines, recs[..n], key, k);
      var all := lines + Lines(recs);
      assert all[..|all| - 1] == lines + Lines(recs[..n]);
      assert all[|all| - 1] == Written(recs[n]);
    }
  }

  lemma FoldTorn(lines: seq<Line>, k: LogKey)
    ensures Fold(lines + [Unreadable], k) == Fold(lines, k)
  {
    assert (lines + [Unreadable])[..|lines|] == lines;
  }

  // ── One batch's records rebuild to the state it left ───────────────

  /** An accumulator with these samples taken into it. */
  ghost predicate WithSamples(r: Acc, a: Acc, samples: seq<BatchSample>) {
    && r.start == a.start && r.lossMax == a.lossMax
    && r.seen == a.seen + SeqNos(samples)
    && r.maxSeq == Highest(a.maxSeq, samples)
  }

  lemma WithOneMore(r: Acc, a: Acc, pre: seq<BatchSample>, s: BatchSample, rec: SampleRecord)
    requires WithSamples(r, a, pre) && rec.seqNo == s.seqNo
    ensures WithSamples(Take(Some(r), SampleLine(rec)), a, pre + [s])
  {
    assert SeqNos(pre + [s]) == SeqNos(pre) + {s.seqNo};
  }

  lemma {:induction false} TakeSamples(a: Acc, key: LogKey, h: BatchHeader, nowUnixS: int, samples: seq<BatchSample>)
    ensures var r := TakeAll(Some(a), SampleLines(RecordsOf(key, h, nowUnixS, samples)));
            r.Some? && WithSamples(r.value, a, samples)
  {
    if samples == [] {
      assert a.seen + SeqNos(samples) == a.seen;
    } else {
      var n := |samples| - 1;
      var recs := SampleLines(RecordsOf(key, h, nowUnixS, samples));
      assert recs[..n] == SampleLines(RecordsOf(key, h, nowUnixS, samples[..n]));
      assert recs[n] == SampleLine(RecordOf(key, h, nowUnixS, samples[n]))
          && RecordOf(key, h, nowUnixS, samples[n]).seqNo == samples[n].seqNo;
      assert samples == samples[..n] + [samples[n]];
      hide RecordsOf, RecordOf, SampleLines, WithSamples, Take;
      TakeSamples(a, key, h, nowUnixS, samples[..n]);
      WithOneMore(TakeAll(Some(a), recs[..n]).value, a, samples[..n], samples[n],
          RecordOf(key, h, nowUnixS, samples[n]));
    }
  }

  /** The accumulator once the start and loss lines of a batch are read. */
  function Opened(acc: Option<Acc>, key: LogKey, b: DecodedBatch, nowUnixS: int): Acc {
    var prev := FinishAny(acc);
    var a := if acc.Some? then acc.value else EMPTY_ACC.(start := Some(Max(b.header.firstSeq - 1, 0)));
    if LossOf(prev, key, b, nowUnixS).Some? then a.(lossMax := Max(a.lossMax, b.header.lostThrough)) else a
  }

  lemma TakeOpening(acc: Option<Acc>, key: LogKey, b: DecodedBatch, nowUnixS: int)
    ensures var prev := FinishAny(acc);
            TakeAll(acc, StartLines(prev, key, b, nowUnixS) + LossLines(LossOf(prev, key, b, nowUnixS)))
            == (if acc.None? || LossOf(prev, key, b, nowUnixS).Some? then Some(Opened(acc, key, b, nowUnixS)) else acc)
  {
    var prev := FinishAny(acc);
    var start, loss := StartLines(prev, key, b, nowUnixS), LossLines(LossOf(prev, key, b, nowUnixS));
    TakeAllConcat(acc, start, loss);
    assert start != [] ==> start[..0] == [];
    assert loss != [] ==> loss[..0] == [];
  }

  /** A batch's records in two parts: how the log opens, then the new samples. */
  lemma TakeJournal(acc: Option<Acc>, key: LogKey, b: DecodedBatch, nowUnixS: int)
    requires acc.Some? ==> acc.value.start.Some?
    ensures var prev := FinishAny(acc);
            TakeAll(acc, JournalOf(prev, key, b, nowUnixS))
            == TakeAll(Some(Opened(acc, key, b, nowUnixS)), SampleLines(NewRecords(prev, key, b, nowUnixS)))
  {
    var prev := FinishAny(acc);
    TakeOpening(acc, key, b, nowUnixS);
    TakeAllConcat(acc, StartLines(prev, key, b, nowUnixS) + LossLines(LossOf(prev, key, b, nowUnixS)),
                  SampleLines(NewRecords(prev, key, b, nowUnixS)));
  }

  /** Reading back what one batch journaled gives exactly the state planned for it. */
  lemma JournalRebuildsNext(acc: Option<Acc>, key: LogKey, b: DecodedBatch, nowUnixS: int)
    requires acc.Some? ==> acc.value.start.Some?
    ensures var r := TakeAll(acc, JournalOf(FinishAny(acc), key, b, nowUnixS));
            r.Some? && r.value.start.Some? && Finish(r.value) == NextLog(FinishAny(acc), b)
  {
    var prev := FinishAny(acc);
    var unseen := Fresh(b.samples, SeenOf(prev));
    var a := Opened(acc, key, b, nowUnixS);
    TakeJournal(acc, key, b, nowUnixS);
    TakeSamples(a, key, b.header, nowUnixS, unseen);
    FreshFacts(b.samples, SeenOf(prev));
    OpenedCloses(acc, key, b, nowUnixS);
    assert a.seen + SeqNos(unseen) == NextLog(prev, b).seen;
  }

  /** The rebuilt base and the live pointer close to the same place. */
  lemma OpenedCloses(acc: Option<Acc>, key: LogKey, b: DecodedBatch, nowUnixS: int)
    requires acc.Some? ==> acc.value.start.Some?
    ensures var prev := FinishAny(acc);
            var a := Opened(acc, key, b, nowUnixS);
            Close(Max(StartOf(a), a.lossMax), NextLog(prev, b).seen) == NextLog(prev, b).through
  {
    if acc.Some? {
      var a := acc.value;
      BasesClose(StartOf(a), a.lossMax, a.seen, b.header.lostThrough, a.seen + SeqNos(b.samples));
    }
  }

  lemma BasesClose(start: int, lossMax: int, seen: set<int>, lost: int, more: set<int>)
    requires seen <= more
    ensures var through := Close(Max(start, lossMax), seen);
            Close(Max(through, lost), more)
            == Close(Max(start, if lost > through then Max(lossMax, lost) else lossMax), more)
  {
    var base := Max(start, lossMax);
    CloseInSteps(base, seen, lost, more);
    CloseInSteps(base, seen, base, more);
  }

  lemma NewRecordsAreReadable(seen: set<int>, key: LogKey, b: DecodedBatch, nowUnixS: int)
    requires IsLogKey(key) && Decoded(b)
    ensures Journaled(SampleLines(RecordsOf(key, b.header, nowUnixS, Fresh(b.samples, seen))), key)
  {
    var unseen := Fresh(b.samples, seen);
    FreshFacts(b.samples, seen);
    forall i | 0 <= i < |unseen| ensures IsU32(unseen[i].seqNo) {
      assert unseen[i] in b.samples;
    }
  }

  lemma JournalIsReadable(prev: Option<LogState>, key: LogKey, b: DecodedBatch, nowUnixS: int)
    requires IsLogKey(key) && Decoded(b)
    ensures Journaled(JournalOf(prev, key, b, nowUnixS), key)
  {
    NewRecordsAreReadable(SeenOf(prev), key, b, nowUnixS);
  }

  // ── A crash keeps a prefix ─────────────────────────────────────────

  lemma {:induction false} TakingOnlyGrows(a: Acc, recs: seq<JournalRecord>)
    requires a.start.Some?
    ensures var r := TakeAll(Some(a), recs);
            r.Some? && r.value.start == a.start && a.lossMax <= r.value.lossMax && a.seen <= r.value.seen
  {
    if recs != [] {
      TakingOnlyGrows(a, recs[..|recs| - 1]);
    }
  }

  lemma GrownCloseIsHigher(a: Acc, c: Acc)
    requires a.start.Some? && c.start == a.start && a.lossMax <= c.lossMax && a.seen <= c.seen
    ensures Finish(a).through <= Finish(c).through && Finish(a).seen <= Finish(c).seen
  {
    CloseIsMonotone(Max(StartOf(a), a.lossMax), a.seen, Max(StartOf(c), c.lossMax), c.seen);
  }

  /** Any prefix of the records leaves a state between the old one and the planned one. */
  lemma PrefixIsBetween(acc: Option<Acc>, key: LogKey, b: DecodedBatch, nowUnixS: int, kept: nat)
    requires acc.Some? ==> acc.value.start.Some?
    requires kept <= |JournalOf(FinishAny(acc), key, b, nowUnixS)|
    ensures var prev := FinishAny(acc);
            var r := TakeAll(acc, JournalOf(prev, key, b, nowUnixS)[..kept]);
            && (r.None? <==> acc.None? && kept == 0)
            && (r.Some? ==>
                  && r.value.start.Some?
                  && (acc.Some?
                      ==> Finish(acc.value).through <= Finish(r.value).through && acc.value.seen <= r.value.seen)
                  && Finish(r.value).through <= NextLog(prev, b).through && r.value.seen <= NextLog(prev, b).seen)
  {
    var prev := FinishAny(acc);
    var recs := JournalOf(prev, key, b, nowUnixS);
    var r := TakeAll(acc, recs[..kept]);
    hide NewRecords, Finish, LossOf, LossLines, SampleLines, NextLog;
    JournalRebuildsNext(acc, key, b, nowUnixS);
    assert recs == recs[..kept] + recs[kept..];
    TakeAllConcat(acc, recs[..kept], recs[kept..]);
    if acc.Some? {
      TakingOnlyGrows(acc.value, recs[..kept]);
      GrownCloseIsHigher(acc.value, r.value);
    } else if kept > 0 {
      assert recs[..kept] == [StartLine(key, b.header.firstSeq, nowUnixS)] + recs[1..kept];
      TakeAllConcat(acc, [StartLine(key, b.header.firstSeq, nowUnixS)], recs[1..kept]);
      assert [StartLine(key, b.header.firstSeq, nowUnixS)][..0] == [];
      TakingOnlyGrows(Opened0(b), recs[1..kept]);
    }
    if r.Some? {
      TakingOnlyGrows(r.value, recs[kept..]);
      GrownCloseIsHigher(r.value, TakeAll(acc, recs).value);
    }
  }

  function Opened0(b: DecodedBatch): Acc {
    EMPTY_ACC.(start := Some(Max(b.header.firstSeq - 1, 0)))
  }

  // ── Whole runs ─────────────────────────────────────────────────────

  /**
   * What can happen to a store: a batch is ingested and acked; its append is
   * refused; the process dies during the append, which leaves any prefix of the
   * records and perhaps a torn line; or it stops and starts between batches.
   */
  datatype Event =
    | Deliver(key: LogKey, batch: DecodedBatch, nowUnixS: int)
    | Refused(key: LogKey, batch: DecodedBatch, nowUnixS: int)
    | Crash(key: LogKey, batch: DecodedBatch, nowUnixS: int, kept: nat, torn: bool)
    | Restart

  datatype Ack = Ack(key: LogKey, through: int)

  /** The live logs, the file, and every ack that has left the bridge. */
  datatype Bridge = Bridge(logs: map<LogKey, LogState>, journal: seq<Line>, acks: seq<Ack>)

  const NEW_BRIDGE := Bridge(map[], [], [])

  function Commit(s: Bridge, key: LogKey, recs: seq<JournalRecord>, next: LogState): Bridge {
    Bridge(s.logs[key := next], s.journal + Lines(recs), s.acks + [Ack(key, next.through)])
  }

  function Reopen(s: Bridge, left: seq<Line>): Bridge {
    Bridge(RebuildAll(s.journal + left), s.journal + left, s.acks)
  }

  function Torn(torn: bool): seq<Line> {
    if torn then [Unreadable] else []
  }

  function Planned(s: Bridge, key: LogKey, b: DecodedBatch, nowUnixS: int): seq<JournalRecord> {
    JournalOf(Look(s.logs, key), key, b, nowUnixS)
  }

  ghost predicate Possible(s: Bridge, e: Event) {
    match e
    case Deliver(k, b, _) => IsLogKey(k) && Decoded(b)
    case Refused(k, b, _) => IsLogKey(k) && Decoded(b)
    case Crash(k, b, now, kept, _) => IsLogKey(k) && Decoded(b) && kept <= |Planned(s, k, b, now)|
    case Restart => true
  }

  function Step(s: Bridge, e: Event): Bridge
    requires e.Crash? ==> e.kept <= |Planned(s, e.key, e.batch, e.nowUnixS)|
  {
    match e
    case Deliver(k, b, now) => Commit(s, k, Planned(s, k, b, now), NextLog(Look(s.logs, k), b))
    case Refused(k, b, now) =>
      if Planned(s, k, b, now) == [] then Commit(s, k, [], NextLog(Look(s.logs, k), b)) else s
    case Crash(k, b, now, kept, torn) => Reopen(s, Lines(Planned(s, k, b, now)[..kept]) + Torn(torn))
    case Restart => Reopen(s, [])
  }

  /** A run is a sequence of states, each one possible event after the last. */
  ghost predicate IsRun(ss: seq<Bridge>, es: seq<Event>) {
    && |ss| == |es| + 1
    && ss[0] == NEW_BRIDGE
    && forall i :: 0 <= i < |es| ==> Possible(ss[i], es[i]) && ss[i + 1] == Step(ss[i], es[i])
  }

  /** No ack ever sent promises more than its log still holds. */
  ghost predicate AcksHold(logs: map<LogKey, LogState>, acks: seq<Ack>) {
    forall i :: 0 <= i < |acks| ==> AckHolds(logs, acks[i])
  }

  ghost predicate AckHolds(logs: map<LogKey, LogState>, a: Ack) {
    a.key in logs && a.through <= logs[a.key].through
  }

  ghost predicate Good(s: Bridge) {
    Mirrors(s.logs, s.journal) && AcksHold(s.logs, s.acks)
  }

  /** Each log is still there, no further back. */
  ghost predicate Ahead(s: map<LogKey, LogState>, t: map<LogKey, LogState>) {
    forall k :: k in s ==> k in t && s[k].through <= t[k].through && s[k].seen <= t[k].seen
  }

  lemma AcksStillHold(s: map<LogKey, LogState>, t: map<LogKey, LogState>, acks: seq<Ack>)
    requires AcksHold(s, acks) && Ahead(s, t)
    ensures AcksHold(t, acks)
  {
    forall i | 0 <= i < |acks| ensures AckHolds(t, acks[i]) {
      assert AckHolds(s, acks[i]);
    }
  }

  lemma RebuildAllMirrors(journal: seq<Line>)
    requires forall k :: Fold(journal, k).Some? ==> Fold(journal, k).value.start.Some?
    ensures Mirrors(RebuildAll(journal), journal)
  {
    forall k ensures Mirror(Look(RebuildAll(journal), k), Fold(journal, k)) {
      KeysAreFolded(journal, k);
    }
  }

  /** Only one set of logs mirrors a journal. */
  lemma MirrorIsUnique(a: map<LogKey, LogState>, b: map<LogKey, LogState>, journal: seq<Line>)
    requires Mirrors(a, journal) && Mirrors(b, journal)
    ensures a == b
  {
    assert forall k :: Mirror(Look(a, k), Fold(journal, k)) && Mirror(Look(b, k), Fold(journal, k));
    assert forall k :: Look(a, k) == Look(b, k);
    assert a.Keys == b.Keys by {
      forall k ensures k in a <==> k in b {
        assert Look(a, k) == Look(b, k);
      }
    }
    forall k | k in a ensures a[k] == b[k] {
      assert Look(a, k) == Look(b, k);
    }
  }

  /** Appending one log's records and committing the state they rebuild to keeps the mirror. */
  lemma CommitMirrors(s: Bridge, key: LogKey, recs: seq<JournalRecord>, next: LogState)
    requires Mirrors(s.logs, s.journal) && Journaled(recs, key)
    requires Mirror(Some(next), TakeAll(Fold(s.journal, key), recs))
    ensures var t := Commit(s, key, recs, next);
            Mirrors(t.logs, t.journal)
  {
    var t := Commit(s, key, recs, next);
    forall k ensures Mirror(Look(t.logs, k), Fold(t.journal, k)) {
      FoldAppended(s.journal, recs, key, k);
      assert Mirror(Look(s.logs, k), Fold(s.journal, k));
    }
  }

  lemma ReopenFold(journal: seq<Line>, key: LogKey, recs: seq<JournalRecord>, torn: bool, k: LogKey)
    requires Journaled(recs, key)
    ensures Fold(journal + (Lines(recs) + Torn(torn)), k)
         == if k == key then TakeAll(Fold(journal, key), recs) else Fold(journal, k)
  {
    FoldAppended(journal, recs, key, k);
    FoldTorn(journal + Lines(recs), k);
    assert journal + (Lines(recs) + Torn(torn)) == journal + Lines(recs) + Torn(torn);
    assert journal + Lines(recs) + [] == journal + Lines(recs);
  }

  /** Reopening after some of one log's records keeps the mirror and touches no other log. */
  lemma ReopenMirrors(s: Bridge, key: LogKey, recs: seq<JournalRecord>, torn: bool)
    requires Mirrors(s.logs, s.journal) && Journaled(recs, key)
    requires var acc := TakeAll(Fold(s.journal, key), recs); acc.Some? ==> acc.value.start.Some?
    ensures var t := Reopen(s, Lines(recs) + Torn(torn));
            && Mirrors(t.logs, t.journal)
            && (forall k :: k != key ==> Look(t.logs, k) == Look(s.logs, k))
            && Look(t.logs, key) == FinishAny(TakeAll(Fold(s.journal, key), recs))
  {
    var t := Reopen(s, Lines(recs) + Torn(torn));
    forall k ensures Fold(t.journal, k) == if k == key then TakeAll(Fold(s.journal, key), recs) else Fold(s.journal, k)
             ensures Mirror(Look(s.logs, k), Fold(s.journal, k)) {
      ReopenFold(s.journal, key, recs, torn, k);
    }
    RebuildAllMirrors(t.journal);
    assert forall k :: Mirror(Look(t.logs, k), Fold(t.journal, k));
  }

  /** A crash leaves every other log alone and this one between what it was and what was planned. */
  lemma CrashIsBetween(s: Bridge, key: LogKey, b: DecodedBatch, nowUnixS: int, kept: nat, torn: bool)
    requires Mirrors(s.logs, s.journal) && Possible(s, Crash(key, b, nowUnixS, kept, torn))
    ensures var t := Step(s, Crash(key, b, nowUnixS, kept, torn));
            && Mirrors(t.logs, t.journal)
            && (forall k :: k != key ==> Look(t.logs, k) == Look(s.logs, k))
            && (key in t.logs <==> key in s.logs || kept > 0)
            && (key in s.logs ==> s.logs[key].through <= t.logs[key].through && s.logs[key].seen <= t.logs[key].seen)
            && (key in t.logs ==> t.logs[key].through <= NextLog(Look(s.logs, key), b).through)
            && (key in t.logs ==> t.logs[key].seen <= NextLog(Look(s.logs, key), b).seen)
  {
    var acc := Fold(s.journal, key);
    assert Mirror(Look(s.logs, key), acc);
    PrefixIsBetween(acc, key, b, nowUnixS, kept);
    JournalIsReadable(FinishAny(acc), key, b, nowUnixS);
    ReopenMirrors(s, key, Planned(s, key, b, nowUnixS)[..kept], torn);
  }

  lemma CrashStep(s: Bridge, key: LogKey, b: DecodedBatch, nowUnixS: int, kept: nat, torn: bool)
    requires Good(s) && Possible(s, Crash(key, b, nowUnixS, kept, torn))
    ensures Good(Step(s, Crash(key, b, nowUnixS, kept, torn)))
  {
    CrashIsBetween(s, key, b, nowUnixS, kept, torn);
    var t := Step(s, Crash(key, b, nowUnixS, kept, torn));
    assert Ahead(s.logs, t.logs) by {
      forall k | k in s.logs
        ensures k in t.logs && s.logs[k].through <= t.logs[k].through && s.logs[k].seen <= t.logs[k].seen
      {
        assert k != key ==> Look(t.logs, k) == Look(s.logs, k);
      }
    }
    AcksStillHold(s.logs, t.logs, s.acks);
  }

  lemma CommitAcks(s: Bridge, key: LogKey, recs: seq<JournalRecord>, next: LogState)
    requires AcksHold(s.logs, s.acks)
    requires key in s.logs ==> s.logs[key].through <= next.through && s.logs[key].seen <= next.seen
    ensures var t := Commit(s, key, recs, next); AcksHold(t.logs, t.acks) && Ahead(s.logs, t.logs)
  {
    var t := Commit(s, key, recs, next);
    AcksStillHold(s.logs, t.logs, s.acks);
    forall i | 0 <= i < |t.acks| ensures AckHolds(t.logs, t.acks[i]) {
      assert i < |s.acks| ==> t.acks[i] == s.acks[i];
    }
  }

  /** Ingesting a decoded batch keeps the live logs what the journal rebuilds to. */
  lemma IngestMirrors(s: Bridge, key: LogKey, b: DecodedBatch, nowUnixS: int)
    requires Mirrors(s.logs, s.journal) && IsLogKey(key) && Decoded(b)
    ensures var t := Commit(s, key, Planned(s, key, b, nowUnixS), NextLog(Look(s.logs, key), b));
            Mirrors(t.logs, t.journal)
  {
    var acc := Fold(s.journal, key);
    assert Mirror(Look(s.logs, key), acc);
    JournalRebuildsNext(acc, key, b, nowUnixS);
    JournalIsReadable(FinishAny(acc), key, b, nowUnixS);
    CommitMirrors(s, key, Planned(s, key, b, nowUnixS), NextLog(Look(s.logs, key), b));
  }

  lemma CommitStep(s: Bridge, key: LogKey, b: DecodedBatch, nowUnixS: int)
    requires Good(s) && IsLogKey(key) && Decoded(b)
    ensures Good(Commit(s, key, Planned(s, key, b, nowUnixS), NextLog(Look(s.logs, key), b)))
  {
    IngestMirrors(s, key, b, nowUnixS);
    NextMovesForward(Look(s.logs, key), b);
    CommitAcks(s, key, Planned(s, key, b, nowUnixS), NextLog(Look(s.logs, key), b));
  }

  lemma StepKeepsGood(s: Bridge, e: Event)
    requires Good(s) && Possible(s, e)
    ensures Good(Step(s, e))
  {
    match e
    case Deliver(k, b, now) => CommitStep(s, k, b, now);
    case Refused(k, b, now) => CommitStep(s, k, b, now);
    case Crash(k, b, now, kept, torn) => CrashStep(s, k, b, now, kept, torn);
    case Restart => RestartChangesNothing(s);
  }

  /** Stopping and starting between batches changes nothing. */
  lemma RestartChangesNothing(s: Bridge)
    requires Mirrors(s.logs, s.journal)
    ensures Step(s, Restart) == s
  {
    assert s.journal + [] == s.journal;
    forall k | Fold(s.journal, k).Some? ensures Fold(s.journal, k).value.start.Some? {
      assert Mirror(Look(s.logs, k), Fold(s.journal, k));
    }
    RebuildAllMirrors(s.journal);
    MirrorIsUnique(RebuildAll(s.journal), s.logs, s.journal);
  }

  /**
   * Recovery refines the live store: in every state of every run, a restart
   * would rebuild exactly the live logs, and no ack ever sent is above what its
   * log holds.
   */
  lemma {:induction false} RecoveryRefinesTheLiveStore(ss: seq<Bridge>, es: seq<Event>, i: nat)
    requires IsRun(ss, es) && i < |ss|
    ensures RebuildAll(ss[i].journal) == ss[i].logs
    ensures Good(ss[i])
  {
    if i > 0 {
      RecoveryRefinesTheLiveStore(ss, es, i - 1);
      StepKeepsGood(ss[i - 1], es[i - 1]);
    }
    RestartChangesNothing(ss[i]);
    assert ss[i].journal + [] == ss[i].journal;
  }
}
