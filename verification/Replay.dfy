/** The bodies replay.ts posts, and that together they carry every stored sample once. */
module Replay {
  import opened Prelude
  import opened Records
  import opened Plan
  import opened Rebuild
  import Recovery

  datatype PostSample = PostSample(seqNo: int, bootId: int, uptimeS: int, centiC: int, flags: int, tUnix: Option<int>,
      anchor: Anchor)

  datatype PostBody = PostBody(key: LogKey, lostThrough: int, samples: seq<PostSample>)

  /** What is gathered of one log: its greatest loss, and each seq's sample. */
  datatype Group = Group(lostThrough: int, bySeq: map<int, PostSample>)

  const EMPTY_GROUP := Group(0, map[])

  function PostOf(s: SampleRecord): PostSample {
    PostSample(s.seqNo, s.bootId, s.uptimeS, s.centiC, s.flags, s.tUnix, s.anchor)
  }

  /** A sample or a loss taken into its log's group; a start adds nothing. */
  function Gathered(g: Option<Group>, rec: JournalRecord): Option<Group> {
    var have := if g.Some? then g.value else EMPTY_GROUP;
    match rec
    case StartLine(_, _, _) => g
    case SampleLine(s) => Some(have.(bySeq := have.bySeq[s.seqNo := PostOf(s)]))
    case LossLine(l) => Some(have.(lostThrough := Max(have.lostThrough, l.throughSeq)))
  }

  /** What the lines say of one log. */
  function GroupOf(lines: seq<Line>, key: LogKey): Option<Group> {
    if lines == [] then None else
      var before, last := GroupOf(lines[..|lines| - 1], key), lines[|lines| - 1];
      if last.Written? && last.rec.Key() == key then Gathered(before, last.rec) else before
  }

  function Unread(lines: seq<Line>): nat {
    if lines == [] then 0 else Unread(lines[..|lines| - 1]) + if lines[|lines| - 1].Unreadable? then 1 else 0
  }

  // ── Listing a group ────────────────────────────────────────────────

  ghost predicate Ascending(s: seq<PostSample>) {
    forall i, j :: 0 <= i < j < |s| ==> s[i].seqNo < s[j].seqNo
  }

  /** Every sample of the group once, oldest first. */
  ghost predicate IsListing(s: seq<PostSample>, m: map<int, PostSample>) {
    && Ascending(s)
    && (forall i :: 0 <= i < |s| ==> s[i].seqNo in m && m[s[i].seqNo] == s[i])
    && (forall q :: q in m ==> HoldsSeq(s, q))
  }

  lemma {:induction false} HasLeast(s: set<int>)
    requires s != {}
    ensures exists x :: x in s && forall y :: y in s ==> x <= y
    decreases s
  {
    Inhabited(s);
    var a :| a in s;
    if s != {a} {
      var rest := s - {a};
      assert exists b :: b in rest by {
        assert rest != {};
        Inhabited(rest);
      }
      HasLeast(rest);
      var x :| x in rest && forall y :: y in rest ==> x <= y;
      var least := if a <= x then a else x;
      forall y | y in s ensures least <= y {
        assert y == a || y in rest;
      }
    }
  }

  /** Listed so far: all but the rest, which are newer. */
  ghost predicate Listed(s: seq<PostSample>, m: map<int, PostSample>, rest: set<int>) {
    && rest <= m.Keys && Ascending(s)
    && (forall i :: 0 <= i < |s| ==> s[i].seqNo in m && m[s[i].seqNo] == s[i] && Newer(rest, s[i].seqNo))
    && (forall q :: q in m && q !in rest ==> HoldsSeq(s, q))
  }

  ghost predicate Newer(rest: set<int>, seqNo: int) {
    forall q :: q in rest ==> seqNo < q
  }

  ghost predicate HoldsSeq(s: seq<PostSample>, q: int) {
    exists i :: 0 <= i < |s| && s[i].seqNo == q
  }

  lemma ListNext(s: seq<PostSample>, m: map<int, PostSample>, rest: set<int>, q: int)
    requires Listed(s, m, rest) && q in rest && m[q].seqNo == q && forall y :: y in rest ==> q <= y
    ensures Listed(s + [m[q]], m, rest - {q})
  {
    var t := s + [m[q]];
    forall k | k in m && k !in rest - {q} ensures HoldsSeq(t, k) {
      if k == q {
        assert t[|s|].seqNo == k;
      } else {
        assert HoldsSeq(s, k);
        var i :| 0 <= i < |s| && s[i].seqNo == k;
        assert t[i].seqNo == k;
      }
    }
    assert forall i :: 0 <= i < |s| ==> Newer(rest, s[i].seqNo);
  }

  /** A group's samples in ascending seq order, each exactly once. */
  method ListGroup(m: map<int, PostSample>) returns (s: seq<PostSample>)
    requires forall q :: q in m ==> m[q].seqNo == q
    ensures IsListing(s, m)
  {
    s := [];
    var rest := m.Keys;
    while rest != {}
      invariant Listed(s, m, rest)
      decreases |rest|
    {
      HasLeast(rest);
      var q :| q in rest && forall y :: y in rest ==> q <= y;
      ListNext(s, m, rest, q);
      s := s + [m[q]];
      rest := rest - {q};
    }
    assert forall q :: q in m ==> HoldsSeq(s, q);
  }

  // ── Bodies ─────────────────────────────────────────────────────────

  /** The samples the bodies carry for one log, in the order they are sent. */
  function Carried(bodies: seq<PostBody>, key: LogKey): seq<PostSample> {
    if bodies == [] then [] else
      var n := |bodies| - 1;
      Carried(bodies[..n], key) + if bodies[n].key == key then bodies[n].samples else []
  }

  lemma CarriedNext(bodies: seq<PostBody>, b: PostBody, key: LogKey)
    ensures Carried(bodies + [b], key)
        == if b.key == key then Carried(bodies, key) + b.samples else Carried(bodies, key)
  {
    assert (bodies + [b])[..|bodies|] == bodies;
  }

  /** Bodies of at most max samples, never empty, each with its log's greatest loss. */
  ghost predicate GoodBody(b: PostBody, lines: seq<Line>, max: nat) {
    1 <= |b.samples| <= max && GroupOf(lines, b.key).Some? && b.lostThrough == GroupOf(lines, b.key).value.lostThrough
  }

  /** Only a log's last body may hold fewer than max samples. */
  ghost predicate Full(bodies: seq<PostBody>, max: nat) {
    forall i, j :: 0 <= i < j < |bodies| && bodies[i].key == bodies[j].key ==> |bodies[i].samples| == max
  }

  /** Each log's samples are all carried, once each, oldest first, in good bodies and no more of them than needed. */
  ghost predicate IsReplay(bodies: seq<PostBody>, lines: seq<Line>, max: nat) {
    && (forall i :: 0 <= i < |bodies| ==> GoodBody(bodies[i], lines, max)) && Full(bodies, max)
    && (forall k :: var g := GroupOf(lines, k);
                    if g.Some? then IsListing(Carried(bodies, k), g.value.bySeq) else Carried(bodies, k) == [])
  }

  lemma {:induction false} GroupsAreBySeq(lines: seq<Line>, key: LogKey)
    ensures GroupOf(lines, key).Some? ==>
              forall q :: q in GroupOf(lines, key).value.bySeq ==> GroupOf(lines, key).value.bySeq[q].seqNo == q
  {
    if lines != [] {
      GroupsAreBySeq(lines[..|lines| - 1], key);
    }
  }

  function LookGroup(logs: map<LogKey, Group>, key: LogKey): Option<Group> {
    if key in logs then Some(logs[key]) else None
  }

  /** logs holds every log's group, and nothing else. */
  ghost predicate Grouped(logs: map<LogKey, Group>, lines: seq<Line>) {
    forall k :: LookGroup(logs, k) == GroupOf(lines, k)
  }

  lemma GroupIs(logs: map<LogKey, Group>, lines: seq<Line>, key: LogKey)
    requires Grouped(logs, lines) && key in logs
    ensures forall q :: q in logs[key].bySeq ==> logs[key].bySeq[q].seqNo == q
  {
    assert LookGroup(logs, key) == GroupOf(lines, key);
    GroupsAreBySeq(lines, key);
  }

  /** The lines, one by one, into a group per log. */
  method GroupLines(lines: seq<Line>) returns (logs: map<LogKey, Group>, skipped: nat)
    ensures Grouped(logs, lines) && skipped == Unread(lines)
  {
    logs, skipped := map[], 0;
    for i := 0 to |lines|
      invariant forall k :: LookGroup(logs, k) == GroupOf(lines[..i], k)
      invariant skipped == Unread(lines[..i])
    {
      assert lines[..i + 1][..i] == lines[..i];
      match lines[i]
      case Blank =>
      case Unreadable => skipped := skipped + 1;
      case Written(rec) =>
        var g := Gathered(LookGroup(logs, rec.Key()), rec);
        if g.Some? {
          logs := logs[rec.Key() := g.value];
        }
    }
    assert lines[..|lines|] == lines;
  }

  /** What the bodies carry after some logs are done. */
  ghost predicate DoneFor(bodies: seq<PostBody>, logs: map<LogKey, Group>, rest: set<LogKey>) {
    forall k :: if k in logs && k !in rest then IsListing(Carried(bodies, k), logs[k].bySeq)
        else Carried(bodies, k) == []
  }

  ghost predicate BodiesGood(bodies: seq<PostBody>, logs: map<LogKey, Group>, max: nat) {
    forall i :: 0 <= i < |bodies| ==>
      bodies[i].key in logs && 1 <= |bodies[i].samples| <= max
          && bodies[i].lostThrough == logs[bodies[i].key].lostThrough
  }

  /** bodies is before, and then part of one log's samples in good bodies. */
  ghost predicate Extended(before: seq<PostBody>, bodies: seq<PostBody>, key: LogKey, lostThrough: int,
      part: seq<PostSample>, max: nat)
  {
    && (forall k :: Carried(bodies, k) == if k == key then Carried(before, key) + part else Carried(before, k))
    && |before| <= |bodies| && bodies[..|before|] == before
    && (forall i :: |before| <= i < |bodies| ==>
          bodies[i].key == key && bodies[i].lostThrough == lostThrough && 1 <= |bodies[i].samples| <= max)
  }

  lemma ExtendedFirst(before: seq<PostBody>, key: LogKey, lostThrough: int, part: seq<PostSample>, max: nat)
    requires part == []
    ensures Extended(before, before, key, lostThrough, part, max)
  {
    assert Carried(before, key) + part == Carried(before, key);
  }

  lemma ExtendedNext(before: seq<PostBody>, bodies: seq<PostBody>, key: LogKey, lostThrough: int, part: seq<PostSample>,
                     max: nat, b: PostBody)
    requires Extended(before, bodies, key, lostThrough, part, max)
    requires b.key == key && b.lostThrough == lostThrough && 1 <= |b.samples| <= max
    ensures Extended(before, bodies + [b], key, lostThrough, part + b.samples, max)
  {
    hide Carried;
    forall k ensures Carried(bodies + [b], k)
        == if k == key then Carried(before, key) + (part + b.samples) else Carried(before, k) {
      CarriedNext(bodies, b, k);
      assert Carried(before, key) + (part + b.samples) == Carried(before, key) + part + b.samples;
    }
  }

  /** Of the bodies added, only the last may hold fewer than max samples. */
  ghost predicate FullBut(from: nat, bodies: seq<PostBody>, max: nat) {
    forall i :: from <= i < |bodies| - 1 ==> |bodies[i].samples| == max
  }

  /** One log's samples in bodies of at most max. */
  method AddBodies(before: seq<PostBody>, key: LogKey, lostThrough: int, samples: seq<PostSample>, max: nat)
    returns (bodies: seq<PostBody>)
    requires max >= 1
    ensures Extended(before, bodies, key, lostThrough, samples, max) && FullBut(|before|, bodies, max)
  {
    hide Extended, Carried;
    bodies := before;
    var i := 0;
    ExtendedFirst(before, key, lostThrough, samples[..0], max);
    while i < |samples|
      invariant 0 <= i && Extended(before, bodies, key, lostThrough, samples[..Min(i, |samples|)], max)
      invariant FullBut(|before|, bodies, max)
      invariant i < |samples| && |before| < |bodies| ==> |bodies[|bodies| - 1].samples| == max
    {
      var end := Min(i + max, |samples|);
      var b := PostBody(key, lostThrough, samples[i..end]);
      assert samples[..i] + samples[i..end] == samples[..end];
      ExtendedNext(before, bodies, key, lostThrough, samples[..i], max, b);
      bodies := bodies + [b];
      i := i + max;
    }
    assert samples[..Min(i, |samples|)] == samples;
  }

  /** The bodies for a journal: IsReplay fixes their contents, order and sizes. */
  method ReplayBodies(lines: seq<Line>, max: nat) returns (bodies: seq<PostBody>, skipped: nat)
    requires max >= 1
    ensures IsReplay(bodies, lines, max) && skipped == Unread(lines)
  {
    hide Full, FullBut, Grouped, DoneFor, BodiesGood, Extended, IsListing, IsReplay, Unread, Carried;
    var logs;
    logs, skipped := GroupLines(lines);
    bodies := [];
    NothingDone(logs, max);
    var rest := logs.Keys;
    while rest != {}
      invariant rest <= logs.Keys && DoneFor(bodies, logs, rest) && BodiesGood(bodies, logs, max)
      invariant Full(bodies, max)
      decreases |rest|
    {
      InhabitedKeys(rest);
      var key :| key in rest;
      GroupIs(logs, lines, key);
      var samples := ListGroup(logs[key].bySeq);
      ghost var before := bodies;
      bodies := AddBodies(bodies, key, logs[key].lostThrough, samples, max);
      LogDone(before, bodies, logs, rest, key, samples, max);
      FullStays(before, bodies, logs, rest, key, samples, max);
      rest := rest - {key};
    }
    AllDone(bodies, lines, logs, max);
  }

  lemma NothingDone(logs: map<LogKey, Group>, max: nat)
    ensures DoneFor([], logs, logs.Keys) && BodiesGood([], logs, max) && Full([], max)
  {
  }

  lemma LogDone(before: seq<PostBody>, bodies: seq<PostBody>, logs: map<LogKey, Group>, rest: set<LogKey>, key: LogKey,
                samples: seq<PostSample>, max: nat)
    requires key in rest && rest <= logs.Keys && DoneFor(before, logs, rest) && BodiesGood(before, logs, max)
    requires IsListing(samples, logs[key].bySeq)
    requires Extended(before, bodies, key, logs[key].lostThrough, samples, max)
    ensures DoneFor(bodies, logs, rest - {key}) && BodiesGood(bodies, logs, max)
  {
    hide IsListing, Carried;
    assert Carried(before, key) == [] && [] + samples == samples;
    forall i | 0 <= i < |before| ensures bodies[i] == before[i] {
      assert bodies[..|before|][i] == before[i];
    }
  }

  /** A log that carries nothing yet has no bodies. */
  lemma {:induction false} NothingCarried(bodies: seq<PostBody>, key: LogKey, i: nat)
    requires i < |bodies| && bodies[i].key == key && bodies[i].samples != []
    ensures Carried(bodies, key) != []
  {
    var n := |bodies| - 1;
    if i < n {
      NothingCarried(bodies[..n], key, i);
    }
  }

  lemma FullStays(before: seq<PostBody>, bodies: seq<PostBody>, logs: map<LogKey, Group>, rest: set<LogKey>,
                  key: LogKey, samples: seq<PostSample>, max: nat)
    requires key in rest && rest <= logs.Keys && DoneFor(before, logs, rest) && BodiesGood(before, logs, max)
    requires Extended(before, bodies, key, logs[key].lostThrough, samples, max)
    requires Full(before, max) && FullBut(|before|, bodies, max)
    ensures Full(bodies, max)
  {
    assert Carried(before, key) == [];
    hide Carried, IsListing, DoneFor;
    forall i | 0 <= i < |before| ensures bodies[i] == before[i] && bodies[i].key != key {
      assert bodies[..|before|][i] == before[i];
      if before[i].key == key {
        NothingCarried(before, key, i);
      }
    }
  }

  lemma AllDone(bodies: seq<PostBody>, lines: seq<Line>, logs: map<LogKey, Group>, max: nat)
    requires DoneFor(bodies, logs, {}) && BodiesGood(bodies, logs, max) && Full(bodies, max)
    requires Grouped(logs, lines)
    ensures IsReplay(bodies, lines, max)
  {
    hide IsListing, Carried, GroupOf;
    forall i | 0 <= i < |bodies| ensures GoodBody(bodies[i], lines, max) {
      assert LookGroup(logs, bodies[i].key) == GroupOf(lines, bodies[i].key);
    }
    forall k
      ensures var g := GroupOf(lines, k);
              if g.Some? then IsListing(Carried(bodies, k), g.value.bySeq) else Carried(bodies, k) == []
    {
      assert LookGroup(logs, k) == GroupOf(lines, k);
    }
  }

  // ── Against the store ──────────────────────────────────────────────

  /** Every record in the journal is one the store can read back. */
  ghost predicate AllReadable(lines: seq<Line>) {
    forall i :: 0 <= i < |lines| && lines[i].Written? ==> AsRecord(lines[i]).Some?
  }

  /** A journal the store wrote is readable, whatever crashed or was torn. */
  lemma {:induction false} StoreWritesReadably(ss: seq<Recovery.Bridge>, es: seq<Recovery.Event>, i: nat)
    requires Recovery.IsRun(ss, es) && i < |ss|
    ensures AllReadable(ss[i].journal)
  {
    if i > 0 {
      StoreWritesReadably(ss, es, i - 1);
      var e, s := es[i - 1], ss[i - 1];
      assert Recovery.Possible(s, e);
      if !e.Restart? {
        Recovery.JournalIsReadable(Look(s.logs, e.key), e.key, e.batch, e.nowUnixS);
        RecordsAreReadable(Recovery.Planned(s, e.key, e.batch, e.nowUnixS), e.key);
      }
      StepReadable(s, e);
    }
  }

  lemma RecordsAreReadable(recs: seq<JournalRecord>, key: LogKey)
    requires Recovery.Journaled(recs, key)
    ensures AllReadable(Lines(recs))
  {
  }

  lemma StepReadable(s: Recovery.Bridge, e: Recovery.Event)
    requires AllReadable(s.journal) && Recovery.Possible(s, e)
    requires !e.Restart? ==> AllReadable(Lines(Recovery.Planned(s, e.key, e.batch, e.nowUnixS)))
    ensures AllReadable(Recovery.Step(s, e).journal)
  {
    hide AsRecord, JournalOf, NextLog, RebuildAll;
    if !e.Restart? {
      var recs := Recovery.Planned(s, e.key, e.batch, e.nowUnixS);
      forall k | 0 <= k <= |recs| ensures AllReadable(Lines(recs[..k])) {
        assert Lines(recs[..k]) == Lines(recs)[..k];
      }
    }
  }

  /** What replay gathers of a log is what the store rebuilds of it. */
  lemma {:induction false} GroupIsFold(lines: seq<Line>, key: LogKey)
    requires AllReadable(lines)
    ensures var g, a := GroupOf(lines, key), Fold(lines, key);
            && (g.Some? ==> a.Some? && g.value.bySeq.Keys == a.value.seen && g.value.lostThrough == a.value.lossMax)
            && (g.None? && a.Some? ==> a.value.seen == {} && a.value.lossMax == 0)
  {
    if lines != [] {
      GroupIsFold(lines[..|lines| - 1], key);
      assert lines[|lines| - 1].Written? ==> AsRecord(lines[|lines| - 1]) == Some(lines[|lines| - 1].rec);
    }
  }

  /** The journal holds this sample, for this log, and no later sample of the same seq. */
  ghost predicate Journals(lines: seq<Line>, key: LogKey, p: PostSample) {
    exists i :: 0 <= i < |lines| && HoldsSample(lines[i], key, p) && LastOfSeq(lines, key, p.seqNo, i)
  }

  ghost predicate HoldsSample(line: Line, key: LogKey, p: PostSample) {
    && line.Written? && line.rec.SampleLine? && line.rec.Key() == key
    && var s := line.rec.sample;
       && p.seqNo == s.seqNo && p.bootId == s.bootId && p.uptimeS == s.uptimeS && p.centiC == s.centiC
       && p.flags == s.flags && p.tUnix == s.tUnix && p.anchor == s.anchor
  }

  predicate OfSeq(line: Line, key: LogKey, q: int) {
    line.Written? && line.rec.SampleLine? && line.rec.Key() == key && line.rec.sample.seqNo == q
  }

  ghost predicate LastOfSeq(lines: seq<Line>, key: LogKey, q: int, i: int) {
    forall j :: 0 <= j < |lines| && i < j ==> !OfSeq(lines[j], key, q)
  }

  lemma {:induction false} GroupIsJournaled(lines: seq<Line>, key: LogKey, q: int)
    requires GroupOf(lines, key).Some? && q in GroupOf(lines, key).value.bySeq
    ensures GroupOf(lines, key).value.bySeq[q].seqNo == q
    ensures Journals(lines, key, GroupOf(lines, key).value.bySeq[q])
  {
    var n := |lines| - 1;
    GroupsAreBySeq(lines, key);
    var p := GroupOf(lines, key).value.bySeq[q];
    if OfSeq(lines[n], key, q) {
      assert HoldsSample(lines[n], key, p) && LastOfSeq(lines, key, q, n);
    } else {
      var before := GroupOf(lines[..n], key);
      assert before.Some? && q in before.value.bySeq && before.value.bySeq[q] == p;
      GroupIsJournaled(lines[..n], key, q);
      hide GroupOf;
      var i :| 0 <= i < n && HoldsSample(lines[..n][i], key, p) && LastOfSeq(lines[..n], key, q, i);
      forall j | i < j < |lines| ensures !OfSeq(lines[j], key, q) {
        assert j < n ==> lines[..n][j] == lines[j];
      }
      assert HoldsSample(lines[i], key, p) && LastOfSeq(lines, key, q, i);
    }
  }

  /**
   * Replay is a partition of what is held: for every log of a journal the store
   * wrote, the bodies carry each held seq exactly once, oldest first, each as it
   * was journaled.
   */
  lemma ReplayIsAPartition(bodies: seq<PostBody>, lines: seq<Line>, max: nat, key: LogKey)
    requires IsReplay(bodies, lines, max) && AllReadable(lines)
    ensures var s := Carried(bodies, key);
            && Ascending(s)
            && (forall q :: HoldsSeq(s, q) <==> Rebuilt(lines, key).Some? && q in Rebuilt(lines, key).value.seen)
            && (forall i :: 0 <= i < |s| ==> Journals(lines, key, s[i]))
  {
    GroupIsFold(lines, key);
    var s, g := Carried(bodies, key), GroupOf(lines, key);
    assert if g.Some? then IsListing(s, g.value.bySeq) else s == [];
    if g.Some? {
      forall i | 0 <= i < |s| ensures Journals(lines, key, s[i]) {
        GroupIsJournaled(lines, key, s[i].seqNo);
      }
      assert forall q :: q in g.value.bySeq ==> HoldsSeq(s, q);
      forall q | HoldsSeq(s, q) ensures q in g.value.bySeq {
        var i :| 0 <= i < |s| && s[i].seqNo == q;
      }
    }
  }

  /** Every body tells its log's greatest journaled loss. */
  lemma BodiesTellTheLoss(bodies: seq<PostBody>, lines: seq<Line>, max: nat, i: nat)
    requires IsReplay(bodies, lines, max) && AllReadable(lines) && i < |bodies|
    ensures 1 <= |bodies[i].samples| <= max
    ensures Fold(lines, bodies[i].key).Some? && bodies[i].lostThrough == Fold(lines, bodies[i].key).value.lossMax
  {
    assert GoodBody(bodies[i], lines, max);
    GroupIsFold(lines, bodies[i].key);
  }
}
