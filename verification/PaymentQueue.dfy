/** The paid-activation queue of x402-bridge/bridge.ts under every interleaving of its requests. */
module PaymentQueue {
  import opened Prelude

  datatype TicketState = Queued | Lighting | Lit | Failed

  /** How far a queued activation has come: not started, actuating, or over and perhaps still holding the queue. */
  datatype Stage = Waiting | Running | Over

  datatype Job = Job(ticket: string, stage: Stage)

  /**
   * The bridge's queue between two awaits: payments spent, payments whose
   * broadcast is in the air, tickets not yet finished, every ticket's state, the
   * activations still chained on the tail, the cell counter, every ticket ever
   * enqueued, and the payments whose broadcast threw.
   */
  datatype Queue = Queue(
    used: set<string>, awaiting: set<string>, pending: seq<string>, tickets: map<string, TicketState>,
    chain: seq<Job>, counter: nat, enqueued: seq<string>, stranded: set<string>)

  const EMPTY := Queue({}, {}, [], map[], [], 0, [], {})

  /**
   * What can happen between awaits: a verified payment arrives, to be broadcast
   * first or already settled; a broadcast ends, or throws; the next activation
   * starts, is answered, and lets the queue go.
   */
  datatype Step =
    | Arrive(key: string, settled: bool)
    | BroadcastEnds(key: string, ok: bool)
    | BroadcastThrows(key: string)
    | StartJob
    | AnswerJob(ok: bool)
    | ReleaseJob

  /** indexOf: the first index of x, or -1. */
  function IndexOf(s: seq<string>, x: string): (i: int)
    ensures -1 <= i < |s|
    ensures i >= 0 ==> s[i] == x && x !in s[..i]
    ensures i < 0 ==> x !in s
  {
    if s == [] then -1
    else if s[0] == x then 0
    else
      var i := IndexOf(s[1..], x);
      assert i >= 0 ==> s[..i + 1] == [s[0]] + s[1..][..i];
      if i < 0 then -1 else i + 1
  }

  function Without(s: seq<string>, x: string): seq<string> {
    var i := IndexOf(s, x);
    if i < 0 then s else s[..i] + s[i + 1..]
  }

  function Enqueued(q: Queue, key: string): Queue {
    q.(tickets := q.tickets[key := Queued],
       pending := q.pending + [key],
       chain := q.chain + [Job(key, Waiting)],
       enqueued := q.enqueued + [key])
  }

  ghost predicate Possible(q: Queue, s: Step) {
    match s
    case Arrive(_, _) => true
    case BroadcastEnds(k, _) => k in q.awaiting
    case BroadcastThrows(k) => k in q.awaiting
    case StartJob => q.chain != [] && q.chain[0].stage == Waiting
    case AnswerJob(_) => q.chain != [] && q.chain[0].stage == Running
    case ReleaseJob => q.chain != [] && q.chain[0].stage == Over
  }

  /** The head of the chain moves on. */
  function Moved(q: Queue, state: TicketState, stage: Stage): Queue
    requires q.chain != []
  {
    q.(tickets := q.tickets[q.chain[0].ticket := state],
       chain := [Job(q.chain[0].ticket, stage)] + q.chain[1..])
  }

  function Next(q: Queue, s: Step): Queue
    requires s.StartJob? || s.AnswerJob? || s.ReleaseJob? ==> q.chain != []
  {
    match s
    case Arrive(k, settled) =>
      if k in q.used then q
      else if settled then Enqueued(q.(used := q.used + {k}), k)
      else q.(used := q.used + {k}, awaiting := q.awaiting + {k})
    case BroadcastEnds(k, ok) =>
      if ok then Enqueued(q.(awaiting := q.awaiting - {k}), k)
      else q.(awaiting := q.awaiting - {k}, used := q.used - {k})
    case BroadcastThrows(k) => q.(awaiting := q.awaiting - {k}, stranded := q.stranded + {k})
    case StartJob => Moved(q, Lighting, Running).(counter := q.counter + 1)
    case AnswerJob(ok) => Moved(q, if ok then Lit else Failed, Over)
    case ReleaseJob => q.(chain := q.chain[1..], pending := Without(q.pending, q.chain[0].ticket))
  }

  ghost predicate IsRun(qs: seq<Queue>, ss: seq<Step>) {
    && |qs| == |ss| + 1 && qs[0] == EMPTY
    && forall i :: 0 <= i < |ss| ==> Possible(qs[i], ss[i]) && qs[i + 1] == Next(qs[i], ss[i])
  }

  // ── The invariant ──────────────────────────────────────────────────

  ghost predicate Distinct(s: seq<string>) {
    forall i, j :: 0 <= i < j < |s| ==> s[i] != s[j]
  }

  /** How many activations have let the queue go. */
  function Released(q: Queue): int {
    |q.enqueued| - |q.chain|
  }

  predicate Finished(t: TicketState) {
    t == Lit || t == Failed
  }

  predicate StateFits(t: TicketState, stage: Stage) {
    match stage
    case Waiting => t == Queued
    case Running => t == Lighting
    case Over => Finished(t)
  }

  /** Every payment spent awaits its broadcast, was enqueued or is stranded: one of the three, and never twice. */
  ghost predicate ClaimInv(q: Queue) {
    && (forall k :: k in q.used <==> k in q.awaiting || k in q.enqueued || k in q.stranded)
    && (forall k :: k in q.awaiting ==> k !in q.enqueued && k !in q.stranded)
    && (forall k :: k in q.stranded ==> k !in q.enqueued)
    && Distinct(q.enqueued)
    && (forall k :: k in q.tickets <==> k in q.enqueued)
  }

  /** What is pending is what is chained: the newest tickets, in the order they came; only the first has started. */
  ghost predicate ChainInv(q: Queue) {
    && |q.chain| <= |q.enqueued|
    && q.pending == q.enqueued[Released(q)..]
    && (forall i :: 0 <= i < |q.chain| ==> q.chain[i].ticket == q.pending[i])
    && (forall i :: 0 < i < |q.chain| ==> q.chain[i].stage == Waiting)
  }

  ghost predicate StateInv(q: Queue)
    requires ClaimInv(q) && ChainInv(q)
  {
    && (forall i :: 0 <= i < Released(q) ==> Finished(q.tickets[q.enqueued[i]]))
    && (forall i :: 0 <= i < |q.chain| ==> StateFits(q.tickets[q.chain[i].ticket], q.chain[i].stage))
    && q.counter == Released(q) + if q.chain != [] && q.chain[0].stage != Waiting then 1 else 0
  }

  ghost predicate Inv(q: Queue) {
    ClaimInv(q) && ChainInv(q) && StateInv(q)
  }

  function Claimed(q: Queue, key: string): Queue {
    Enqueued(q.(used := q.used + {key}), key)
  }

  lemma EnqueueKeepsClaims(q: Queue, key: string)
    requires ClaimInv(q) && key !in q.used
    ensures ClaimInv(Claimed(q, key))
  {
  }

  lemma EnqueueKeepsChain(q: Queue, key: string)
    requires ChainInv(q)
    ensures ChainInv(Claimed(q, key)) && Released(Claimed(q, key)) == Released(q)
  {
    var t := Claimed(q, key);
    assert t.pending == t.enqueued[Released(t)..];
  }

  lemma EnqueueKeepsInv(q: Queue, key: string)
    requires Inv(q) && key !in q.used
    ensures Inv(Claimed(q, key))
  {
    var t := Claimed(q, key);
    EnqueueKeepsClaims(q, key);
    EnqueueKeepsChain(q, key);
    forall i | 0 <= i < Released(t) ensures Finished(t.tickets[t.enqueued[i]]) {
      assert t.enqueued[i] == q.enqueued[i] && q.enqueued[i] in q.enqueued;
    }
    forall i | 0 <= i < |t.chain| ensures StateFits(t.tickets[t.chain[i].ticket], t.chain[i].stage) {
      assert i < |q.chain| ==> t.chain[i] == q.chain[i] && q.chain[i].ticket == q.enqueued[Released(q) + i];
    }
  }

  lemma MoveKeepsChain(q: Queue, state: TicketState, stage: Stage)
    requires ClaimInv(q) && ChainInv(q) && q.chain != []
    ensures var t := Moved(q, state, stage).(counter := Released(q) + 1);
            ClaimInv(t) && ChainInv(t) && Released(t) == Released(q)
  {
    assert q.chain[0].ticket == q.enqueued[Released(q)];
  }

  lemma MoveKeepsInv(q: Queue, state: TicketState, stage: Stage)
    requires Inv(q) && q.chain != [] && StateFits(state, stage) && stage != Waiting
    ensures Inv(Moved(q, state, stage).(counter := Released(q) + 1))
  {
    var t := Moved(q, state, stage).(counter := Released(q) + 1);
    MoveKeepsChain(q, state, stage);
    assert t.tickets == q.tickets[q.chain[0].ticket := state] && t.enqueued == q.enqueued;
    assert q.chain[0].ticket == q.enqueued[Released(q)];
    forall i | 0 <= i < Released(t) ensures Finished(t.tickets[t.enqueued[i]]) {
      assert q.enqueued[i] != q.enqueued[Released(q)];
    }
    forall i | 0 < i < |t.chain| ensures StateFits(t.tickets[t.chain[i].ticket], t.chain[i].stage) {
      assert t.chain[i] == q.chain[i] && q.chain[i].ticket == q.enqueued[Released(q) + i];
    }
  }

  lemma ReleaseKeepsChain(q: Queue)
    requires ChainInv(q) && q.chain != []
    ensures ChainInv(Next(q, ReleaseJob)) && Released(Next(q, ReleaseJob)) == Released(q) + 1
  {
    var t := Next(q, ReleaseJob);
    assert q.pending[0] == q.chain[0].ticket;
    HeadGoesFirst(q.pending);
    assert q.pending[1..] == q.enqueued[Released(t)..];
  }

  lemma HeadGoesFirst(s: seq<string>)
    requires s != []
    ensures Without(s, s[0]) == s[1..]
  {
    assert s[..0] + s[1..] == s[1..];
  }

  lemma ReleaseKeepsInv(q: Queue)
    requires Inv(q) && Possible(q, ReleaseJob)
    ensures Inv(Next(q, ReleaseJob))
  {
    hide Without;
    var t := Next(q, ReleaseJob);
    ReleaseKeepsChain(q);
    assert ClaimInv(t);
    forall i | 0 <= i < |t.chain| ensures StateFits(t.tickets[t.chain[i].ticket], t.chain[i].stage) {
      assert t.chain[i] == q.chain[i + 1];
    }
    forall i | 0 <= i < Released(t) ensures Finished(t.tickets[t.enqueued[i]]) {
      assert i == Released(q) ==> q.enqueued[i] == q.chain[0].ticket;
    }
  }

  lemma ArriveKeepsInv(q: Queue, key: string, settled: bool)
    requires Inv(q)
    ensures Inv(Next(q, Arrive(key, settled)))
  {
    if key !in q.used {
      if settled {
        EnqueueKeepsInv(q, key);
      } else {
        assert ChainInv(Next(q, Arrive(key, settled)));
      }
    }
  }

  /** A failed broadcast gives the payment back; nothing else has moved. */
  lemma GiveBackKeepsInv(q: Queue, key: string)
    requires Inv(q) && key in q.awaiting
    ensures Inv(q.(awaiting := q.awaiting - {key}, used := q.used - {key}))
  {
    assert ChainInv(q.(awaiting := q.awaiting - {key}, used := q.used - {key}));
  }

  lemma ThrowKeepsInv(q: Queue, key: string)
    requires Inv(q) && key in q.awaiting
    ensures Inv(Next(q, BroadcastThrows(key)))
  {
    assert ChainInv(Next(q, BroadcastThrows(key)));
  }

  lemma BroadcastKeepsInv(q: Queue, key: string, ok: bool)
    requires Inv(q) && key in q.awaiting
    ensures Inv(Next(q, BroadcastEnds(key, ok)))
  {
    var p := q.(awaiting := q.awaiting - {key}, used := q.used - {key});
    GiveBackKeepsInv(q, key);
    if ok {
      assert key in q.used;
      assert p.used + {key} == q.used;
      hide Inv;
      EnqueueKeepsInv(p, key);
    }
  }

  lemma StepKeepsInv(q: Queue, s: Step)
    requires Inv(q) && Possible(q, s)
    ensures Inv(Next(q, s))
  {
    hide Inv, StateInv, ClaimInv, ChainInv;
    match s
    case Arrive(k, settled) => ArriveKeepsInv(q, k, settled);
    case BroadcastEnds(k, ok) => BroadcastKeepsInv(q, k, ok);
    case BroadcastThrows(k) => ThrowKeepsInv(q, k);
    case StartJob =>
      CounterIsReleased(q);
      MoveKeepsInv(q, Lighting, Running);
    case AnswerJob(ok) =>
      CounterIsReleased(q);
      MoveKeepsInv(q, if ok then Lit else Failed, Over);
    case ReleaseJob => ReleaseKeepsInv(q);
  }

  lemma CounterIsReleased(q: Queue)
    requires Inv(q) && q.chain != []
    ensures q.counter == Released(q) + if q.chain[0].stage != Waiting then 1 else 0
  {
  }

  lemma {:induction false} RunKeepsInv(qs: seq<Queue>, ss: seq<Step>, i: nat)
    requires IsRun(qs, ss) && i < |qs|
    ensures Inv(qs[i])
  {
    if i > 0 {
      RunKeepsInv(qs, ss, i - 1);
      StepKeepsInv(qs[i - 1], ss[i - 1]);
    }
  }

  // ── What only grows ────────────────────────────────────────────────

  /** Tickets are only added, starts and releases only counted up, and a finished ticket stays as it ended. */
  ghost predicate Later(q: Queue, t: Queue) {
    && q.enqueued <= t.enqueued && Released(q) <= Released(t) && q.counter <= t.counter && q.stranded <= t.stranded
    && (forall k :: k in q.tickets ==> k in t.tickets)
    && (forall k :: k in q.tickets && Finished(q.tickets[k]) ==> t.tickets[k] == q.tickets[k])
  }

  lemma HeadIsNotFinished(q: Queue)
    requires Inv(q) && q.chain != [] && q.chain[0].stage != Over
    ensures q.chain[0].ticket in q.tickets && !Finished(q.tickets[q.chain[0].ticket])
  {
  }

  lemma StepIsLater(q: Queue, s: Step)
    requires Inv(q) && Possible(q, s)
    ensures Later(q, Next(q, s))
  {
    hide Inv, Without;
    NewTicketIsUnknown(q, s);
    if s.StartJob? || s.AnswerJob? {
      HeadIsNotFinished(q);
    }
  }

  lemma NewTicketIsUnknown(q: Queue, s: Step)
    requires Inv(q) && Possible(q, s)
    ensures (s.Arrive? && s.key !in q.used) || s.BroadcastEnds? ==> s.key !in q.tickets
  {
  }

  lemma {:induction false} RunOnlyGrows(qs: seq<Queue>, ss: seq<Step>, i: nat, j: nat)
    requires IsRun(qs, ss) && i <= j < |qs|
    ensures Later(qs[i], qs[j])
    decreases j - i
  {
    hide Inv, Next, Possible;
    if i < j {
      RunOnlyGrows(qs, ss, i, j - 1);
      RunKeepsInv(qs, ss, j - 1);
      StepIsLater(qs[j - 1], ss[j - 1]);
    }
  }

  // ── What holds in every run ────────────────────────────────────────

  /** No payment is ever enqueued twice, and one that was enqueued is refused from then on. */
  lemma EnqueuedOnce(qs: seq<Queue>, ss: seq<Step>, i: nat, j: nat, key: string)
    requires IsRun(qs, ss) && i <= j < |qs| && key in qs[i].enqueued
    ensures Distinct(qs[j].enqueued) && qs[i].enqueued <= qs[j].enqueued
    ensures Next(qs[j], Arrive(key, true)) == qs[j] && Next(qs[j], Arrive(key, false)) == qs[j]
  {
    RunOnlyGrows(qs, ss, i, j);
    RunKeepsInv(qs, ss, j);
  }

  /**
   * A payment whose broadcast throws is neither given back nor enqueued: it is
   * refused from then on, and never lights.
   */
  lemma StrandedForGood(qs: seq<Queue>, ss: seq<Step>, i: nat, j: nat, key: string)
    requires IsRun(qs, ss) && i <= j < |qs| && key in qs[i].stranded
    ensures key in qs[j].used && key !in qs[j].enqueued && key !in qs[j].tickets
    ensures Next(qs[j], Arrive(key, true)) == qs[j] && Next(qs[j], Arrive(key, false)) == qs[j]
  {
    RunOnlyGrows(qs, ss, i, j);
    RunKeepsInv(qs, ss, j);
  }

  // ── What a run did decides what it holds ───────────────────────────

  /** A payment is stranded exactly when some broadcast call for it threw. */
  lemma {:induction false} StrandedExactly(qs: seq<Queue>, ss: seq<Step>, i: nat, key: string)
    requires IsRun(qs, ss) && i < |qs|
    ensures key in qs[i].stranded <==> exists j :: 0 <= j < i && ss[j] == BroadcastThrows(key)
  {
    if i > 0 {
      StrandedExactly(qs, ss, i - 1, key);
      hide Without;
      assert key in qs[i].stranded <==> key in qs[i - 1].stranded || ss[i - 1] == BroadcastThrows(key);
    }
  }

  /** From step j on nothing has given the payment back. */
  ghost predicate KeptSince(ss: seq<Step>, key: string, j: int, i: int) {
    0 <= j < i <= |ss| && forall k :: j < k < i ==> ss[k] != BroadcastEnds(key, false)
  }

  /** A payment is spent exactly when it has arrived and no broadcast of it has failed since. */
  lemma {:induction false} SpentExactly(qs: seq<Queue>, ss: seq<Step>, i: nat, key: string)
    requires IsRun(qs, ss) && i < |qs|
    ensures key in qs[i].used <==> exists j :: KeptSince(ss, key, j, i) && ss[j].Arrive? && ss[j].key == key
  {
    if i > 0 {
      SpentExactly(qs, ss, i - 1, key);
      hide Without;
      var s := ss[i - 1];
      assert key in qs[i].used <==>
        (key in qs[i - 1].used && s != BroadcastEnds(key, false)) || (s.Arrive? && s.key == key);
      if key in qs[i].used {
        if s.Arrive? && s.key == key {
          assert KeptSince(ss, key, i - 1, i);
        } else {
          var j :| KeptSince(ss, key, j, i - 1) && ss[j].Arrive? && ss[j].key == key;
          assert KeptSince(ss, key, j, i);
        }
      }
      if j :| KeptSince(ss, key, j, i) && ss[j].Arrive? && ss[j].key == key {
        assert j < i - 1 ==> KeptSince(ss, key, j, i - 1);
      }
    }
  }

  /** A payment whose broadcast failed is given back: its next arrival is claimed as if it were the first. */
  lemma GivenBack(qs: seq<Queue>, ss: seq<Step>, i: nat, key: string)
    requires IsRun(qs, ss) && i < |ss| && ss[i] == BroadcastEnds(key, false)
    ensures var q := qs[i + 1];
            && key !in q.used && key !in q.awaiting && key !in q.enqueued && key !in q.stranded
            && key in Next(q, Arrive(key, false)).awaiting
            && Next(q, Arrive(key, true)).pending == q.pending + [key]
            && q.pending == qs[i].pending && q.tickets == qs[i].tickets && q.chain == qs[i].chain
  {
    RunKeepsInv(qs, ss, i + 1);
  }

  /** The payment was enqueued at step j: it arrived settled for the first time, or its broadcast ended well. */
  ghost predicate EnqueuedAt(qs: seq<Queue>, ss: seq<Step>, key: string, j: int) {
    && 0 <= j < |ss| < |qs|
    && ((ss[j] == Arrive(key, true) && key !in qs[j].used) || ss[j] == BroadcastEnds(key, true))
  }

  lemma {:induction false} EnqueuedExactly(qs: seq<Queue>, ss: seq<Step>, i: nat, key: string)
    requires IsRun(qs, ss) && i < |qs|
    ensures key in qs[i].enqueued <==> exists j :: j < i && EnqueuedAt(qs, ss, key, j)
  {
    if i > 0 {
      EnqueuedExactly(qs, ss, i - 1, key);
      hide Without;
      assert key in qs[i].enqueued <==> key in qs[i - 1].enqueued || EnqueuedAt(qs, ss, key, i - 1);
    }
  }

  ghost predicate IsHead(q: Queue, ticket: string) {
    q.chain != [] && q.chain[0].ticket == ticket
  }

  /** The ticket's activation was answered at step j. */
  ghost predicate AnsweredAt(qs: seq<Queue>, ss: seq<Step>, ticket: string, ok: bool, j: int) {
    0 <= j < |ss| < |qs| && ss[j] == AnswerJob(ok) && IsHead(qs[j], ticket)
  }

  ghost predicate StartedAt(qs: seq<Queue>, ss: seq<Step>, ticket: string, j: int) {
    0 <= j < |ss| < |qs| && ss[j] == StartJob && IsHead(qs[j], ticket)
  }

  /** What a ticket's state is, by what happened to it: started or not, and the mesh's answer. */
  lemma {:induction false} TicketTellsItsStory(qs: seq<Queue>, ss: seq<Step>, i: nat, ticket: string)
    requires IsRun(qs, ss) && i < |qs| && ticket in qs[i].tickets
    ensures var t := qs[i].tickets[ticket];
            && (t == Lit <==> exists j :: j < i && AnsweredAt(qs, ss, ticket, true, j))
            && (t == Failed <==> exists j :: j < i && AnsweredAt(qs, ss, ticket, false, j))
            && (t == Queued <==> forall j :: j < i ==> !StartedAt(qs, ss, ticket, j))
  {
    hide Inv, Next, Possible;
    if i > 0 {
      RunKeepsInv(qs, ss, i - 1);
      var q, s := qs[i - 1], ss[i - 1];
      StepTellsTickets(q, s, ticket);
      if ticket in q.tickets {
        TicketTellsItsStory(qs, ss, i - 1, ticket);
      } else {
        UnknownHasNoStory(qs, ss, i - 1, ticket);
      }
      hide IsRun, IsHead;
      assert AnsweredAt(qs, ss, ticket, true, i - 1) <==> s == AnswerJob(true) && IsHead(q, ticket);
      assert AnsweredAt(qs, ss, ticket, false, i - 1) <==> s == AnswerJob(false) && IsHead(q, ticket);
      assert StartedAt(qs, ss, ticket, i - 1) <==> s == StartJob && IsHead(q, ticket);
    }
  }

  /** One step changes a ticket's state only by starting or answering it at the head. */
  lemma StepTellsTickets(q: Queue, s: Step, ticket: string)
    requires Inv(q) && Possible(q, s) && ticket in Next(q, s).tickets
    ensures var t := Next(q, s).tickets[ticket];
            if ticket !in q.tickets then t == Queued && !IsHead(q, ticket)
            else if s == StartJob && IsHead(q, ticket) then t == Lighting && q.tickets[ticket] == Queued
            else if s.AnswerJob? && IsHead(q, ticket) then
              t == (if s.ok then Lit else Failed) && q.tickets[ticket] == Lighting
            else t == q.tickets[ticket]
  {
    hide Without;
    NewTicketIsUnknown(q, s);
    if q.chain != [] {
      HeadIsKnown(q);
    }
  }

  lemma HeadIsKnown(q: Queue)
    requires Inv(q) && q.chain != []
    ensures q.chain[0].ticket in q.tickets && StateFits(q.tickets[q.chain[0].ticket], q.chain[0].stage)
  {
  }

  /** A ticket that is not yet known was never started or answered. */
  lemma {:induction false} UnknownHasNoStory(qs: seq<Queue>, ss: seq<Step>, i: nat, ticket: string)
    requires IsRun(qs, ss) && i < |qs| && ticket !in qs[i].tickets
    ensures forall j, ok :: j < i ==> !AnsweredAt(qs, ss, ticket, ok, j)
    ensures forall j :: j < i ==> !StartedAt(qs, ss, ticket, j)
  {
    forall j | 0 <= j < i ensures !IsHead(qs[j], ticket) {
      RunOnlyGrows(qs, ss, j, i);
      RunKeepsInv(qs, ss, j);
      if qs[j].chain != [] {
        HeadIsKnown(qs[j]);
      }
    }
  }

  /** With no broadcast in the air, a spent payment has its ticket if and only if its broadcast did not throw. */
  lemma SpentIsTicketed(qs: seq<Queue>, ss: seq<Step>, i: nat, key: string)
    requires IsRun(qs, ss) && i < |qs| && qs[i].awaiting == {} && key in qs[i].used
    ensures key in qs[i].tickets <==> key !in qs[i].stranded
  {
    RunKeepsInv(qs, ss, i);
  }

  /** Each start lights a different ticket: the next one in the order they were enqueued. */
  lemma LitOnce(qs: seq<Queue>, ss: seq<Step>, i: nat, j: nat)
    requires IsRun(qs, ss) && i < j < |ss| && ss[i].StartJob? && ss[j].StartJob?
    ensures qs[i].counter < qs[j].counter < |qs[j].enqueued|
    ensures qs[i].chain[0].ticket == qs[j].enqueued[qs[i].counter]
        && qs[j].chain[0].ticket == qs[j].enqueued[qs[j].counter]
    ensures qs[i].chain[0].ticket != qs[j].chain[0].ticket
  {
    RunKeepsInv(qs, ss, i);
    RunKeepsInv(qs, ss, j);
    RunOnlyGrows(qs, ss, i + 1, j);
    assert qs[i].chain[0].ticket == qs[i].enqueued[qs[i].counter];
  }

  /** At most one ticket is lighting, and it is the first pending one. */
  lemma OneLighting(qs: seq<Queue>, ss: seq<Step>, i: nat, ticket: string)
    requires IsRun(qs, ss) && i < |qs|
    requires ticket in qs[i].tickets && qs[i].tickets[ticket] == Lighting
    ensures qs[i].pending != [] && ticket == qs[i].pending[0]
  {
    RunKeepsInv(qs, ss, i);
    var q := qs[i];
    var k :| 0 <= k < |q.enqueued| && q.enqueued[k] == ticket;
    var c := k - Released(q);
    assert c >= 0 ==> q.chain[c].ticket == ticket;
  }

  /** Pending tickets are the newest ones, in the order they were enqueued. */
  lemma PendingKeepsOrder(qs: seq<Queue>, ss: seq<Step>, i: nat)
    requires IsRun(qs, ss) && i < |qs|
    ensures 0 <= Released(qs[i]) <= |qs[i].enqueued| && qs[i].pending == qs[i].enqueued[Released(qs[i])..]
    ensures forall k :: k in qs[i].pending ==> k in qs[i].tickets && k in qs[i].used
  {
    RunKeepsInv(qs, ss, i);
  }

  /** A ticket's place as queueStatus counts it: its index in pending. */
  function Ahead(q: Queue, ticket: string): int {
    Max(IndexOf(q.pending, ticket), 0)
  }

  /** A pending ticket's place is its number less those released. */
  lemma AheadIs(q: Queue, k: nat)
    requires Inv(q) && k < |q.enqueued|
    ensures Ahead(q, q.enqueued[k]) == Max(k - Released(q), 0)
  {
    hide StateInv;
    var i := IndexOf(q.pending, q.enqueued[k]);
    if k >= Released(q) {
      assert q.pending[k - Released(q)] == q.enqueued[k];
    }
    assert i >= 0 ==> q.enqueued[Released(q) + i] == q.enqueued[k];
  }

  /** Once enqueued, a ticket only moves forward. */
  lemma AheadNeverGrows(qs: seq<Queue>, ss: seq<Step>, i: nat, j: nat, ticket: string)
    requires IsRun(qs, ss) && i <= j < |qs| && ticket in qs[i].enqueued
    ensures Ahead(qs[j], ticket) <= Ahead(qs[i], ticket)
  {
    RunKeepsInv(qs, ss, i);
    RunKeepsInv(qs, ss, j);
    RunOnlyGrows(qs, ss, i, j);
    var k :| 0 <= k < |qs[i].enqueued| && qs[i].enqueued[k] == ticket;
    hide Inv, Ahead;
    AheadIs(qs[i], k);
    AheadIs(qs[j], k);
  }

  /** What a ticket came to is never revised. */
  lemma OutcomeIsFinal(qs: seq<Queue>, ss: seq<Step>, i: nat, j: nat, ticket: string)
    requires IsRun(qs, ss) && i <= j < |qs|
    requires ticket in qs[i].tickets && Finished(qs[i].tickets[ticket])
    ensures ticket in qs[j].tickets && qs[j].tickets[ticket] == qs[i].tickets[ticket]
  {
    RunOnlyGrows(qs, ss, i, j);
  }

  // ── The object ─────────────────────────────────────────────────────

  /** How a request fares before anything is claimed; a verified payment is named by its txid. */
  datatype Payment = BadPrice | NoHeader | Malformed | Rejected | Verified(key: string)

  datatype Answer = Status(code: int) | Broadcasting | Accepted(ahead: nat)

  /** What the mesh says to one activation. */
  datatype Outcome = Acknowledged | Unanswered | TimedOut | MeshError

  class X402CellBridge {
    var used: set<string>
    var awaiting: set<string>
    var pending: seq<string>
    var tickets: map<string, TicketState>
    var chain: seq<Job>
    var counter: nat
    ghost var enqueued: seq<string>
    ghost var stranded: set<string>

    ghost function Value(): Queue
      reads this
    {
      Queue(used, awaiting, pending, tickets, chain, counter, enqueued, stranded)
    }

    constructor ()
      ensures Value() == EMPTY
    {
      used, awaiting, pending, tickets, chain, counter, enqueued, stranded := {}, {}, [], map[], [], 0, [], {};
    }

    /** Up to the first await: a payment is claimed before anything waits. */
    method Activate(p: Payment, settled: bool) returns (r: Answer)
      modifies this
      ensures p.Verified? ==> Value() == Next(old(Value()), Arrive(p.key, settled))
      ensures !p.Verified? ==> Value() == old(Value())
      ensures r == match p
                   case BadPrice => Status(400)
                   case NoHeader => Status(402)
                   case Malformed => Status(400)
                   case Rejected => Status(402)
                   case Verified(k) =>
                     if k in old(used) then Status(409) else if settled then Accepted(|old(pending)|) else Broadcasting
    {
      match p
      case BadPrice => return Status(400);
      case NoHeader => return Status(402);
      case Malformed => return Status(400);
      case Rejected => return Status(402);
      case Verified(ticket) =>
        if ticket in used {
          return Status(409);
        }
        used := used + {ticket};
        if !settled {
          awaiting := awaiting + {ticket};
          return Broadcasting;
        }
        var ahead := Enqueue(ticket);
        return Accepted(ahead);
    }

    /** After the await: a payment that never settled may be tried again. */
    method BroadcastDone(ticket: string, ok: bool) returns (r: Answer)
      requires ticket in awaiting
      modifies this
      ensures Value() == Next(old(Value()), BroadcastEnds(ticket, ok))
      ensures !ok ==> used == old(used) - {ticket}
      ensures !ok ==> unchanged(`pending, `tickets, `chain, `enqueued, `stranded)
      ensures ok ==> used == old(used) && pending == old(pending) + [ticket]
      ensures ok ==> tickets == old(tickets)[ticket := Queued]
      ensures r == if ok then Accepted(|old(pending)|) else Status(502)
    {
      awaiting := awaiting - {ticket};
      if !ok {
        used := used - {ticket};
        return Status(502);
      }
      var ahead := Enqueue(ticket);
      return Accepted(ahead);
    }

    /** The broadcast call itself threw: nothing after the await runs, so the claim stays. */
    method BroadcastThrew(ticket: string)
      requires ticket in awaiting
      modifies this`awaiting, this`stranded
      ensures Value() == Next(old(Value()), BroadcastThrows(ticket))
    {
      awaiting := awaiting - {ticket};
      stranded := stranded + {ticket};
    }

    /** Append a ticket to the queue and its job to the chain. */
    method Enqueue(ticket: string) returns (ahead: nat)
      modifies this`tickets, this`pending, this`chain, this`enqueued
      ensures Value() == Enqueued(old(Value()), ticket) && ahead == |old(pending)|
    {
      ahead := |pending|;
      tickets := tickets[ticket := Queued];
      pending := pending + [ticket];
      chain := chain + [Job(ticket, Waiting)];
      enqueued := enqueued + [ticket];
    }

    /** The tail has resolved: the next activation's cell goes out. */
    method Actuate()
      requires chain != [] && chain[0].stage == Waiting
      modifies this`tickets, this`chain, this`counter
      ensures Value() == Next(old(Value()), StartJob)
    {
      tickets := tickets[chain[0].ticket := Lighting];
      chain := [Job(chain[0].ticket, Running)] + chain[1..];
      counter := counter + 1;
    }

    method Answered(outcome: Outcome) returns (r: Answer)
      requires chain != [] && chain[0].stage == Running
      modifies this`tickets, this`chain
      ensures Value() == Next(old(Value()), AnswerJob(outcome == Acknowledged))
      ensures tickets == old(tickets)[old(chain)[0].ticket := if outcome == Acknowledged then Lit else Failed]
      ensures r == Status(if outcome == Acknowledged then 200 else if outcome == MeshError then 502 else 504)
    {
      var state, code := Failed, 504;
      if outcome == MeshError {
        code := 502;
      } else if outcome == Acknowledged {
        state, code := Lit, 200;
      }
      tickets := tickets[chain[0].ticket := state];
      chain := [Job(chain[0].ticket, Over)] + chain[1..];
      r := Status(code);
    }

    /** After the hold: the ticket leaves the queue. */
    method Done()
      requires chain != [] && chain[0].stage == Over
      modifies this`pending, this`chain
      ensures Value() == Next(old(Value()), ReleaseJob)
    {
      var i := IndexOf(pending, chain[0].ticket);
      if i >= 0 {
        pending := pending[..i] + pending[i + 1..];
      }
      chain := chain[1..];
    }

    /** A ticket's place is its place among those enqueued, less those released. */
    method QueueStatus(ticket: string) returns (state: Option<TicketState>, ahead: int, length: nat)
      requires Inv(Value())
      ensures state.Some? <==> ticket in enqueued
      ensures state.Some? ==> ticket in tickets && state.value == tickets[ticket]
      ensures forall k :: 0 <= k < |enqueued| && enqueued[k] == ticket ==> ahead == Max(k - Released(Value()), 0)
      ensures state.Some? ==> (Finished(state.value) ==> ahead == 0) && (state == Some(Lighting) ==> ahead == 0)
      ensures state.None? ==> ahead == 0
      ensures length == |enqueued| - Released(Value())
    {
      state := if ticket in tickets then Some(tickets[ticket]) else None;
      var i := IndexOf(pending, ticket);
      ahead := if i >= 0 then i else 0;
      length := |pending|;
      forall k | 0 <= k < |enqueued| && enqueued[k] == ticket
        ensures ahead == Max(k - Released(Value()), 0)
        ensures state.Some? && state.value != Queued ==> ahead == 0
      {
        AheadIs(Value(), k);
        if tickets[enqueued[k]] != Queued {
          StartedIsFirst(Value(), k);
        }
      }
    }

    /** The queue's length, and whether a ticket is lighting. */
    method QueueLength() returns (length: nat, lighting: bool)
      requires Inv(Value())
      ensures length == |enqueued| - Released(Value())
      ensures lighting <==> length > 0 && tickets[pending[0]] == Lighting
    {
      length := |pending|;
      lighting := false;
      var rest := tickets.Keys;
      while rest != {}
        invariant rest <= tickets.Keys
        invariant lighting <==> exists k :: k in tickets.Keys - rest && tickets[k] == Lighting
        decreases |rest|
      {
        InhabitedTickets(rest);
        var k :| k in rest;
        rest := rest - {k};
        lighting := lighting || tickets[k] == Lighting;
      }
      LightingIsFirst(Value());
    }
  }

  lemma InhabitedTickets(s: set<string>)
    requires s != {}
    ensures exists k :: k in s
  {
    assert (forall k :: k !in s) ==> s == {};
  }

  /** Only the first pending ticket may have started. */
  lemma StartedIsFirst(q: Queue, k: nat)
    requires Inv(q) && k < |q.enqueued| && q.tickets[q.enqueued[k]] != Queued
    ensures k <= Released(q)
  {
    var i := k - Released(q);
    assert i >= 0 ==> q.chain[i].ticket == q.enqueued[k];
  }

  lemma LightingIsFirst(q: Queue)
    requires Inv(q)
    ensures (exists k :: k in q.tickets && q.tickets[k] == Lighting)
        <==> q.pending != [] && q.tickets[q.pending[0]] == Lighting
  {
    if k :| k in q.tickets && q.tickets[k] == Lighting {
      var i :| 0 <= i < |q.enqueued| && q.enqueued[i] == k;
      StartedIsFirst(q, i);
      assert i == Released(q);
    }
  }
}
