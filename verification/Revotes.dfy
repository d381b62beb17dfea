/**
 When a block may be voted again.  Acknowledged votes strictly increase as long as the in-memory
 progress covers them.  A fast sync that casts no vote resets that progress; whether this can put
 the order at risk depends on what the poller may still deliver and on what is finalized.

 The order is stated above a floor, a height that stands for what was stored before the run: powered
 heights at or below it count as voted.  With floor 0 the order is that of the run's own votes.
 */
module Revotes {
  import opened Progress
  import opened Eligibility
  import opened Engine
  import opened PollerInvariant
  import opened VoteOrder
  import Coverage
  import LagInvariant
  import Liveness
  import Shutdown

  // ---------------------------------------------------------------------------------------
  // What may still be delivered

  /** What a poller about to ask for n may fetch once a stop is requested, if its timer is not racy: it
      leaves for good at its next select, unless a skip request is pending there, which may be taken
      instead and leads to one more block. */
  predicate LastFetches(w: World, s: State, n: nat, u: nat) {
    || u == n
    || (s.consumer.Skipping? &&
        (u == Max(n, s.consumer.target) || (|s.poller.buffer| < w.capacity && u == Max(n + 1, s.consumer.target))))
  }

  /** Heights the poller may still fetch in the present session.  At a full buffer with the consumer
      waiting for an answer it fetches nothing any more, unless its timer is racy. */
  predicate MayFetch(w: World, s: State, u: nat) {
    var next := s.poller.nextHeight;
    if w.racyTimer then
      match s.poller.pc
      case Off => false
      case Answering(t) => Max(next, t) <= u
      case _ => next <= u
    else if !s.stopping then
      match s.poller.pc
      case Off => false
      case Answering(t) => Max(next, t) <= u
      case Pushing(_) => next <= u && !Liveness.Embraced(w, s)
      case Activating => Max(next, w.activation) <= u || LastFetches(w, s, next, u)
      case _ => next <= u
    else
      match s.poller.pc
      case Off => false
      case Answering(t) => u == Max(next, t)
      case Waiting => s.consumer.Skipping? && u == Max(next, s.consumer.target)
      case Pushing(_) => s.consumer.Skipping? && |s.poller.buffer| < w.capacity && u == Max(next, s.consumer.target)
      case Polling => LastFetches(w, s, next, u)
      case Activating => LastFetches(w, s, next, u) || LastFetches(w, s, Max(next, w.activation), u)
  }

  /** Heights the poller may still deliver in the present session. */
  predicate MayDeliver(w: World, s: State, u: nat) {
    Front(s) <= u && (u < s.poller.nextHeight || MayFetch(w, s, u))
  }

  /** Heights that a poller about to be launched at `first` may deliver.  With automatic scanning the
      chain may finalize up to any height before the launch; otherwise a stop during the wait for
      activation lets only the first height through. */
  predicate MayStartWith(w: World, first: nat, u: nat) {
    first <= u && (w.racyTimer || w.scan.Auto? || u == first || w.activation <= u)
  }

  /** A height with power that the poller may deliver once the present sync has ended. */
  predicate PolledAgain(w: World, s: State, u: nat) {
    && s.consumer.Syncing? && w.power(u) > 0
    && var s1 := SyncFinished(w, s);
       if s.consumer.boot then MayStartWith(w, FirstPolled(w, s1), u) else MayDeliver(w, s1, u)
  }

  predicate Resynced(w: World, s: State, v: nat) {
    w.limit >= 1 && s.finalized < v
  }

  /** Voted in this run, or stored before it. */
  predicate Marked(w: World, s: State, floor: nat, v: nat) {
    v in s.ledger.votes || (v <= floor && w.power(v) > 0)
  }

  /** The fast sync ends without a vote although some earlier vote is not finalized, so that another
      sync may repeat it, or although the poller may still deliver a powered height at or below it. */
  ghost predicate Exposes(w: World, s: State, a: Action, floor: nat) {
    && VotelessFinish(s, a)
    && exists v: nat ::
         Marked(w, s, floor, v) && (Resynced(w, s, v) || exists u: nat :: u <= v && PolledAgain(w, s, u))
  }

  /** Votes strictly increase and are above the floor. */
  ghost predicate InOrder(votes: seq<nat>, floor: nat) {
    Ascending(votes) && forall h :: h in votes ==> floor < h
  }

  // ---------------------------------------------------------------------------------------
  // The order is kept

  ghost predicate NoneDeliverable(w: World, s: State, v: nat) {
    forall u: nat :: u <= v && w.power(u) > 0 ==> !MayDeliver(w, s, u)
  }

  /** No vote at or below v can be cast any more in this session, whatever the memory says. */
  ghost predicate Passed(w: World, s: State, v: nat) {
    && !Resynced(w, s, v)
    && match s.consumer
       case Down => false
       case Launching => forall u: nat :: u <= v && w.power(u) > 0 ==> !MayStartWith(w, FirstPolled(w, s), u)
       case Syncing(next, _, synced, boot) =>
         !boot && synced == 0 && (w.limit == 0 || v < next) && NoneDeliverable(w, s, v)
       case Handling(h) => (w.power(h) > 0 ==> v < h) && NoneDeliverable(w, s, v)
       case _ => NoneDeliverable(w, s, v)
  }

  /** A marked height is stored, and is covered by the memory or passed for good. */
  ghost predicate Safe(w: World, s: State, v: nat) {
    && w.power(v) > 0
    && v <= s.ledger.copies.disk.processed
    && (v <= Processed(s) || Passed(w, s, v))
  }

  ghost predicate SafeInv(w: World, s: State, floor: nat) {
    && InOrder(s.ledger.votes, floor)
    && (forall v: nat :: Marked(w, s, floor, v) ==> Safe(w, s, v))
    && (s.consumer.Syncing? ==> s.finalized >= 1)
  }

  /** Without new votes, what is covered stays covered if the memory is not lowered, and what is
      passed has to stay passed. */
  lemma CarriesOver(w: World, s: State, s': State, floor: nat)
    requires SafeInv(w, s, floor)
    requires s'.ledger.votes == s.ledger.votes && s.ledger.copies.disk.processed <= s'.ledger.copies.disk.processed
    requires Processed(s) <= Processed(s') && (s'.consumer.Syncing? ==> s'.finalized >= 1)
    requires forall v: nat :: Processed(s') < v && Passed(w, s, v) ==> Passed(w, s', v)
    ensures SafeInv(w, s', floor)
  {
    forall v: nat | Marked(w, s', floor, v) ensures Safe(w, s', v) {
      assert Marked(w, s, floor, v);
      assert Safe(w, s, v);
    }
  }

  /** The same poller delivers the same, as long as no skip request appears. */
  lemma SamePollerSameReach(w: World, s: State, s': State)
    requires s'.poller == s.poller && s'.stopping == s.stopping
    requires s'.consumer == s.consumer || !s'.consumer.Skipping?
    requires s.consumer.Skipping? ==> s'.consumer == s.consumer || s.stopping
    ensures forall u: nat :: MayDeliver(w, s', u) ==> MayDeliver(w, s, u)
  {
  }

  /** No step of the poller puts a height back within reach. */
  lemma PollShrinks(w: World, s: State, a: PollerAct, u: nat)
    requires PollerInv(w, s) && PollEnabled(w, s, a) && MayDeliver(w, PollNext(w, s, a), u)
    ensures MayDeliver(w, s, u)
  {
    if a.Answer? && s.poller.nextHeight < s.poller.pc.target {
      AcceptedSkipEmpties(w, s);
    }
  }

  lemma PollKeepsSafe(w: World, s: State, a: PollerAct, floor: nat)
    requires PollerInv(w, s) && SafeInv(w, s, floor) && PollEnabled(w, s, a)
    ensures SafeInv(w, PollNext(w, s, a), floor)
  {
    var s' := PollNext(w, s, a);
    PollIsQuiet(w, s, a);
    forall u: nat | MayDeliver(w, s', u) ensures MayDeliver(w, s, u) {
      PollShrinks(w, s, a, u);
    }
    CarriesOver(w, s, s', floor);
  }

  lemma DeliveryShrinks(w: World, s: State, a: ConsumerAct, u: nat)
    requires PollerInv(w, s) && ConsumeEnabled(w, s, a) && (a.Receive? || a.Handoff?)
    requires MayDeliver(w, ConsumeNext(w, s, a), u)
    ensures MayDeliver(w, s, u)
  {
    DeliveryKeeps(w, s, a);
  }

  lemma DeliveryKeepsSafe(w: World, s: State, a: ConsumerAct, floor: nat)
    requires PollerInv(w, s) && SafeInv(w, s, floor) && ConsumeEnabled(w, s, a) && (a.Receive? || a.Handoff?)
    ensures SafeInv(w, ConsumeNext(w, s, a), floor)
  {
    var s' := ConsumeNext(w, s, a);
    DeliveryKeeps(w, s, a);
    assert MayDeliver(w, s, Front(s));
    forall u: nat | MayDeliver(w, s', u) ensures MayDeliver(w, s, u) {
      DeliveryShrinks(w, s, a, u);
    }
    CarriesOver(w, s, s', floor);
  }

  /** Votes above everything marked leave everything marked covered by the memory. */
  lemma NewVotesAreSafe(w: World, s: State, s': State, e: seq<nat>, floor: nat)
    requires SafeInv(w, s, floor) && s'.ledger == RecordVotes(s.ledger, e) && e != [] && Ascending(e)
    requires s'.consumer.Syncing? ==> s'.finalized >= 1
    requires forall v: nat, h :: Marked(w, s, floor, v) && h in e ==> v < h
    requires forall h :: h in e ==> w.power(h) > 0
    ensures SafeInv(w, s', floor)
  {
    var votes, last := s.ledger.votes, e[|e| - 1];
    assert forall i :: 0 <= i < |votes| ==> Marked(w, s, floor, votes[i]) && votes[i] in votes;
    assert forall i :: 0 <= i < |e| ==> e[i] in e;
    forall h | h in e ensures floor < h {
      assert !Marked(w, s, floor, h);
    }
    forall v: nat | Marked(w, s', floor, v) ensures v <= last && w.power(v) > 0 {
      assert v in e || Marked(w, s, floor, v);
      assert last in e;
      assert Marked(w, s, floor, v) ==> Safe(w, s, v);
    }
  }

  lemma JudgeKeepsSafe(w: World, s: State, v: Verdict, floor: nat)
    requires SafeInv(w, s, floor) && ConsumeEnabled(w, s, Judge(v))
    ensures SafeInv(w, Judged(w, s, s.consumer.height, v), floor)
  {
    var s' := Judged(w, s, s.consumer.height, v);
    if v.Acked? {
      forall x: nat | Marked(w, s, floor, x) ensures x < s.consumer.height {
        assert Safe(w, s, x);
      }
      NewVotesAreSafe(w, s, s', [s.consumer.height], floor);
    } else {
      SamePollerSameReach(w, s, s');
      CarriesOver(w, s, s', floor);
    }
  }

  lemma PageKeepsSafe(w: World, s: State, floor: nat)
    requires SafeInv(w, s, floor) && PageLeft(w, s)
    ensures SafeInv(w, Paged(w, s, PageOk), floor)
  {
    var s' := Paged(w, s, PageOk);
    EligibleIsExact(w.power, Processed(s), s.consumer.next, s'.consumer.next);
    var e := PageVotes(w, s);
    if e != [] {
      forall x: nat, h | Marked(w, s, floor, x) && h in e ensures x < h {
        assert Safe(w, s, x);
      }
      NewVotesAreSafe(w, s, s', e, floor);
    } else {
      SamePollerSameReach(w, s, s');
      CarriesOver(w, s, s', floor);
    }
  }

  /** A sync that ends with a vote leaves the memory as it is; one that ends without a vote leaves
      everything marked passed unless it exposes something. */
  lemma FinishKeepsSafe(w: World, s: State, floor: nat)
    requires SafeInv(w, s, floor) && SyncShape(s) && ConsumeEnabled(w, s, FinishSync)
    requires !Exposes(w, s, Consume(FinishSync), floor)
    ensures SafeInv(w, SyncFinished(w, s), floor)
  {
    var s' := SyncFinished(w, s);
    forall v: nat | Marked(w, s', floor, v) ensures Safe(w, s', v) {
      assert Marked(w, s, floor, v);
      assert Safe(w, s, v);
      if s.consumer.synced == 0 {
        forall u: nat | u <= v && w.power(u) > 0
          ensures if s.consumer.boot then !MayStartWith(w, FirstPolled(w, s'), u) else !MayDeliver(w, s', u)
        {
          assert !PolledAgain(w, s, u);
        }
      }
    }
  }

  /** Memory read back from the store covers everything marked. */
  lemma KilledIsSafe(w: World, s: State, floor: nat)
    requires SafeInv(w, s, floor)
    ensures SafeInv(w, Killed(s), floor)
  {
    forall v: nat | Marked(w, Killed(s), floor, v) ensures Safe(w, Killed(s), v) {
      assert Marked(w, s, floor, v);
      assert Safe(w, s, v);
    }
  }

  lemma OtherConsumeKeepsSafe(w: World, s: State, a: ConsumerAct, floor: nat)
    requires SafeInv(w, s, floor) && ConsumeEnabled(w, s, a)
    requires a.HandleStale? || a.TakeTarget? || a.AbortSkip? || (a.Page? && a.reply.PageError?)
    ensures SafeInv(w, ConsumeNext(w, s, a), floor)
  {
    var s' := ConsumeNext(w, s, a);
    if s'.consumer.Down? {
      KilledIsSafe(w, s, floor);
    } else {
      SamePollerSameReach(w, s, s');
      CarriesOver(w, s, s', floor);
    }
  }

  lemma StopShrinks(w: World, s: State, u: nat)
    requires MayDeliver(w, s.(stopping := true), u)
    ensures MayDeliver(w, s, u)
  {
  }

  /** The launched poller delivers what was expected of it before the launch. */
  lemma LaunchShrinks(w: World, s: State, tip: nat, u: nat)
    requires LifeEnabled(w, s, Launch(tip)) && LifeNext(w, s, Launch(tip)).consumer.Idle?
    requires MayDeliver(w, LifeNext(w, s, Launch(tip)), u)
    ensures MayStartWith(w, FirstPolled(w, s), u)
  {
  }

  lemma LifeKeepsSafe(w: World, s: State, a: LifeAct, floor: nat)
    requires SafeInv(w, s, floor) && LifeEnabled(w, s, a)
    ensures SafeInv(w, LifeNext(w, s, a), floor)
  {
    var s' := LifeNext(w, s, a);
    if s'.consumer.Down? {
      KilledIsSafe(w, s, floor);
    } else if a.RequestStop? {
      forall u: nat | MayDeliver(w, s', u) ensures MayDeliver(w, s, u) {
        StopShrinks(w, s, u);
      }
      CarriesOver(w, s, s', floor);
    } else if a.Launch? {
      forall u: nat | MayDeliver(w, s', u) ensures MayStartWith(w, FirstPolled(w, s), u) {
        LaunchShrinks(w, s, a.tip, u);
      }
      CarriesOver(w, s, s', floor);
    } else {
      CarriesOver(w, s, s', floor);
    }
  }

  lemma LagKeepsSafe(w: World, s: State, a: LagAct, floor: nat)
    requires SafeInv(w, s, floor) && LagEnabled(w, s, a)
    ensures SafeInv(w, LagNext(w, s, a), floor)
  {
    var s' := LagNext(w, s, a);
    assert s' == s.(lagger := s'.lagger);
    SamePollerSameReach(w, s, s');
    CarriesOver(w, s, s', floor);
  }

  lemma FinalizeKeepsSafe(w: World, s: State, f: nat, floor: nat)
    requires SafeInv(w, s, floor) && s.finalized <= f
    ensures SafeInv(w, s.(finalized := f), floor)
  {
    var s' := s.(finalized := f);
    SamePollerSameReach(w, s, s');
    assert forall u: nat :: MayStartWith(w, FirstPolled(w, s'), u) ==> MayStartWith(w, FirstPolled(w, s), u);
    CarriesOver(w, s, s', floor);
  }

  lemma StepKeepsSafe(w: World, s: State, a: Action, floor: nat)
    requires PollerInv(w, s) && SyncShape(s) && SafeInv(w, s, floor) && Enabled(w, s, a) && !Exposes(w, s, a, floor)
    ensures SafeInv(w, Next(w, s, a), floor)
  {
    match a
    case Poll(p) => PollKeepsSafe(w, s, p, floor);
    case Life(x) => LifeKeepsSafe(w, s, x, floor);
    case Consume(c) =>
      match c {
        case Receive => DeliveryKeepsSafe(w, s, c, floor);
        case Handoff => DeliveryKeepsSafe(w, s, c, floor);
        case Judge(v) => JudgeKeepsSafe(w, s, v, floor);
        case Page(PageOk) => PageKeepsSafe(w, s, floor);
        case FinishSync => FinishKeepsSafe(w, s, floor);
        case _ => OtherConsumeKeepsSafe(w, s, c, floor);
      }
    case Lag(l) => LagKeepsSafe(w, s, l, floor);
    case Finalize(f) => FinalizeKeepsSafe(w, s, f, floor);
  }

  // ---------------------------------------------------------------------------------------
  // The order is broken

  ghost predicate NoFinish(acts: seq<Action>) {
    forall i :: 0 <= i < |acts| ==> acts[i] != Consume(FinishSync)
  }

  /** The idle loop's memory is behind everything the poller delivers, u among it. */
  ghost predicate Behind(w: World, s: State, u: nat) {
    && PollerInv(w, s) && s.consumer.Idle? && Processed(s) < Front(s) && MayDeliver(w, s, u) && w.power(u) > 0
    && (s.poller.pc.Activating? && !s.stopping ==> w.activation <= u)
  }

  /** The poller's next step towards a block in hand. */
  function TowardsBlock(w: World, s: State, u: nat): PollerAct {
    match s.poller.pc
    case Activating =>
      if s.stopping && (w.racyTimer || u == s.poller.nextHeight) then ActivationAborted else Activate(true)
    case Polling => Fetch(true)
    case Answering(_) => Answer
    case _ => Elapse
  }

  function Distance(pc: PollerPc): nat {
    match pc
    case Off => 0
    case Pushing(_) => 0
    case Polling => 1
    case _ => 2
  }

  lemma PollTowards(w: World, s: State, u: nat)
    requires Behind(w, s, u) && Line(s) == []
    ensures var p := TowardsBlock(w, s, u);
            && PollEnabled(w, s, p)
            && var s' := PollNext(w, s, p);
               && s' == s.(poller := s'.poller) && Behind(w, s', u)
               && Front(s) <= Front(s') && Distance(s'.poller.pc) < Distance(s.poller.pc)
  {
    PollKeeps(w, s, TowardsBlock(w, s, u));
  }

  function NextDelivery(s: State): ConsumerAct {
    if s.poller.buffer != [] then Receive else Handoff
  }

  function Ruling(w: World, h: nat): Verdict {
    if w.power(h) > 0 then Acked else NoPower
  }

  /** The block at the front of the line is received and voted, or recorded as powerless. */
  lemma DeliverAndJudge(w: World, s: State, u: nat)
    requires Behind(w, s, u) && Line(s) != []
    ensures var c, v := NextDelivery(s), Judge(Ruling(w, Front(s)));
            && ConsumeEnabled(w, s, c)
            && var s1 := ConsumeNext(w, s, c);
               && ConsumeEnabled(w, s1, v)
               && var s2 := ConsumeNext(w, s1, v);
                  if w.power(Front(s)) > 0 then s2.ledger.votes == s.ledger.votes + [Front(s)]
                  else s2.ledger.votes == s.ledger.votes && Behind(w, s2, u) && Front(s) < Front(s2)
  {
    DeliveryKeeps(w, s, NextDelivery(s));
    var s1 := ConsumeNext(w, s, NextDelivery(s));
    assert s1.consumer == Handling(Front(s)) && s1.ledger == s.ledger && s1.stopping == s.stopping;
    assert w.power(Front(s)) == 0 ==> u != Front(s);
    ConsumeKeeps(w, s1, Judge(Ruling(w, Front(s))));
  }

  lemma DeliverOne(w: World, s: State, done: seq<Action>, u: nat) returns (acts: seq<Action>)
    requires Runs(w, s, done) && NoFinish(done) && Behind(w, After(w, s, done), u) && Line(After(w, s, done)) != []
    ensures Runs(w, s, acts) && NoFinish(acts)
    ensures var m, m' := After(w, s, done), After(w, s, acts);
            if w.power(Front(m)) > 0 then m'.ledger.votes == m.ledger.votes + [Front(m)]
            else m'.ledger.votes == m.ledger.votes && Behind(w, m', u) && Front(m) < Front(m')
  {
    var m := After(w, s, done);
    DeliverAndJudge(w, m, u);
    acts := Do(w, s, done, Consume(NextDelivery(m)));
    acts := Do(w, s, acts, Consume(Judge(Ruling(w, Front(m)))));
  }

  lemma PollOnce(w: World, s: State, done: seq<Action>, u: nat) returns (acts: seq<Action>)
    requires Runs(w, s, done) && NoFinish(done) && Behind(w, After(w, s, done), u) && Line(After(w, s, done)) == []
    ensures Runs(w, s, acts) && NoFinish(acts)
    ensures var m, m' := After(w, s, done), After(w, s, acts);
            && m'.ledger == m.ledger && Behind(w, m', u)
            && Front(m) <= Front(m') && Distance(m'.poller.pc) < Distance(m.poller.pc)
  {
    var m := After(w, s, done);
    PollTowards(w, m, u);
    acts := Do(w, s, done, Poll(TowardsBlock(w, m, u)));
  }

  /** From an idle loop whose memory is behind, the run can be continued to a vote at or below any
      powered height that the poller may still deliver. */
  lemma {:induction false} VoteByPolling(w: World, s: State, done: seq<Action>, u: nat)
    returns (acts: seq<Action>, h: nat)
    requires Runs(w, s, done) && NoFinish(done) && Behind(w, After(w, s, done), u)
    ensures Runs(w, s, acts) && NoFinish(acts)
    ensures h <= u && After(w, s, acts).ledger.votes == After(w, s, done).ledger.votes + [h]
    decreases u - Front(After(w, s, done)), Distance(After(w, s, done).poller.pc)
  {
    var m := After(w, s, done);
    if Line(m) == [] {
      acts := PollOnce(w, s, done, u);
      acts, h := VoteByPolling(w, s, acts, u);
    } else {
      acts := DeliverOne(w, s, done, u);
      if w.power(Front(m)) > 0 {
        h := Front(m);
      } else {
        acts, h := VoteByPolling(w, s, acts, u);
      }
    }
  }

  /** A sync in progress over a powered height can be continued to votes the first of which is at
      or below that height. */
  lemma {:induction false} VoteByPages(w: World, s: State, done: seq<Action>, v: nat)
    returns (acts: seq<Action>, e: seq<nat>)
    requires Runs(w, s, done) && NoFinish(done) && w.limit >= 1 && w.power(v) > 0
    requires var m := After(w, s, done);
             m.consumer.Syncing? && Processed(m) < m.consumer.next <= v <= m.consumer.end
    ensures Runs(w, s, acts) && NoFinish(acts)
    ensures e != [] && e[0] <= v && After(w, s, acts).ledger.votes == After(w, s, done).ledger.votes + e
    decreases v - After(w, s, done).consumer.next
  {
    var m := After(w, s, done);
    acts := Do(w, s, done, Consume(Page(PageOk)));
    e := PageVotes(w, m);
    EligibleIsExact(w.power, Processed(m), m.consumer.next, PageEnd(m.consumer.next, m.consumer.end, w.limit));
    if e == [] {
      assert v !in e;
      acts, e := VoteByPages(w, s, acts, v);
    } else {
      assert e[0] in e;
      assert v in e || e[0] < v;
    }
  }

  /** From an idle loop whose memory is empty, the lag checker can start a sync that votes at or
      below any powered height that is not finalized. */
  lemma VoteBySyncing(w: World, s: State, done: seq<Action>, v: nat) returns (acts: seq<Action>, e: seq<nat>)
    requires Runs(w, s, done) && NoFinish(done) && w.power(v) > 0
    requires var m := After(w, s, done);
             && m.consumer.Idle? && !m.inSync && m.lagger == Lagger(Watching, false, []) && Processed(m) == 0
             && 1 <= m.finalized && Resynced(w, m, v)
    ensures Runs(w, s, acts) && NoFinish(acts)
    ensures e != [] && e[0] <= v && After(w, s, acts).ledger.votes == After(w, s, done).ledger.votes + e
  {
    var m := After(w, s, done);
    var tip := Max(v, w.gap);
    acts := Do(w, s, done, Lag(Tick));
    acts := Do(w, s, acts, Lag(Measure(tip)));
    assert After(w, s, acts) == m.(lagger := Lagger(Offering(tip), true, []));
    acts := Do(w, s, acts, Lag(Offer));
    assert After(w, s, acts) == m.(lagger := Lagger(Watching, true, [tip]));
    acts := Do(w, s, acts, Consume(TakeTarget(false)));
    assert After(w, s, acts).consumer == Syncing(m.finalized + 1, tip, 0, false);
    acts, e := VoteByPages(w, s, acts, v);
  }

  // ---------------------------------------------------------------------------------------
  // From the end of a voteless sync to an idle loop

  /** The poller after it has refused a pending skip request. */
  function Refused(w: World, p: Poller): Poller {
    match p.pc
    case Activating => Poller(Polling, Max(p.nextHeight, w.activation), [])
    case Pushing(h) => Poller(Polling, p.nextHeight, p.buffer + [h])
    case _ => p.(pc := Polling)
  }

  /** A voteless sync of a running session asks the poller to skip to height 1. */
  ghost predicate AsksInVain(w: World, s: State) {
    PollerInv(w, s) && s.consumer == Skipping(1) && 1 <= Front(s)
  }

  /** Unless poller and consumer wait for each other, the request is refused and the loop is idle. */
  lemma WaitForRefusal(w: World, s: State) returns (acts: seq<Action>)
    requires AsksInVain(w, s) && !s.stopping && !Liveness.Embraced(w, s)
    ensures Runs(w, s, acts) && NoFinish(acts)
    ensures After(w, s, acts) == s.(poller := Refused(w, s.poller), consumer := Idle)
  {
    match s.poller.pc
    case Activating =>
      acts := Begin(w, s, Poll(Activate(true)));
      acts := Do(w, s, acts, Poll(Fetch(false)));
      acts := Liveness.SkipRefused(w, s, acts);
    case Polling =>
      acts := Begin(w, s, Poll(Fetch(false)));
      acts := Liveness.SkipRefused(w, s, acts);
    case Pushing(_) =>
      acts := Begin(w, s, Poll(Push));
      acts := Liveness.SkipRefused(w, s, acts);
    case _ =>
      acts := [];
      acts := Liveness.SkipRefused(w, s, acts);
  }

  lemma RefusalLeavesBehind(w: World, s: State, u: nat)
    requires AsksInVain(w, s) && !s.stopping && !Liveness.Embraced(w, s) && Processed(s) == 0
    requires MayDeliver(w, s, u) && w.power(u) > 0 && (s.poller.pc.Activating? ==> w.activation <= u)
    ensures Behind(w, s.(poller := Refused(w, s.poller), consumer := Idle), u)
  {
    var s' := s.(poller := Refused(w, s.poller), consumer := Idle);
    assert Line(s') == Line(s);
  }

  /** A stop makes the consumer give up the request. */
  lemma StopAndGiveUp(w: World, s: State) returns (acts: seq<Action>)
    requires AsksInVain(w, s)
    ensures Runs(w, s, acts) && NoFinish(acts)
    ensures After(w, s, acts) == s.(stopping := true, consumer := Idle) && PollerInv(w, After(w, s, acts))
  {
    var m := s.(stopping := true);
    LifeKeeps(w, s, RequestStop);
    ConsumeKeeps(w, m, AbortSkip);
    acts := Begin(w, s, Life(RequestStop));
    acts := Do(w, s, acts, Consume(AbortSkip));
  }

  /** A stop during the wait for activation, taken before the pending request: two blocks are polled. */
  lemma StopBeforeActivation(w: World, s: State) returns (acts: seq<Action>)
    requires AsksInVain(w, s) && !s.stopping && s.poller.pc.Activating? && w.capacity >= 1
    ensures Runs(w, s, acts) && NoFinish(acts)
    ensures var n := s.poller.nextHeight;
            After(w, s, acts) == s.(poller := Poller(Polling, n + 1, [n]), stopping := true, consumer := Idle)
  {
    acts := Begin(w, s, Life(RequestStop));
    acts := Do(w, s, acts, Poll(ActivationAborted));
    acts := Do(w, s, acts, Poll(Fetch(true)));
    acts := Do(w, s, acts, Poll(Push));
    acts := Liveness.SkipRefused(w, s, acts);
  }

  /** In a running session: the loop becomes idle with u still to be delivered. */
  lemma IdleInSession(w: World, s: State, u: nat) returns (acts: seq<Action>)
    requires AsksInVain(w, s) && !s.stopping && Processed(s) == 0 && MayDeliver(w, s, u) && w.power(u) > 0
    ensures Runs(w, s, acts) && NoFinish(acts)
    ensures Behind(w, After(w, s, acts), u) && After(w, s, acts).ledger == s.ledger
  {
    var early := s.poller.pc.Activating? && u < w.activation;
    if !early && !Liveness.Embraced(w, s) {
      acts := WaitForRefusal(w, s);
      RefusalLeavesBehind(w, s, u);
    } else if early && !w.racyTimer && u != s.poller.nextHeight {
      acts := StopBeforeActivation(w, s);
    } else {
      acts := StopAndGiveUp(w, s);
    }
  }

  /** A provider about to be launched, with nothing in memory and u to be delivered. */
  ghost predicate Launchable(w: World, s: State, u: nat) {
    && PollerInv(w, s) && s.consumer.Launching? && Processed(s) == 0
    && FirstPolled(w, s) <= u && w.power(u) > 0
    && (w.racyTimer || u == FirstPolled(w, s) || w.activation <= u)
  }

  /** The loops are launched, and a stop is requested if activation is too late for u. */
  lemma LaunchedBehind(w: World, s: State, u: nat)
    requires Launchable(w, s, u)
    ensures var m := LifeNext(w, s, Launch(FirstPolled(w, s)));
            Running(m) && m.ledger == s.ledger && Behind(w, if w.activation <= u then m else m.(stopping := true), u)
  {
    var m := LifeNext(w, s, Launch(FirstPolled(w, s)));
    LifeKeeps(w, s, Launch(FirstPolled(w, s)));
    LifeKeeps(w, m, RequestStop);
  }

  lemma LaunchTo(w: World, s: State, u: nat) returns (acts: seq<Action>)
    requires Launchable(w, s, u)
    ensures Runs(w, s, acts) && NoFinish(acts)
    ensures Behind(w, After(w, s, acts), u) && After(w, s, acts).ledger == s.ledger
  {
    LaunchedBehind(w, s, u);
    acts := Begin(w, s, Life(Launch(FirstPolled(w, s))));
    if u < w.activation {
      acts := Do(w, s, acts, Life(RequestStop));
    }
  }

  /** At start-up: if need be the chain finalizes up to u first. */
  lemma IdleAfterLaunch(w: World, s: State, u: nat) returns (acts: seq<Action>)
    requires PollerInv(w, s) && s.consumer.Launching? && Processed(s) == 0
    requires MayStartWith(w, FirstPolled(w, s), u) && w.power(u) > 0
    ensures Runs(w, s, acts) && NoFinish(acts)
    ensures Behind(w, After(w, s, acts), u) && After(w, s, acts).ledger == s.ledger
  {
    if w.racyTimer || u == FirstPolled(w, s) || w.activation <= u {
      acts := LaunchTo(w, s, u);
    } else {
      var s1 := s.(finalized := u - 1);
      assert FirstPolled(w, s1) == u;
      StepKeeps(w, s, Finalize(u - 1));
      acts := LaunchTo(w, s1, u);
      acts := Precede(w, s, Finalize(u - 1), acts);
    }
  }

  /** Puts one step in front of a run. */
  lemma Precede(w: World, s: State, a: Action, rest: seq<Action>) returns (acts: seq<Action>)
    requires Enabled(w, s, a) && Runs(w, Next(w, s, a), rest)
    ensures acts == [a] + rest && Runs(w, s, acts) && After(w, s, acts) == After(w, Next(w, s, a), rest)
  {
    acts := Begin(w, s, a);
    Concat(w, s, acts, rest);
    acts := acts + rest;
  }

  lemma {:induction false} Concat(w: World, s: State, p: seq<Action>, q: seq<Action>)
    requires Runs(w, s, p) && Runs(w, After(w, s, p), q)
    ensures Runs(w, s, p + q) && After(w, s, p + q) == After(w, After(w, s, p), q)
    decreases |q|
  {
    if q == [] {
      assert p + q == p;
    } else {
      Concat(w, s, p, q[..|q| - 1]);
      assert (p + q)[..|p + q| - 1] == p + q[..|q| - 1];
    }
  }

  // ---------------------------------------------------------------------------------------
  // An exposed height is voted again

  /** The new vote is at or below a marked height. */
  lemma BreaksOrder(w: World, s: State, floor: nat, v: nat, e: seq<nat>)
    requires Marked(w, s, floor, v) && e != [] && e[0] <= v
    ensures !InOrder(s.ledger.votes + e, floor)
  {
    var a := s.ledger.votes;
    if v in a {
      var i :| 0 <= i < |a| && a[i] == v;
      assert (a + e)[i] == v && (a + e)[|a|] == e[0];
    } else {
      assert e[0] in a + e;
    }
  }

  /** What the end of a voteless sync leaves. */
  lemma AfterVotelessFinish(w: World, s: State)
    requires Coverage.Inv(w, s) && LagInvariant.LagInv(s) && s.consumer.Syncing? && s.consumer.synced == 0
    requires !PageLeft(w, s)
    ensures var s1 := SyncFinished(w, s);
            && PollerInv(w, s1) && Processed(s1) == 0 && !s1.inSync && s1.ledger.votes == s.ledger.votes
            && s1.finalized == s.finalized
            && (if s.consumer.boot then s1.consumer.Launching? && LagInvariant.LagInv(s1)
                else 1 <= Front(s1) && s1.lagger == Lagger(Watching, false, [])
                     && (if s.stopping then s1.consumer.Idle? else AsksInVain(w, s1)))
  {
    ConsumeKeeps(w, s, FinishSync);
    LagInvariant.ConsumeKeeps(w, s, FinishSync);
  }

  lemma PolledAgainBreaks(w: World, s: State, floor: nat, v: nat, u: nat) returns (acts: seq<Action>)
    requires Coverage.Inv(w, s) && LagInvariant.LagInv(s) && s.consumer.Syncing? && s.consumer.synced == 0
    requires !PageLeft(w, s) && Marked(w, s, floor, v) && u <= v && PolledAgain(w, s, u)
    ensures Runs(w, SyncFinished(w, s), acts) && NoFinish(acts)
    ensures !InOrder(After(w, SyncFinished(w, s), acts).ledger.votes, floor)
  {
    var s1 := SyncFinished(w, s);
    AfterVotelessFinish(w, s);
    if s.consumer.boot {
      acts := IdleAfterLaunch(w, s1, u);
    } else if s.stopping {
      acts := [];
    } else {
      acts := IdleInSession(w, s1, u);
    }
    assert After(w, s1, acts).ledger == s1.ledger;
    var h;
    acts, h := VoteByPolling(w, s1, acts, u);
    BreaksOrder(w, s, floor, v, [h]);
  }

  /** The loop becomes idle and its lag checker is free to start another sync. */
  ghost predicate ReadyToResync(w: World, m: State, v: nat) {
    && m.consumer.Idle? && !m.inSync && m.lagger == Lagger(Watching, false, []) && Processed(m) == 0
    && 1 <= m.finalized && Resynced(w, m, v)
  }

  lemma BecomeIdle(w: World, s: State, v: nat) returns (acts: seq<Action>)
    requires Coverage.Inv(w, s) && LagInvariant.LagInv(s) && s.consumer.Syncing? && s.consumer.synced == 0
    requires !PageLeft(w, s) && 1 <= s.finalized && Resynced(w, s, v)
    ensures var s1 := SyncFinished(w, s);
            && Runs(w, s1, acts) && NoFinish(acts)
            && ReadyToResync(w, After(w, s1, acts), v) && After(w, s1, acts).ledger == s1.ledger
  {
    var s1 := SyncFinished(w, s);
    AfterVotelessFinish(w, s);
    if s.consumer.boot {
      acts := Begin(w, s1, Life(Launch(FirstPolled(w, s1))));
    } else if s.stopping {
      acts := [];
    } else if Liveness.Embraced(w, s1) {
      acts := StopAndGiveUp(w, s1);
    } else {
      acts := WaitForRefusal(w, s1);
    }
  }

  /** After a sync that exposes a marked height, some continuation in which no sync ends casts a vote
      at or below that height.  A stop is requested in it only where poller and consumer wait for
      each other, or where it is needed to be polled before activation. */
  lemma ExposedOrderBreaks(w: World, s: State, a: Action, floor: nat) returns (acts: seq<Action>)
    requires Coverage.Inv(w, s) && LagInvariant.LagInv(s) && SafeInv(w, s, floor)
    requires Enabled(w, s, a) && Exposes(w, s, a, floor)
    ensures Runs(w, Next(w, s, a), acts) && NoFinish(acts)
    ensures !InOrder(After(w, Next(w, s, a), acts).ledger.votes, floor)
  {
    var s1 := SyncFinished(w, s);
    var v: nat :| Marked(w, s, floor, v) && (Resynced(w, s, v) || exists u: nat :: u <= v && PolledAgain(w, s, u));
    if Resynced(w, s, v) {
      assert Safe(w, s, v);
      acts := BecomeIdle(w, s, v);
      var e;
      acts, e := VoteBySyncing(w, s1, acts, v);
      BreaksOrder(w, s, floor, v, e);
    } else {
      var u: nat :| u <= v && PolledAgain(w, s, u);
      acts := PolledAgainBreaks(w, s, floor, v, u);
    }
  }

  // ---------------------------------------------------------------------------------------
  // Runs

  ghost predicate NeverExposes(w: World, s: State, acts: seq<Action>, floor: nat)
    requires Runs(w, s, acts)
    decreases |acts|
  {
    acts != [] ==>
      && NeverExposes(w, s, acts[..|acts| - 1], floor)
      && !Exposes(w, After(w, s, acts[..|acts| - 1]), acts[|acts| - 1], floor)
  }

  /** No fast sync of the run ends without a vote. */
  ghost predicate NoVotelessFinish(w: World, s: State, acts: seq<Action>)
    requires Runs(w, s, acts)
    decreases |acts|
  {
    acts != [] ==>
      && NoVotelessFinish(w, s, acts[..|acts| - 1])
      && !VotelessFinish(After(w, s, acts[..|acts| - 1]), acts[|acts| - 1])
  }

  /** Acknowledged heights strictly increase above the floor, now and in every continuation in which
      no further fast sync ends without a vote. */
  ghost predicate Orderly(w: World, s: State, floor: nat) {
    forall acts :: Runs(w, s, acts) && NoVotelessFinish(w, s, acts) ==> InOrder(After(w, s, acts).ledger.votes, floor)
  }

  ghost predicate AlwaysOrderly(w: World, s: State, acts: seq<Action>, floor: nat)
    requires Runs(w, s, acts)
    decreases |acts|
  {
    Orderly(w, After(w, s, acts), floor) && (acts != [] ==> AlwaysOrderly(w, s, acts[..|acts| - 1], floor))
  }

  lemma {:induction false} NoFinishIsNoVotelessFinish(w: World, s: State, acts: seq<Action>)
    requires Runs(w, s, acts) && NoFinish(acts)
    ensures NoVotelessFinish(w, s, acts)
  {
    if acts != [] {
      NoFinishIsNoVotelessFinish(w, s, acts[..|acts| - 1]);
    }
  }

  lemma {:induction false} ContinuationKeepsSafe(w: World, s: State, acts: seq<Action>, floor: nat)
    requires Coverage.Inv(w, s) && SafeInv(w, s, floor) && Runs(w, s, acts) && NoVotelessFinish(w, s, acts)
    ensures Coverage.Inv(w, After(w, s, acts)) && SafeInv(w, After(w, s, acts), floor)
  {
    if acts != [] {
      ContinuationKeepsSafe(w, s, acts[..|acts| - 1], floor);
      var m := After(w, s, acts[..|acts| - 1]);
      Coverage.StepKeeps(w, m, acts[|acts| - 1]);
      StepKeepsSafe(w, m, acts[|acts| - 1], floor);
    }
  }

  lemma SafeIsOrderly(w: World, s: State, floor: nat)
    requires Coverage.Inv(w, s) && SafeInv(w, s, floor)
    ensures Orderly(w, s, floor)
  {
    forall acts | Runs(w, s, acts) && NoVotelessFinish(w, s, acts)
      ensures InOrder(After(w, s, acts).ledger.votes, floor)
    {
      ContinuationKeepsSafe(w, s, acts, floor);
    }
  }

  /** In every run, across the polled path, the batch path, crashes and restarts, for both kinds of
      timer and for every floor up to the progress stored before the run: acknowledged vote heights
      strictly increase above the floor, at every point and however it may go on without another
      voteless sync, if and only if no fast sync ends without a vote while a marked height is not
      finalized or not out of the poller's reach.  With floor 0 this is the order of the run's own
      votes; with the stored progress as floor, no height of an earlier run is voted again either. */
  lemma {:induction false} VotesIncreaseIff(w: World, stored: Heights, finalized: nat, acts: seq<Action>, floor: nat)
    requires Runs(w, Initial(stored, finalized), acts) && floor <= stored.processed
    ensures AlwaysOrderly(w, Initial(stored, finalized), acts, floor)
            <==> NeverExposes(w, Initial(stored, finalized), acts, floor)
    ensures NeverExposes(w, Initial(stored, finalized), acts, floor) ==>
              SafeInv(w, After(w, Initial(stored, finalized), acts), floor)
  {
    var s0 := Initial(stored, finalized);
    Coverage.RunKeeps(w, stored, finalized, acts);
    if acts != [] {
      var front, a := acts[..|acts| - 1], acts[|acts| - 1];
      var m := After(w, s0, front);
      VotesIncreaseIff(w, stored, finalized, front, floor);
      Coverage.RunKeeps(w, stored, finalized, front);
      LagInvariant.RunKeeps(w, stored, finalized, front);
      if SafeInv(w, m, floor) {
        if Exposes(w, m, a, floor) {
          var rest := ExposedOrderBreaks(w, m, a, floor);
          NoFinishIsNoVotelessFinish(w, Next(w, m, a), rest);
        } else {
          StepKeepsSafe(w, m, a, floor);
        }
      }
    }
    if SafeInv(w, After(w, s0, acts), floor) {
      SafeIsOrderly(w, After(w, s0, acts), floor);
    }
  }

  // ---------------------------------------------------------------------------------------
  // The condition in plain cases

  /** In a running session, before a stop and past activation, with room for the block in the poller's
      hand: a marked height is exposed exactly when it is not finalized or the poller has not passed it. */
  lemma ExposesInSession(w: World, s: State, a: Action, floor: nat)
    requires PollerInv(w, s) && SafeInv(w, s, floor) && VotelessFinish(s, a) && !s.consumer.boot && !s.stopping
    requires !s.poller.pc.Activating? && (s.poller.pc.Pushing? ==> w.racyTimer || |s.poller.buffer| < w.capacity)
    ensures Exposes(w, s, a, floor) <==>
              exists v: nat :: Marked(w, s, floor, v) && (Resynced(w, s, v) || Front(s) <= v)
  {
    forall v: nat | Marked(w, s, floor, v)
      ensures (exists u: nat :: u <= v && PolledAgain(w, s, u)) <==> Front(s) <= v
    {
      assert Safe(w, s, v);
      assert Front(s) <= v ==> PolledAgain(w, s, v);
    }
  }

  /** At start-up with automatic scanning, exactly when it is not finalized, whatever the page limit. */
  lemma ExposesAtStart(w: World, s: State, a: Action, floor: nat)
    requires SafeInv(w, s, floor) && VotelessFinish(s, a) && s.consumer.boot && w.scan.Auto?
    ensures Exposes(w, s, a, floor) <==> exists v: nat :: Marked(w, s, floor, v) && s.finalized < v
  {
    forall v: nat | Marked(w, s, floor, v)
      ensures (exists u: nat :: u <= v && PolledAgain(w, s, u)) <==> s.finalized < v
    {
      assert Safe(w, s, v);
      assert s.finalized < v ==> PolledAgain(w, s, v);
    }
  }

  /** In every run that neither passes by a vote cut short nor exposes a vote to repetition, every
      height from the origin up to the stored progress that needs a vote - powered, not recorded
      before the run, not below activation, not finalized, not declared not needed - was voted
      exactly once. */
  lemma EligibleHeightsAreVotedOnce(w: World, stored: Heights, finalized: nat, acts: seq<Action>, h: nat)
    requires Runs(w, Initial(stored, finalized), acts)
    requires Shutdown.NeverLoses(w, Initial(stored, finalized), acts)
    requires NeverExposes(w, Initial(stored, finalized), acts, 0)
    requires var s := After(w, Initial(stored, finalized), acts);
             && Coverage.Origin(w) <= h <= s.ledger.copies.disk.processed
             && w.power(h) > 0 && s.baseline < h && w.activation <= h && s.finalized < h && h !in s.declined
    ensures var votes := After(w, Initial(stored, finalized), acts).ledger.votes;
            exists i :: 0 <= i < |votes| && votes[i] == h && forall j :: 0 <= j < |votes| && votes[j] == h ==> j == i
  {
    Shutdown.NothingIsLostIff(w, stored, finalized, acts);
    VotesIncreaseIff(w, stored, finalized, acts, 0);
    var s := After(w, Initial(stored, finalized), acts);
    var votes := s.ledger.votes;
    assert Coverage.Settled(w, s, h);
    var i :| 0 <= i < |votes| && votes[i] == h;
  }
}
