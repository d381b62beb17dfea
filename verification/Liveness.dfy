/**
 Where the poller and the consumer can get stuck, and when a skip request is answered.
 */
module Liveness {
  import opened Progress
  import opened Engine
  import opened PollerInvariant

  /** Neither the poller nor the consumer has an enabled step. */
  ghost predicate Stuck(w: World, s: State) {
    && (forall p :: !PollEnabled(w, s, p))
    && (forall c :: !ConsumeEnabled(w, s, c))
  }

  /** The buffer is full, the poller is at its send, and the consumer waits in SkipToHeight. */
  predicate Embraced(w: World, s: State) {
    s.poller.pc.Pushing? && |s.poller.buffer| == w.capacity && s.consumer.Skipping?
  }

  /** In every reachable state, before a stop is requested and unless a critical error was
      reported, the pair is stuck if and only if poller and consumer wait for each other at the
      full buffer and the skip channel. */
  lemma OnlyEmbraceIsStuck(w: World, stored: Heights, finalized: nat, acts: seq<Action>)
    requires Runs(w, Initial(stored, finalized), acts)
    requires var s := After(w, Initial(stored, finalized), acts);
             Running(s) && !s.stopping && !s.consumer.Halted?
    ensures var s := After(w, Initial(stored, finalized), acts);
            Stuck(w, s) <==> Embraced(w, s)
  {
    RunKeeps(w, stored, finalized, acts);
    var s := After(w, Initial(stored, finalized), acts);
    if !Embraced(w, s) {
      SomeStep(w, s);
    }
  }

  lemma SomeStep(w: World, s: State)
    requires PollerInv(w, s) && Running(s) && !s.stopping && !s.consumer.Halted? && !Embraced(w, s)
    ensures (exists p :: PollEnabled(w, s, p)) || (exists c :: ConsumeEnabled(w, s, c))
  {
    match s.poller.pc {
      case Off =>
      case Activating => assert PollEnabled(w, s, Activate(true));
      case Polling => assert PollEnabled(w, s, Fetch(true));
      case Waiting => assert PollEnabled(w, s, if s.consumer.Skipping? then TakeSkip else Elapse);
      case Answering(_) => assert PollEnabled(w, s, Answer);
      case Pushing(_) =>
        if |s.poller.buffer| < w.capacity {
          assert PollEnabled(w, s, Push);
        } else {
          BusyConsumerSteps(w, s);
        }
    }
  }

  lemma BusyConsumerSteps(w: World, s: State)
    requires PollerInv(w, s) && s.poller.pc.Pushing? && Running(s)
    requires !s.consumer.Halted? && !s.consumer.Skipping?
    ensures exists c :: ConsumeEnabled(w, s, c)
  {
    match s.consumer
    case Idle =>
      assert ConsumeEnabled(w, s, if s.poller.buffer == [] then Handoff else Receive);
    case Handling(h) =>
      assert ConsumeEnabled(w, s, if h <= Processed(s) then HandleStale else Judge(PowerUnknown));
    case Syncing(_, _, _, _) =>
      assert ConsumeEnabled(w, s, if PageLeft(w, s) then Page(PageOk) else FinishSync);
    case _ =>
  }

  /** The chain and the lag checker cannot resolve the embrace; a stop request can. */
  lemma EmbraceLastsUntilStop(w: World, s: State, a: Action)
    requires PollerInv(w, s) && Embraced(w, s) && !s.stopping && Enabled(w, s, a)
    ensures Embraced(w, Next(w, s, a)) || a == Life(Crash) || a == Life(RequestStop)
    ensures ConsumeEnabled(w, LifeNext(w, s, RequestStop), AbortSkip)
  {
    assert Stuck(w, s);
  }

  // ---------------------------------------------------------------------------------------
  // Answering a skip request

  /** Poller steps left at most until a pending skip request is answered. */
  function Rank(pc: PollerPc): nat {
    match pc
    case Off => 0
    case Answering(_) => 1
    case Waiting => 2
    case Pushing(_) => 3
    case Polling => 4
    case Activating => 5
  }

  /** The poller will not block on its next send: it has room for one more block, or is past it. */
  predicate HasRoom(w: World, s: State) {
    |s.poller.buffer| < w.capacity || s.poller.pc.Waiting? || s.poller.pc.Answering?
  }

  /** The steps of the poller, the lag checker and the chain, in any order and with any replies,
      except that the activation height is known when it is asked for. */
  predicate Prompt(a: Action) {
    match a
    case Poll(p) => p != Activate(false)
    case Lag(_) => true
    case Finalize(_) => true
    case _ => false
  }

  /** A pending request with room, and its target not yet reached. */
  ghost predicate Answerable(w: World, s: State, target: nat) {
    && PollerInv(w, s) && !s.stopping && HasRoom(w, s) && !w.racyTimer
    && (s.consumer == Skipping(target) || s.consumer == AwaitingReply(target))
  }

  /** Whatever prompt step comes next, it answers the request or brings the answer nearer. */
  lemma PromptStep(w: World, s: State, a: Action, target: nat)
    requires Answerable(w, s, target) && Enabled(w, s, a) && Prompt(a)
    ensures var s' := Next(w, s, a);
            if s'.consumer.Idle? then a == Poll(Answer) && target <= s'.poller.nextHeight
            else Answerable(w, s', target)
                 && Rank(s'.poller.pc) + (if a.Poll? then 1 else 0) <= Rank(s.poller.pc)
  {
    StepKeeps(w, s, a);
  }

  /** And some prompt step of the poller is enabled. */
  lemma PromptEnabled(w: World, s: State, target: nat)
    requires Answerable(w, s, target)
    ensures exists p :: PollEnabled(w, s, p) && Prompt(Poll(p))
  {
    match s.poller.pc
    case Activating => assert PollEnabled(w, s, Activate(true));
    case Polling => assert PollEnabled(w, s, Fetch(true));
    case Pushing(_) => assert PollEnabled(w, s, Push);
    case Waiting => assert PollEnabled(w, s, TakeSkip);
    case Answering(_) => assert PollEnabled(w, s, Answer);
    case Off =>
  }

  function PollerSteps(acts: seq<Action>): nat {
    if acts == [] then 0
    else PollerSteps(acts[..|acts| - 1]) + if acts[|acts| - 1].Poll? then 1 else 0
  }

  /** Once the request is answered the loop is idle until it takes a step itself. */
  lemma PromptAfterAnswer(w: World, s: State, a: Action, target: nat)
    requires PollerInv(w, s) && s.consumer.Idle? && target <= s.poller.nextHeight && Enabled(w, s, a) && Prompt(a)
    ensures var s' := Next(w, s, a); PollerInv(w, s') && s'.consumer.Idle? && target <= s'.poller.nextHeight
  {
    StepKeeps(w, s, a);
    if a.Poll? {
      PollKeeps(w, s, a.p);
    }
  }

  /** Under every schedule a skip request that finds room is answered within five steps of the
      poller, which then polls at or above the target; until then the poller always has a step to
      take.  Only a racy timer could keep the poller from taking the request. */
  lemma {:induction false} SkipIsAnswered(w: World, s: State, acts: seq<Action>, target: nat)
    requires Answerable(w, s, target) && Runs(w, s, acts) && forall i :: 0 <= i < |acts| ==> Prompt(acts[i])
    ensures var s' := After(w, s, acts);
            && PollerInv(w, s')
            && (if s'.consumer.Idle? then target <= s'.poller.nextHeight
                else Answerable(w, s', target) && PollerSteps(acts) + Rank(s'.poller.pc) <= Rank(s.poller.pc)
                     && exists p :: PollEnabled(w, s', p) && Prompt(Poll(p)))
            && (PollerSteps(acts) >= 5 ==> s'.consumer.Idle?)
  {
    if acts == [] {
      PromptEnabled(w, s, target);
    } else {
      var front, a := acts[..|acts| - 1], acts[|acts| - 1];
      SkipIsAnswered(w, s, front, target);
      var m := After(w, s, front);
      StepKeeps(w, m, a);
      if m.consumer.Idle? {
        PromptAfterAnswer(w, m, a, target);
      } else {
        PromptStep(w, m, a, target);
        if !Next(w, m, a).consumer.Idle? {
          PromptEnabled(w, Next(w, m, a), target);
        }
      }
    }
  }

  ghost predicate EmbraceAhead(w: World, s: State) {
    exists acts ::
      Runs(w, s, acts) && (forall i :: 0 <= i < |acts| ==> Prompt(acts[i])) && Embraced(w, After(w, s, acts))
  }

  /** Room is exactly what is needed: a pending request can end in the embrace if and only if the
      poller has no room for its next block, or the timer is racy. */
  lemma EmbraceAheadIff(w: World, s: State, target: nat)
    requires PollerInv(w, s) && !s.stopping && s.consumer == Skipping(target)
    ensures EmbraceAhead(w, s) <==> w.racyTimer || !HasRoom(w, s)
  {
    if w.racyTimer || !HasRoom(w, s) {
      var acts := IntoEmbrace(w, s);
    } else {
      forall acts | Runs(w, s, acts) && (forall i :: 0 <= i < |acts| ==> Prompt(acts[i]))
        ensures !Embraced(w, After(w, s, acts))
      {
        SkipIsAnswered(w, s, acts, target);
      }
    }
  }

  lemma IntoEmbrace(w: World, s: State) returns (acts: seq<Action>)
    requires PollerInv(w, s) && !s.stopping && s.consumer.Skipping? && (w.racyTimer || !HasRoom(w, s))
    ensures Runs(w, s, acts) && (forall i :: 0 <= i < |acts| ==> Prompt(acts[i])) && Embraced(w, After(w, s, acts))
  {
    match s.poller.pc
    case Activating =>
      acts := Begin(w, s, Poll(Activate(true)));
      acts := FillBuffer(w, s, acts);
    case Polling =>
      acts := FillBuffer(w, s, []);
    case Waiting =>
      acts := Begin(w, s, Poll(Elapse));
      acts := FillBuffer(w, s, acts);
    case _ =>
      if |s.poller.buffer| == w.capacity {
        acts := [];
      } else {
        acts := Begin(w, s, Poll(Push));
        acts := Do(w, s, acts, Poll(Elapse));
        acts := FillBuffer(w, s, acts);
      }
  }

  /** A waiting poller refuses a skip request that is not above its next height. */
  lemma SkipRefused(w: World, s: State, done: seq<Action>) returns (acts: seq<Action>)
    requires Runs(w, s, done)
    requires var m := After(w, s, done);
             m.poller.pc.Waiting? && m.consumer.Skipping? && m.consumer.target <= m.poller.nextHeight
    ensures Runs(w, s, acts) && acts == done + [Poll(TakeSkip), Poll(Answer)]
    ensures var m := After(w, s, done);
            After(w, s, acts) == m.(poller := m.poller.(pc := Polling), consumer := Idle)
  {
    acts := Do(w, s, done, Poll(TakeSkip));
    acts := Do(w, s, acts, Poll(Answer));
  }

  // ---------------------------------------------------------------------------------------
  // The embrace is reachable whatever the buffer size

  /** A chain with power everywhere, the lag checker reacting to a gap of two blocks. */
  function PoweredWorld(capacity: nat, limit: nat): World {
    World((h: nat) => 1, 0, capacity, limit, 2, Auto, false)
  }

  /** While the consumer receives nothing, the poller fills the buffer and holds one more block. */
  lemma {:induction false} FillBuffer(w: World, s: State, done: seq<Action>) returns (acts: seq<Action>)
    requires Runs(w, s, done)
    requires var m := After(w, s, done);
             && m.poller.pc.Polling? && |m.poller.buffer| <= w.capacity
             && (|m.poller.buffer| < w.capacity ==> w.racyTimer || !SelectReady(m))
    ensures Runs(w, s, acts) && done <= acts && forall i :: |done| <= i < |acts| ==> Prompt(acts[i])
    ensures var m, m' := After(w, s, done), After(w, s, acts);
            && m'.poller.pc.Pushing? && |m'.poller.buffer| == w.capacity
            && m' == m.(poller := m'.poller)
    decreases w.capacity - |After(w, s, done).poller.buffer|
  {
    var m := After(w, s, done);
    acts := Do(w, s, done, Poll(Fetch(true)));
    if |m.poller.buffer| < w.capacity {
      acts := Do(w, s, acts, Poll(Push));
      acts := Do(w, s, acts, Poll(Elapse));
      acts := FillBuffer(w, s, acts);
    }
  }

  /** A run to a sync of the single block 2 while the poller is about to poll. */
  lemma SyncUnderWay(capacity: nat, limit: nat) returns (acts: seq<Action>)
    ensures var w, s0 := PoweredWorld(capacity, limit), Initial(Heights(0, 0), 1);
            && Runs(w, s0, acts)
            && var s := After(w, s0, acts);
               && s.consumer == Syncing(2, 2, 0, false) && s.poller == Poller(Polling, 2, [])
               && s.ledger == s0.ledger && !s.stopping
  {
    var w, s0 := PoweredWorld(capacity, limit), Initial(Heights(0, 0), 1);
    acts := Begin(w, s0, Life(Start(1, false)));
    acts := Do(w, s0, acts, Life(Launch(1)));
    acts := Do(w, s0, acts, Lag(Tick));
    acts := Do(w, s0, acts, Lag(Measure(2)));
    acts := Do(w, s0, acts, Lag(Offer));
    acts := Do(w, s0, acts, Poll(Activate(true)));
    acts := Do(w, s0, acts, Consume(TakeTarget(false)));
  }

  /** For every buffer size and every page limit there is a run into the embrace. */
  lemma EmbraceIsReachable(capacity: nat, limit: nat) returns (acts: seq<Action>)
    requires limit >= 1
    ensures var w, s0 := PoweredWorld(capacity, limit), Initial(Heights(0, 0), 1);
            Runs(w, s0, acts) && Embraced(w, After(w, s0, acts)) && Stuck(w, After(w, s0, acts))
  {
    var w, s0 := PoweredWorld(capacity, limit), Initial(Heights(0, 0), 1);
    acts := SyncUnderWay(capacity, limit);
    acts := FillBuffer(w, s0, acts);
    acts := Do(w, s0, acts, Consume(Page(PageOk)));
    assert After(w, s0, acts).consumer.next == 3;
    acts := Do(w, s0, acts, Consume(FinishSync));
  }
}
