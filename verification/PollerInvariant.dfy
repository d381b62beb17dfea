/**
 What holds of the poller, its buffer and the skip handshake in every reachable state.
 */
module PollerInvariant {
  import opened Progress
  import opened Eligibility
  import opened Engine

  /** The buffer plus the block in hand is a contiguous run of heights ending at nextHeight - 1. */
  ghost predicate Contiguous(w: World, s: State) {
    && |Line(s)| <= s.poller.nextHeight
    && (forall i :: 0 <= i < |Line(s)| ==> Line(s)[i] == Front(s) + i)
    && |s.poller.buffer| <= w.capacity
    && (s.poller.pc.Activating? ==> s.poller.buffer == [])
  }

  /** Who may be where while a skip request is being answered, and when the poller is off. */
  ghost predicate Handshake(s: State) {
    && (s.consumer.AwaitingReply? ==> s.poller.pc == Answering(s.consumer.target))
    && (s.poller.pc.Answering? ==> s.stopping || s.consumer == AwaitingReply(s.poller.pc.target))
    && (s.poller.pc.Answering? ==> !s.consumer.Skipping?)
    && (!Running(s) ==> s.poller.pc.Off? && s.poller.buffer == [] && !s.stopping)
    && (Running(s) && s.poller.pc.Off? ==> s.stopping)
  }

  /** Delivered heights strictly increase and lie below everything still to be delivered. */
  ghost predicate Delivered(s: State) {
    && Ascending(s.delivered)
    && (Running(s) ==> forall h :: h in s.delivered ==> h < Front(s))
  }

  ghost predicate PollerInv(w: World, s: State) {
    Contiguous(w, s) && Handshake(s) && Delivered(s)
  }

  // ---------------------------------------------------------------------------------------
  // Draining

  /** On a contiguous buffer that ends below the target's predecessor the early break of the
      drain loop never fires: the whole buffer is dropped. */
  lemma {:induction false} DrainEmpties(buffer: seq<nat>, target: nat)
    requires forall h :: h in buffer ==> h + 1 < target
    ensures Drain(buffer, target) == []
  {
    if buffer != [] {
      assert buffer[0] in buffer;
      assert forall h :: h in buffer[1..] ==> h in buffer;
      DrainEmpties(buffer[1..], target);
    }
  }

  /** In general the drain loop keeps exactly what follows the first block whose successor
      reaches the target, so it keeps nothing if and only if no earlier block does. */
  lemma {:induction false} DrainEmptiesIff(buffer: seq<nat>, target: nat)
    ensures Drain(buffer, target) == [] <==> forall i :: 0 <= i < |buffer| - 1 ==> buffer[i] + 1 < target
  {
    if buffer != [] {
      var rest := buffer[1..];
      DrainEmptiesIff(rest, target);
      if buffer[0] + 1 < target {
        if forall i :: 0 <= i < |buffer| - 1 ==> buffer[i] + 1 < target {
          assert forall i :: 0 <= i < |rest| - 1 ==> rest[i] == buffer[i + 1];
        } else {
          var i :| 0 <= i < |buffer| - 1 && buffer[i] + 1 >= target;
          assert rest[i - 1] + 1 >= target;
        }
      }
    }
  }

  /** An accepted skip to t leaves an empty buffer and nextHeight at t. */
  lemma AcceptedSkipEmpties(w: World, s: State)
    requires Contiguous(w, s) && s.poller.pc.Answering? && s.poller.nextHeight < s.poller.pc.target
    ensures AnswerSkip(s.poller, s.poller.pc.target) == Poller(Polling, s.poller.pc.target, [])
  {
    forall h | h in s.poller.buffer ensures h + 1 < s.poller.pc.target {
      var i :| 0 <= i < |s.poller.buffer| && s.poller.buffer[i] == h;
      assert Line(s)[i] == Front(s) + i;
    }
    DrainEmpties(s.poller.buffer, s.poller.pc.target);
  }

  // ---------------------------------------------------------------------------------------
  // Every step keeps the invariant

  lemma PollKeeps(w: World, s: State, a: PollerAct)
    requires PollerInv(w, s) && PollEnabled(w, s, a)
    ensures PollerInv(w, PollNext(w, s, a))
    ensures Front(s) <= Front(PollNext(w, s, a)) && s.poller.nextHeight <= PollNext(w, s, a).poller.nextHeight
    ensures PollNext(w, s, a).delivered == s.delivered
  {
    if a.Answer? && s.poller.nextHeight < s.poller.pc.target {
      AcceptedSkipEmpties(w, s);
    }
  }

  lemma ConsumeKeeps(w: World, s: State, a: ConsumerAct)
    requires PollerInv(w, s) && ConsumeEnabled(w, s, a)
    ensures PollerInv(w, ConsumeNext(w, s, a))
    ensures Running(s) ==>
              && Running(ConsumeNext(w, s, a))
              && Front(s) <= Front(ConsumeNext(w, s, a))
              && s.poller.nextHeight == ConsumeNext(w, s, a).poller.nextHeight
              && s.delivered <= ConsumeNext(w, s, a).delivered
              && (forall i :: |s.delivered| <= i < |ConsumeNext(w, s, a).delivered| ==>
                   ConsumeNext(w, s, a).delivered[i] == Front(s))
  {
    if a.Receive? || a.Handoff? {
      DeliveryKeeps(w, s, a);
    }
  }

  /** Receiving a block, from the buffer or straight from the poller's hand, takes the front of
      the line and appends it to the delivered heights. */
  lemma DeliveryKeeps(w: World, s: State, a: ConsumerAct)
    requires PollerInv(w, s) && ConsumeEnabled(w, s, a) && (a.Receive? || a.Handoff?)
    ensures PollerInv(w, ConsumeNext(w, s, a))
    ensures var s' := ConsumeNext(w, s, a);
            && Line(s') == Line(s)[1..]
            && Front(s') == Front(s) + 1
            && s'.consumer == Handling(Front(s))
            && s'.delivered == s.delivered + [Front(s)]
  {
    var s' := ConsumeNext(w, s, a);
    assert Line(s)[0] == Front(s);
    assert Line(s') == Line(s)[1..];
    assert forall i :: 0 <= i < |Line(s')| ==> Line(s')[i] == Line(s)[i + 1];
    assert forall i :: 0 <= i < |s.delivered| ==> s.delivered[i] in s.delivered;
  }

  lemma LagKeeps(w: World, s: State, a: LagAct)
    requires PollerInv(w, s) && LagEnabled(w, s, a)
    ensures PollerInv(w, LagNext(w, s, a))
  {
  }

  lemma LifeKeeps(w: World, s: State, a: LifeAct)
    requires PollerInv(w, s) && LifeEnabled(w, s, a)
    ensures PollerInv(w, LifeNext(w, s, a))
  {
  }

  lemma StepKeeps(w: World, s: State, a: Action)
    requires PollerInv(w, s) && Enabled(w, s, a)
    ensures PollerInv(w, Next(w, s, a))
  {
    match a
    case Finalize(_) =>
    case Poll(p) => PollKeeps(w, s, p);
    case Consume(c) => ConsumeKeeps(w, s, c);
    case Lag(l) => LagKeeps(w, s, l);
    case Life(x) => LifeKeeps(w, s, x);
  }

  // ---------------------------------------------------------------------------------------
  // Runs

  /** The poller invariant holds after every run from a provider that is down. */
  lemma {:induction false} RunKeeps(w: World, stored: Heights, finalized: nat, acts: seq<Action>)
    requires Runs(w, Initial(stored, finalized), acts)
    ensures PollerInv(w, After(w, Initial(stored, finalized), acts))
  {
    if acts != [] {
      RunKeeps(w, stored, finalized, acts[..|acts| - 1]);
      StepKeeps(w, After(w, Initial(stored, finalized), acts[..|acts| - 1]), acts[|acts| - 1]);
    }
  }

  ghost predicate SameSession(acts: seq<Action>) {
    forall a :: a in acts && a.Life? ==> a.x.RequestStop?
  }

  /** While the loops keep running, nextHeight and the front never move back, and every height
      delivered from now on is at or above the present front. */
  lemma {:induction false} LaterDeliveries(w: World, s: State, acts: seq<Action>)
    requires PollerInv(w, s) && Running(s) && Runs(w, s, acts) && SameSession(acts)
    ensures var s' := After(w, s, acts);
            && PollerInv(w, s') && Running(s')
            && Front(s) <= Front(s') && s.poller.nextHeight <= s'.poller.nextHeight
            && s.delivered <= s'.delivered
            && (forall i :: |s.delivered| <= i < |s'.delivered| ==> Front(s) <= s'.delivered[i])
  {
    if acts != [] {
      var front, a := acts[..|acts| - 1], acts[|acts| - 1];
      assert a in acts;
      LaterDeliveries(w, s, front);
      MovesOn(w, After(w, s, front), a);
    }
  }

  lemma MovesOn(w: World, s: State, a: Action)
    requires PollerInv(w, s) && Running(s) && Enabled(w, s, a) && (a.Life? ==> a.x.RequestStop?)
    ensures var s' := Next(w, s, a);
            && PollerInv(w, s') && Running(s')
            && Front(s) <= Front(s') && s.poller.nextHeight <= s'.poller.nextHeight
            && s.delivered <= s'.delivered
            && (forall i :: |s.delivered| <= i < |s'.delivered| ==> Front(s) <= s'.delivered[i])
  {
    StepKeeps(w, s, a);
    match a
    case Poll(p) => PollKeeps(w, s, p);
    case Consume(c) => ConsumeKeeps(w, s, c);
    case _ =>
  }

  /** After an accepted skip to t every later delivery of the session is at least t. */
  lemma SkipBoundsDeliveries(w: World, s: State, acts: seq<Action>)
    requires PollerInv(w, s) && s.poller.pc.Answering? && s.poller.nextHeight < s.poller.pc.target
    requires var s1 := PollNext(w, s, Answer); Runs(w, s1, acts) && SameSession(acts)
    ensures var s1 := PollNext(w, s, Answer);
            var s' := After(w, s1, acts);
            && s1.poller.buffer == []
            && s.delivered <= s'.delivered
            && (forall i :: |s.delivered| <= i < |s'.delivered| ==> s.poller.pc.target <= s'.delivered[i])
  {
    var s1 := PollNext(w, s, Answer);
    AcceptedSkipEmpties(w, s);
    PollKeeps(w, s, Answer);
    LaterDeliveries(w, s1, acts);
  }
}
