/**
 No eligible block is passed over: in every interleaving, each height from the first one polled
 up to the last one received, drained or skipped is accounted for.
 */
module Coverage {
  import opened Progress
  import opened Eligibility
  import opened Engine
  import PollerInvariant
  import VoteOrder

  /** The least height the coverage claim speaks about. With automatic scanning and no history the
      poller starts at 2; with a static start it begins one above the configured height. */
  function Origin(w: World): nat {
    match w.scan
    case Auto => 2
    case Static(h) => h + 1
  }

  /** Why a height needs no further vote. */
  predicate Settled(w: World, s: State, h: nat) {
    || h in s.ledger.votes
    || w.power(h) == 0
    || h <= s.finalized
    || h < w.activation
    || h in s.declined
    || h <= s.baseline
  }

  /** Settled, or its vote was cut short by a shutdown. */
  predicate Accounted(w: World, s: State, h: nat) {
    Settled(w, s, h) || h in s.abandoned
  }

  ghost predicate UpTo(w: World, s: State, n: nat) {
    forall h :: Origin(w) <= h < n ==> Accounted(w, s, h)
  }

  /** The block the consumer is working on, or failed on. */
  function Pending(s: State): set<nat> {
    match s.consumer
    case Handling(h) => {h}
    case Halted(h) => {h}
    case _ => {}
  }

  /** Both progress copies stand for settled prefixes. */
  ghost predicate RecordsCover(w: World, s: State) {
    && UpTo(w, s, Processed(s) + 1)
    && UpTo(w, s, s.ledger.copies.disk.processed + 1)
    && Processed(s) <= s.ledger.copies.disk.processed
  }

  /** Everything below the front is accounted for, except a block still in the consumer's hands. */
  ghost predicate FrontCovers(w: World, s: State) {
    && (Running(s) ==> forall h :: Origin(w) <= h < Front(s) && h !in Pending(s) ==> Accounted(w, s, h))
    && (Running(s) ==> Origin(w) <= Front(s))
    && (s.consumer.Handling? ==> Origin(w) <= s.consumer.height < Front(s))
  }

  /** A sync in progress and a skip in progress stand for accounted prefixes too. */
  ghost predicate WorkCovers(w: World, s: State) {
    && (s.consumer.Syncing? ==> UpTo(w, s, s.consumer.next))
    && (s.consumer.Skipping? || s.consumer.AwaitingReply? ==> UpTo(w, s, s.consumer.target))
    && (s.poller.pc.Answering? ==> UpTo(w, s, s.poller.pc.target))
  }

  ghost predicate CoverInv(w: World, s: State) {
    RecordsCover(w, s) && FrontCovers(w, s) && WorkCovers(w, s)
  }

  ghost predicate Inv(w: World, s: State) {
    PollerInvariant.PollerInv(w, s) && VoteOrder.SyncShape(s) && CoverInv(w, s)
  }

  /** What accounts for a height in s still does in s'. */
  ghost predicate Extends(w: World, s: State, s': State) {
    forall h :: Accounted(w, s, h) ==> Accounted(w, s', h)
  }

  // ---------------------------------------------------------------------------------------
  // Steps

  /** Answering a skip request moves the front only over accounted heights. */
  lemma AnswerCovers(w: World, s: State)
    requires Inv(w, s) && PollEnabled(w, s, Answer)
    ensures CoverInv(w, PollNext(w, s, Answer))
  {
    var s' := PollNext(w, s, Answer);
    assert Extends(w, s, s');
    PollerInvariant.PollKeeps(w, s, Answer);
    if s.poller.nextHeight < s.poller.pc.target {
      PollerInvariant.AcceptedSkipEmpties(w, s);
    }
  }

  /** The wait for activation moves the front only over heights below activation. */
  lemma ActivationCovers(w: World, s: State, a: PollerAct)
    requires Inv(w, s) && PollEnabled(w, s, a) && (a.Activate? || a.ActivationAborted?)
    ensures CoverInv(w, PollNext(w, s, a))
  {
    assert Extends(w, s, PollNext(w, s, a));
  }

  lemma OtherPollCovers(w: World, s: State, a: PollerAct)
    requires Inv(w, s) && PollEnabled(w, s, a) && !a.Answer? && !a.Activate? && !a.ActivationAborted?
    ensures CoverInv(w, PollNext(w, s, a))
  {
    assert Extends(w, s, PollNext(w, s, a));
    assert Front(PollNext(w, s, a)) == Front(s);
  }

  lemma PollCovers(w: World, s: State, a: PollerAct)
    requires Inv(w, s) && PollEnabled(w, s, a)
    ensures CoverInv(w, PollNext(w, s, a))
  {
    match a
    case Answer => AnswerCovers(w, s);
    case Activate(_) => ActivationCovers(w, s, a);
    case ActivationAborted => ActivationCovers(w, s, a);
    case _ => OtherPollCovers(w, s, a);
  }

  lemma DeliveryCovers(w: World, s: State, a: ConsumerAct)
    requires Inv(w, s) && ConsumeEnabled(w, s, a) && (a.Receive? || a.Handoff?)
    ensures CoverInv(w, ConsumeNext(w, s, a))
  {
    assert Extends(w, s, ConsumeNext(w, s, a));
    PollerInvariant.DeliveryKeeps(w, s, a);
  }

  lemma JudgeCovers(w: World, s: State, v: Verdict)
    requires Inv(w, s) && ConsumeEnabled(w, s, Judge(v))
    ensures CoverInv(w, ConsumeNext(w, s, Judge(v)))
  {
    var s' := ConsumeNext(w, s, Judge(v));
    assert Extends(w, s, s');
    assert s'.consumer.Idle? ==> Accounted(w, s', s.consumer.height);
  }

  lemma PageCovers(w: World, s: State)
    requires Inv(w, s) && PageLeft(w, s)
    ensures CoverInv(w, Paged(w, s, PageOk))
  {
    var s' := Paged(w, s, PageOk);
    assert Extends(w, s, s');
    var lo, hi := s.consumer.next, PageEnd(s.consumer.next, s.consumer.end, w.limit);
    EligibleIsExact(w.power, Processed(s), lo, hi);
    var e := PageVotes(w, s);
    assert e != [] ==> e[|e| - 1] in e;
    forall h | Origin(w) <= h < hi ensures Accounted(w, s', h) {
      if lo <= h && Processed(s) < h && w.power(h) > 0 {
        assert h in e;
      }
    }
  }

  lemma TakeTargetCovers(w: World, s: State, queryFails: bool)
    requires Inv(w, s) && ConsumeEnabled(w, s, TakeTarget(queryFails))
    ensures CoverInv(w, ConsumeNext(w, s, TakeTarget(queryFails)))
  {
    assert Extends(w, s, ConsumeNext(w, s, TakeTarget(queryFails)));
  }

  lemma PageErrorCovers(w: World, s: State, slashed: bool)
    requires Inv(w, s) && PageLeft(w, s)
    ensures CoverInv(w, Paged(w, s, PageError(slashed)))
  {
    assert Extends(w, s, Paged(w, s, PageError(slashed)));
  }

  lemma FinishCovers(w: World, s: State)
    requires Inv(w, s) && ConsumeEnabled(w, s, FinishSync)
    ensures CoverInv(w, SyncFinished(w, s))
  {
    assert Extends(w, s, SyncFinished(w, s));
  }

  lemma ReturnCovers(w: World, s: State, a: ConsumerAct)
    requires Inv(w, s) && ConsumeEnabled(w, s, a) && (a.HandleStale? || a.AbortSkip?)
    ensures CoverInv(w, ConsumeNext(w, s, a))
  {
    assert Extends(w, s, ConsumeNext(w, s, a));
  }

  /** A launch forgets the abandoned heights above the stored progress: they will be polled again. */
  lemma LaunchCovers(w: World, s: State, tip: nat)
    requires Inv(w, s) && LifeEnabled(w, s, Launch(tip)) && LifeNext(w, s, Launch(tip)).consumer.Idle?
    ensures CoverInv(w, LifeNext(w, s, Launch(tip)))
  {
    var s' := LifeNext(w, s, Launch(tip));
    forall h | Origin(w) <= h && (h <= s.ledger.copies.disk.processed || h < Front(s')) ensures Accounted(w, s', h) {
      assert h <= Processed(s) || h <= s.ledger.copies.disk.processed ==> Accounted(w, s, h);
    }
  }

  lemma LifeCovers(w: World, s: State, a: LifeAct)
    requires Inv(w, s) && LifeEnabled(w, s, a)
    ensures CoverInv(w, LifeNext(w, s, a))
  {
    var s' := LifeNext(w, s, a);
    if a.Launch? && s'.consumer.Idle? {
      LaunchCovers(w, s, a.tip);
    } else {
      assert Extends(w, s, s');
    }
  }

  lemma ConsumeCovers(w: World, s: State, a: ConsumerAct)
    requires Inv(w, s) && ConsumeEnabled(w, s, a)
    ensures CoverInv(w, ConsumeNext(w, s, a))
  {
    match a
    case Receive => DeliveryCovers(w, s, a);
    case Handoff => DeliveryCovers(w, s, a);
    case Judge(v) => JudgeCovers(w, s, v);
    case TakeTarget(q) => TakeTargetCovers(w, s, q);
    case Page(PageOk) => PageCovers(w, s);
    case Page(PageError(slashed)) => PageErrorCovers(w, s, slashed);
    case FinishSync => FinishCovers(w, s);
    case HandleStale => ReturnCovers(w, s, a);
    case AbortSkip => ReturnCovers(w, s, a);
  }

  lemma FinalizeCovers(w: World, s: State, f: nat)
    requires CoverInv(w, s) && s.finalized <= f
    ensures CoverInv(w, s.(finalized := f))
  {
    assert Extends(w, s, s.(finalized := f));
  }

  lemma LagCovers(w: World, s: State, a: LagAct)
    requires CoverInv(w, s) && LagEnabled(w, s, a)
    ensures CoverInv(w, LagNext(w, s, a))
  {
    var s' := LagNext(w, s, a);
    assert s' == s.(lagger := s'.lagger);
    LaggerIsIrrelevant(w, s, s'.lagger);
  }

  lemma LaggerIsIrrelevant(w: World, s: State, l: Lagger)
    requires CoverInv(w, s)
    ensures CoverInv(w, s.(lagger := l))
  {
    assert Extends(w, s, s.(lagger := l));
  }

  lemma StepCovers(w: World, s: State, a: Action)
    requires Inv(w, s) && Enabled(w, s, a)
    ensures CoverInv(w, Next(w, s, a))
  {
    match a
    case Poll(p) => PollCovers(w, s, p);
    case Consume(c) => ConsumeCovers(w, s, c);
    case Life(x) => LifeCovers(w, s, x);
    case Lag(l) => LagCovers(w, s, l);
    case Finalize(f) => FinalizeCovers(w, s, f);
  }

  lemma StepKeeps(w: World, s: State, a: Action)
    requires Inv(w, s) && Enabled(w, s, a)
    ensures Inv(w, Next(w, s, a))
  {
    PollerInvariant.StepKeeps(w, s, a);
    VoteOrder.StepKeepsShape(w, s, a);
    StepCovers(w, s, a);
  }

  // ---------------------------------------------------------------------------------------
  // Runs

  lemma InitialCovers(w: World, stored: Heights, finalized: nat)
    ensures Inv(w, Initial(stored, finalized))
  {
  }

  lemma {:induction false} RunKeeps(w: World, stored: Heights, finalized: nat, acts: seq<Action>)
    requires Runs(w, Initial(stored, finalized), acts)
    ensures Inv(w, After(w, Initial(stored, finalized), acts))
  {
    if acts == [] {
      InitialCovers(w, stored, finalized);
    } else {
      RunKeeps(w, stored, finalized, acts[..|acts| - 1]);
      StepKeeps(w, After(w, Initial(stored, finalized), acts[..|acts| - 1]), acts[|acts| - 1]);
    }
  }

  /** In every run: while the loops run, every height from the origin up to the front (the lowest
      height neither received nor skipped) is voted, powerless, finalized, below activation,
      declared not needed, recorded before the run, or was cut short by a shutdown; the only
      exception is the block the consumer holds.  The same is true of every height at or below the
      stored progress, whether or not the loops run. */
  lemma EveryHeightIsAccountedFor(w: World, stored: Heights, finalized: nat, acts: seq<Action>, h: nat)
    requires Runs(w, Initial(stored, finalized), acts) && Origin(w) <= h
    ensures var s := After(w, Initial(stored, finalized), acts);
            && (Running(s) && h < Front(s) && h !in Pending(s) ==> Accounted(w, s, h))
            && (Running(s) && h in s.delivered && h !in Pending(s) ==> Accounted(w, s, h))
            && (h <= s.ledger.copies.disk.processed ==> Accounted(w, s, h))
  {
    RunKeeps(w, stored, finalized, acts);
  }

  /** Below the block in hand everything is accounted for. */
  lemma PolledVoteComesInTurn(w: World, s: State, g: nat)
    requires Inv(w, s) && ConsumeEnabled(w, s, Judge(Acked)) && Origin(w) <= g < s.consumer.height
    ensures Accounted(w, ConsumeNext(w, s, Judge(Acked)), g)
  {
    assert Accounted(w, s, g);
  }

  /** Below a vote of a page everything is accounted for once the page is voted. */
  lemma PageVoteComesInTurn(w: World, s: State, h: nat, g: nat)
    requires Inv(w, s) && PageLeft(w, s) && h in PageVotes(w, s) && Origin(w) <= g < h
    ensures Accounted(w, Paged(w, s, PageOk), g)
  {
    PageCovers(w, s);
    EligibleIsExact(w.power, Processed(s), s.consumer.next, PageEnd(s.consumer.next, s.consumer.end, w.limit));
  }

  /** In every run a vote, polled or in a batch, is cast only when every lower height from the origin
      is voted, in the same batch at the latest, or needs no vote. */
  lemma VotesComeInTurn(w: World, stored: Heights, finalized: nat, acts: seq<Action>, a: Action, i: nat, g: nat)
    requires Runs(w, Initial(stored, finalized), acts) && Enabled(w, After(w, Initial(stored, finalized), acts), a)
    requires var s := After(w, Initial(stored, finalized), acts);
             var votes := Next(w, s, a).ledger.votes;
             |s.ledger.votes| <= i < |votes| && Origin(w) <= g < votes[i]
    ensures Accounted(w, Next(w, After(w, Initial(stored, finalized), acts), a), g)
  {
    RunKeeps(w, stored, finalized, acts);
    var s := After(w, Initial(stored, finalized), acts);
    OnlyTwoStepsVote(w, s, a);
    if a == Consume(Judge(Acked)) {
      PolledVoteComesInTurn(w, s, g);
    } else {
      PageVoteComesInTurn(w, s, Next(w, s, a).ledger.votes[i], g);
    }
  }

  lemma OnlyTwoStepsVote(w: World, s: State, a: Action)
    requires Enabled(w, s, a) && |s.ledger.votes| < |Next(w, s, a).ledger.votes|
    ensures a == Consume(Judge(Acked)) || (a == Consume(Page(PageOk)) && PageLeft(w, s))
    ensures Next(w, s, a).ledger.votes ==
            s.ledger.votes + if a == Consume(Judge(Acked)) then [s.consumer.height] else PageVotes(w, s)
  {
    match a
    case Poll(p) => VoteOrder.PollIsQuiet(w, s, p);
    case Lag(l) => VoteOrder.LagIsQuiet(w, s, l);
    case Life(x) => VoteOrder.LifeReloads(w, s, x);
    case _ =>
  }

  /** An accepted skip discards only heights that are accounted for: those drained from the buffer
      and those jumped over. */
  lemma SkipDiscardsNothingEligible(w: World, stored: Heights, finalized: nat, acts: seq<Action>, h: nat)
    requires Runs(w, Initial(stored, finalized), acts) && Origin(w) <= h
    requires var s := After(w, Initial(stored, finalized), acts);
             && s.poller.pc.Answering? && s.poller.nextHeight < s.poller.pc.target
             && (h in s.poller.buffer || s.poller.nextHeight <= h < s.poller.pc.target)
    ensures Accounted(w, After(w, Initial(stored, finalized), acts), h)
  {
    RunKeeps(w, stored, finalized, acts);
    var s := After(w, Initial(stored, finalized), acts);
    if h in s.poller.buffer {
      var i :| 0 <= i < |s.poller.buffer| && s.poller.buffer[i] == h;
      assert Line(s)[i] == Front(s) + i;
    }
  }

  // ---------------------------------------------------------------------------------------
  // Below the origin

  /** Nothing below the origin is delivered; a sync starts above a finalized height, so at 2 or
      higher. */
  ghost predicate FloorInv(w: World, s: State) {
    && (forall h :: h in s.delivered ==> Origin(w) <= h)
    && (forall h :: h in s.ledger.votes ==> Origin(w) <= h || 2 <= h)
    && (s.consumer.Syncing? ==> 2 <= s.consumer.next)
  }

  /** Deliveries, votes and the sync in progress are as before, or a sync begins above a finalized
      height. */
  ghost predicate AddsNothing(s: State, s': State) {
    && (s'.delivered == s.delivered || s'.delivered == [])
    && s'.ledger.votes == s.ledger.votes
    && (s'.consumer.Syncing? ==> s'.consumer == s.consumer || 2 <= s'.consumer.next)
  }

  lemma OtherConsumeAddsNothing(w: World, s: State, a: ConsumerAct)
    requires ConsumeEnabled(w, s, a) && !a.Receive? && !a.Handoff? && a != Judge(Acked) && a != Page(PageOk)
    ensures AddsNothing(s, ConsumeNext(w, s, a))
  {
  }

  lemma OtherAddsNothing(w: World, s: State, a: Action)
    requires Enabled(w, s, a) && !a.Consume?
    ensures AddsNothing(s, Next(w, s, a))
  {
  }

  lemma PageKeepsFloor(w: World, s: State)
    requires FloorInv(w, s) && PageLeft(w, s)
    ensures FloorInv(w, Paged(w, s, PageOk))
  {
    var s' := Paged(w, s, PageOk);
    EligibleIsExact(w.power, Processed(s), s.consumer.next, s'.consumer.next);
    assert s'.ledger.votes == s.ledger.votes + PageVotes(w, s);
  }

  lemma DeliveryKeepsFloor(w: World, s: State, a: ConsumerAct)
    requires Inv(w, s) && FloorInv(w, s) && ConsumeEnabled(w, s, a) && (a.Receive? || a.Handoff?)
    ensures FloorInv(w, ConsumeNext(w, s, a))
  {
    PollerInvariant.DeliveryKeeps(w, s, a);
  }

  lemma StepKeepsFloor(w: World, s: State, a: Action)
    requires Inv(w, s) && FloorInv(w, s) && Enabled(w, s, a)
    ensures FloorInv(w, Next(w, s, a))
  {
    match a
    case Consume(c) =>
      match c {
        case Receive => DeliveryKeepsFloor(w, s, c);
        case Handoff => DeliveryKeepsFloor(w, s, c);
        case Judge(Acked) =>
        case Page(PageOk) => PageKeepsFloor(w, s);
        case _ => OtherConsumeAddsNothing(w, s, c);
      }
    case _ => OtherAddsNothing(w, s, a);
  }

  lemma {:induction false} RunKeepsFloor(w: World, stored: Heights, finalized: nat, acts: seq<Action>)
    requires Runs(w, Initial(stored, finalized), acts)
    ensures FloorInv(w, After(w, Initial(stored, finalized), acts))
  {
    if acts != [] {
      RunKeepsFloor(w, stored, finalized, acts[..|acts| - 1]);
      RunKeeps(w, stored, finalized, acts[..|acts| - 1]);
      StepKeepsFloor(w, After(w, Initial(stored, finalized), acts[..|acts| - 1]), acts[|acts| - 1]);
    }
  }

  /** In every run nothing below the origin is delivered and nothing below both the origin and 2 is
      voted.  With automatic scanning height 1 is therefore never delivered and never voted,
      whatever its voting power, the stored progress and the chain's replies. */
  lemma HeightOneIsPassedOver(w: World, stored: Heights, finalized: nat, acts: seq<Action>)
    requires Runs(w, Initial(stored, finalized), acts)
    ensures var s := After(w, Initial(stored, finalized), acts);
            && (forall h :: h in s.delivered ==> Origin(w) <= h)
            && (forall h :: h in s.ledger.votes ==> Origin(w) <= h || 2 <= h)
            && (w.scan.Auto? ==> 1 !in s.delivered && 1 !in s.ledger.votes)
  {
    RunKeepsFloor(w, stored, finalized, acts);
  }
}
