/**
 Where the engine's steps lead: which heights a sync covers, where the poller starts and is sent,
 when the provider counts as lagging, and what the failures end in.  The laws name heights and
 replies only, not the functions that compute them.
 */
module StepLaws {
  import opened Progress
  import opened Eligibility
  import opened Engine
  import PollerInvariant
  import LagInvariant

  /** One above the higher of two heights. */
  predicate OneAbove(n: nat, a: nat, b: nat) {
    a < n && b < n && (n == a + 1 || n == b + 1)
  }

  // ---------------------------------------------------------------------------------------
  // Skipping after a sync

  /** A skip request aims one above the processed height. */
  ghost predicate AimsAtProgress(s: State) {
    s.consumer.Skipping? || s.consumer.AwaitingReply? ==> s.consumer.target == Processed(s) + 1
  }

  lemma ConsumeKeepsAim(w: World, s: State, a: ConsumerAct)
    requires AimsAtProgress(s) && ConsumeEnabled(w, s, a)
    ensures AimsAtProgress(ConsumeNext(w, s, a))
  {
  }

  lemma StepKeepsAim(w: World, s: State, a: Action)
    requires AimsAtProgress(s) && Enabled(w, s, a)
    ensures AimsAtProgress(Next(w, s, a))
  {
    match a
    case Consume(c) => ConsumeKeepsAim(w, s, c);
    case Poll(p) =>
    case Lag(l) =>
    case Life(x) =>
    case Finalize(_) =>
  }

  lemma {:induction false} RunKeepsAim(w: World, stored: Heights, finalized: nat, acts: seq<Action>)
    requires Runs(w, Initial(stored, finalized), acts)
    ensures AimsAtProgress(After(w, Initial(stored, finalized), acts))
  {
    if acts != [] {
      RunKeepsAim(w, stored, finalized, acts[..|acts| - 1]);
      StepKeepsAim(w, After(w, Initial(stored, finalized), acts[..|acts| - 1]), acts[|acts| - 1]);
    }
  }

  /** In every run the consumer asks the poller to skip to one above the processed height.  Once the
      request is answered the poller is at or above that height: exactly there, with nothing left in
      the channel, if the request was accepted, and as it was if the poller had passed it already. */
  lemma SkipLandsAtProgress(w: World, stored: Heights, finalized: nat, acts: seq<Action>)
    requires Runs(w, Initial(stored, finalized), acts)
    requires After(w, Initial(stored, finalized), acts).consumer.AwaitingReply?
    ensures var s := After(w, Initial(stored, finalized), acts);
            && s.consumer.target == Processed(s) + 1
            && PollEnabled(w, s, Answer)
            && var s' := PollNext(w, s, Answer);
               && s'.consumer.Idle? && Processed(s') == Processed(s)
               && (if s.poller.nextHeight < Processed(s) + 1
                   then s'.poller == Poller(Polling, Processed(s) + 1, []) && Front(s') == Processed(s) + 1
                   else s'.poller == s.poller.(pc := Polling) && Processed(s) + 1 <= s'.poller.nextHeight)
  {
    RunKeepsAim(w, stored, finalized, acts);
    PollerInvariant.RunKeeps(w, stored, finalized, acts);
    var s := After(w, Initial(stored, finalized), acts);
    if s.poller.nextHeight < s.poller.pc.target {
      PollerInvariant.AcceptedSkipEmpties(w, s);
    }
  }

  // ---------------------------------------------------------------------------------------
  // Launching

  /** The poller is launched one above the higher of processed and finalized height, or at 2 when
      both are 0; with static scanning one above the configured height.  It is launched exactly if
      that height is at most one above the tip; otherwise the start fails. */
  lemma LaunchHeight(w: World, s: State, tip: nat)
    requires LifeEnabled(w, s, Launch(tip))
    ensures var s' := LifeNext(w, s, Launch(tip));
            var n := s'.poller.nextHeight;
            match s'.consumer
            case Idle =>
              && n <= tip + 1 && s'.poller == Poller(Activating, n, [])
              && (if w.scan.Static? then n == w.scan.height + 1
                  else if Processed(s) == 0 && s.finalized == 0 then n == 2
                  else OneAbove(n, Processed(s), s.finalized))
            case Down =>
              if w.scan.Static? then tip < w.scan.height
              else tip < Processed(s) || tip < s.finalized || tip < 1
            case _ => false
  {
  }

  // ---------------------------------------------------------------------------------------
  // Beginning a sync

  /** The state entered when a sync towards the target is tried: it covers the heights from one above
      the higher of processed and finalized height up to the target. */
  ghost predicate BeginsSync(s: State, s': State, target: nat, boot: bool) {
    && s'.consumer.Syncing? && s'.inSync
    && OneAbove(s'.consumer.next, Processed(s), s.finalized)
    && s'.consumer == Syncing(s'.consumer.next, target, 0, boot)
  }

  /** In every run a target taken from the lag checker leads to a sync exactly when the query for the
      last finalized block succeeds, there is one, and both it and the processed height are below the
      target; otherwise the loop goes on. Nothing is recorded yet. */
  lemma TargetIsSyncedIff(w: World, stored: Heights, finalized: nat, acts: seq<Action>, queryFails: bool)
    requires Runs(w, Initial(stored, finalized), acts)
    requires ConsumeEnabled(w, After(w, Initial(stored, finalized), acts), TakeTarget(queryFails))
    ensures var s := After(w, Initial(stored, finalized), acts);
            var s', t := ConsumeNext(w, s, TakeTarget(queryFails)), s.lagger.queue[0];
            && s'.ledger == s.ledger && s'.poller == s.poller
            && if !queryFails && 0 < s.finalized < t && Processed(s) < t then BeginsSync(s, s', t, false)
               else s'.consumer.Idle? && !s'.lagger.flag
  {
    LagInvariant.RunKeeps(w, stored, finalized, acts);
  }

  /** In every run a start tries a sync exactly when the tip is at least the gap above the processed
      height; without a finalized block, or when it is not lagging, it goes on to the launch, and a
      sync that cannot begin fails the start. */
  lemma StartSyncsIff(w: World, stored: Heights, finalized: nat, acts: seq<Action>, tip: nat, queryFails: bool)
    requires Runs(w, Initial(stored, finalized), acts)
    requires LifeEnabled(w, After(w, Initial(stored, finalized), acts), Start(tip, queryFails))
    ensures var s := After(w, Initial(stored, finalized), acts);
            var s' := LifeNext(w, s, Start(tip, queryFails));
            if tip < Processed(s) + w.gap then s' == s.(consumer := Launching)
            else if queryFails then s'.consumer.Down?
            else if s.finalized == 0 then s' == s.(consumer := Launching)
            else if s.finalized < tip && Processed(s) < tip then BeginsSync(s, s', tip, true)
            else s'.consumer.Down?
  {
    LagInvariant.RunKeeps(w, stored, finalized, acts);
  }

  /** The lag checker offers the tip it measured as the target exactly when that tip is at least the
      gap above the processed height; what it offers is what is queued. */
  lemma TargetIsOfferedIff(w: World, s: State, tip: nat)
    requires LagEnabled(w, s, Measure(tip))
    ensures var s' := LagNext(w, s, Measure(tip));
            && s' == s.(lagger := s'.lagger) && s'.lagger.queue == s.lagger.queue
            && (if Processed(s) + w.gap <= tip then s'.lagger.pc == Offering(tip) && s'.lagger.flag
                else s'.lagger.pc == Watching && s'.lagger.flag == s.lagger.flag)
            && (LagEnabled(w, s', Offer) ==> LagNext(w, s', Offer).lagger.queue == s.lagger.queue + [tip])
  {
  }

  /** In every run the lag checker of a running session goes on: it can always take a step. A tick
      leads to a measurement exactly when nothing is outstanding, and a measurement that fails leads
      back to the ticks without a target. */
  lemma LagCheckerGoesOn(w: World, stored: Heights, finalized: nat, acts: seq<Action>)
    requires Runs(w, Initial(stored, finalized), acts) && Running(After(w, Initial(stored, finalized), acts))
    ensures var s := After(w, Initial(stored, finalized), acts);
            && (LagEnabled(w, s, Tick) || LagEnabled(w, s, MeasureFailed) || LagEnabled(w, s, Offer))
            && (LagEnabled(w, s, Tick) ==>
                  (LagNext(w, s, Tick).lagger.pc.Measuring? <==> LagInvariant.Outstanding(s) == 0))
            && (LagEnabled(w, s, MeasureFailed) ==>
                  var s' := LagNext(w, s, MeasureFailed);
                  s'.lagger == Lagger(Watching, false, s.lagger.queue) && LagEnabled(w, s', Tick))
  {
    LagInvariant.RunKeeps(w, stored, finalized, acts);
  }

  // ---------------------------------------------------------------------------------------
  // Failures

  /** A page that fails ends the sync without a record.  At start-up it fails the start; in a session
      the loop goes on, unless the provider is slashed, which halts it. */
  lemma FailedPage(w: World, s: State, slashed: bool)
    requires PageLeft(w, s)
    ensures var s' := Paged(w, s, PageError(slashed));
            && s'.ledger.votes == s.ledger.votes && s'.ledger.copies.disk == s.ledger.copies.disk && !s'.inSync
            && (s.consumer.boot ==> s'.consumer.Down?)
            && (!s.consumer.boot ==> s'.ledger == s.ledger && s'.poller == s.poller
                                     && (if slashed then s'.consumer.Halted? else s'.consumer.Idle?))
  {
  }

  /** What is left of a polled block: only an acknowledged vote is recorded as a vote, only that and a
      powerless block as processed; an unknown power and a failed vote halt the loop, everything else
      lets it go on. */
  lemma VerdictLeads(w: World, s: State, v: Verdict)
    requires ConsumeEnabled(w, s, Judge(v))
    ensures var s', h := ConsumeNext(w, s, Judge(v)), s.consumer.height;
            && (v.PowerUnknown? || v.VoteFailed? <==> s'.consumer == Halted(h))
            && (!v.PowerUnknown? && !v.VoteFailed? <==> s'.consumer.Idle?)
            && s'.ledger.votes == s.ledger.votes + (if v.Acked? then [h] else [])
            && Processed(s') == (if v.Acked? || v.NoPower? then h else Processed(s))
            && s'.declined == s.declined + (if v.NotWanted? then {h} else {})
            && s'.abandoned == s.abandoned + (if v.Interrupted? then {h} else {})
  {
  }
}
