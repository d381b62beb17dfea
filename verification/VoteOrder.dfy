/**
 Order of acknowledged votes and agreement of the two progress copies, over whole runs that mix
 polled votes, batched votes, crashes and restarts.
 */
module VoteOrder {
  import opened Progress
  import opened Eligibility
  import opened Engine

  /** The ledger is untouched, no sync begins or moves, and nothing goes down. */
  ghost predicate Quiet(s: State, s': State) {
    && s'.ledger == s.ledger
    && (s'.consumer.Syncing? ==> s'.consumer == s.consumer)
    && (s'.consumer.Down? ==> s.consumer.Down?)
  }

  lemma PollIsQuiet(w: World, s: State, a: PollerAct)
    requires PollEnabled(w, s, a)
    ensures Quiet(s, PollNext(w, s, a))
  {
  }

  lemma LagIsQuiet(w: World, s: State, a: LagAct)
    requires LagEnabled(w, s, a)
    ensures Quiet(s, LagNext(w, s, a))
  {
  }

  /** A life-cycle step leaves the ledger alone or reads the progress back from the store. */
  lemma LifeReloads(w: World, s: State, a: LifeAct)
    requires LifeEnabled(w, s, a)
    ensures var s' := LifeNext(w, s, a);
            && (s'.ledger == s.ledger || s'.ledger == s.ledger.(copies := Reload(s.ledger.copies)))
            && (s'.consumer.Syncing? ==> s'.consumer == s.consumer || s'.consumer.synced == 0)
            && (s'.consumer.Down? ==> s'.ledger.copies == Reload(s.ledger.copies))
            && (s'.ledger != s.ledger ==> s'.consumer.Down?)
  {
  }

  /** During a sync, syncedHeight is 0 before the first vote and the recorded progress after. */
  ghost predicate SyncShape(s: State) {
    s.consumer.Syncing? && s.consumer.synced != 0 ==>
      s.ledger.copies.mem == Heights(s.consumer.synced, s.consumer.synced)
  }

  lemma StepKeepsShape(w: World, s: State, a: Action)
    requires SyncShape(s) && Enabled(w, s, a)
    ensures SyncShape(Next(w, s, a))
  {
    match a
    case Finalize(_) =>
    case Poll(p) => PollIsQuiet(w, s, p);
    case Lag(l) => LagIsQuiet(w, s, l);
    case Life(x) => LifeReloads(w, s, x);
    case Consume(c) => ConsumeKeepsShape(w, s, c);
  }

  lemma ConsumeKeepsShape(w: World, s: State, a: ConsumerAct)
    requires SyncShape(s) && ConsumeEnabled(w, s, a)
    ensures SyncShape(ConsumeNext(w, s, a))
  {
    if a.Page? {
      EligibleIsExact(w.power, Processed(s), s.consumer.next, PageEnd(s.consumer.next, s.consumer.end, w.limit));
    }
  }

  /** A fast sync completes without having cast a vote. */
  predicate VotelessFinish(s: State, a: Action) {
    a == Consume(FinishSync) && s.consumer.Syncing? && s.consumer.synced == 0
  }

  // ---------------------------------------------------------------------------------------
  // Agreement of the copies

  ghost predicate Agree(s: State) {
    s.ledger.copies.mem == s.ledger.copies.disk
  }

  ghost predicate AgreeInv(s: State) {
    Agree(s) && s.ledger.copies.disk.voted <= s.ledger.copies.disk.processed && SyncShape(s)
  }

  lemma ConsumeAgreesIff(w: World, s: State, a: ConsumerAct)
    requires AgreeInv(s) && ConsumeEnabled(w, s, a)
    ensures var s' := ConsumeNext(w, s, a);
            && (Agree(s') <==> !(VotelessFinish(s, Consume(a)) && Processed(s) > 0))
            && (Agree(s') ==> s'.ledger.copies.disk.voted <= s'.ledger.copies.disk.processed)
  {
    if a.Page? {
      EligibleIsExact(w.power, Processed(s), s.consumer.next, PageEnd(s.consumer.next, s.consumer.end, w.limit));
      var e := PageVotes(w, s);
      assert e != [] ==> e[|e| - 1] in e;
    }
  }

  /** From agreeing copies, a step makes them differ exactly when it completes a voteless fast
      sync while something has been processed. */
  lemma StepAgreesIff(w: World, s: State, a: Action)
    requires AgreeInv(s) && Enabled(w, s, a)
    ensures Agree(Next(w, s, a)) <==> !(VotelessFinish(s, a) && Processed(s) > 0)
    ensures Agree(Next(w, s, a)) ==> AgreeInv(Next(w, s, a))
  {
    StepKeepsShape(w, s, a);
    match a
    case Finalize(_) =>
    case Poll(p) => PollIsQuiet(w, s, p);
    case Lag(l) => LagIsQuiet(w, s, l);
    case Life(x) => LifeReloads(w, s, x);
    case Consume(c) => ConsumeAgreesIff(w, s, c);
  }

  ghost predicate NeverLowered(w: World, s: State, acts: seq<Action>)
    requires Runs(w, s, acts)
    decreases |acts|
  {
    acts != [] ==>
      var m := After(w, s, acts[..|acts| - 1]);
      NeverLowered(w, s, acts[..|acts| - 1]) && !(VotelessFinish(m, acts[|acts| - 1]) && Processed(m) > 0)
  }

  ghost predicate AlwaysAgree(w: World, s: State, acts: seq<Action>)
    requires Runs(w, s, acts)
    decreases |acts|
  {
    Agree(After(w, s, acts)) && (acts != [] ==> AlwaysAgree(w, s, acts[..|acts| - 1]))
  }

  /** In every run the in-memory progress equals the stored progress at every point if and only
      if no fast sync completes without a vote while a height has been processed. */
  lemma {:induction false} CopiesAgreeIff(w: World, stored: Heights, finalized: nat, acts: seq<Action>)
    requires stored.voted <= stored.processed && Runs(w, Initial(stored, finalized), acts)
    ensures AlwaysAgree(w, Initial(stored, finalized), acts) <==> NeverLowered(w, Initial(stored, finalized), acts)
    ensures NeverLowered(w, Initial(stored, finalized), acts) ==> AgreeInv(After(w, Initial(stored, finalized), acts))
  {
    if acts != [] {
      CopiesAgreeIff(w, stored, finalized, acts[..|acts| - 1]);
      var m := After(w, Initial(stored, finalized), acts[..|acts| - 1]);
      if AgreeInv(m) {
        StepAgreesIff(w, m, acts[|acts| - 1]);
      }
    }
  }

  // ---------------------------------------------------------------------------------------
  // The documented rule of the in-memory heights

  /** The last processed height is at least the last voted height. */
  ghost predicate Ruled(h: Heights) {
    h.voted <= h.processed
  }

  /** A fast sync completes without a vote although the memory knows of one. */
  predicate DropsRule(s: State, a: Action) {
    VotelessFinish(s, a) && s.ledger.copies.mem.voted > 0
  }

  lemma ConsumeRuledIff(w: World, s: State, a: ConsumerAct)
    requires Ruled(s.ledger.copies.mem) && Ruled(s.ledger.copies.disk) && SyncShape(s) && ConsumeEnabled(w, s, a)
    ensures var c := ConsumeNext(w, s, a).ledger.copies;
            Ruled(c.disk) && (Ruled(c.mem) <==> !DropsRule(s, Consume(a)))
  {
    match a
    case Page(PageOk) => assert ConsumeNext(w, s, a).ledger == RecordVotes(s.ledger, PageVotes(w, s));
    case FinishSync => assert s.consumer.synced != 0 ==> Processed(s) == s.consumer.synced;
    case Judge(v) =>
    case _ =>
  }

  /** A step breaks the rule in memory exactly when it completes a voteless sync after a vote; the
      stored heights always keep it. */
  lemma StepRuledIff(w: World, s: State, a: Action)
    requires Ruled(s.ledger.copies.mem) && Ruled(s.ledger.copies.disk) && SyncShape(s) && Enabled(w, s, a)
    ensures Ruled(Next(w, s, a).ledger.copies.disk) && SyncShape(Next(w, s, a))
    ensures Ruled(Next(w, s, a).ledger.copies.mem) <==> !DropsRule(s, a)
  {
    StepKeepsShape(w, s, a);
    match a
    case Finalize(_) =>
    case Poll(p) => PollIsQuiet(w, s, p);
    case Lag(l) => LagIsQuiet(w, s, l);
    case Life(x) => LifeReloads(w, s, x);
    case Consume(c) => ConsumeRuledIff(w, s, c);
  }

  ghost predicate NeverDropsRule(w: World, s: State, acts: seq<Action>)
    requires Runs(w, s, acts)
    decreases |acts|
  {
    acts != [] ==>
      && NeverDropsRule(w, s, acts[..|acts| - 1])
      && !DropsRule(After(w, s, acts[..|acts| - 1]), acts[|acts| - 1])
  }

  ghost predicate AlwaysRuled(w: World, s: State, acts: seq<Action>)
    requires Runs(w, s, acts)
    decreases |acts|
  {
    Ruled(After(w, s, acts).ledger.copies.mem) && (acts != [] ==> AlwaysRuled(w, s, acts[..|acts| - 1]))
  }

  /** In every run the last processed height in memory is at least the last voted height at every
      point if and only if no fast sync completes without a vote while a vote is in memory. */
  lemma {:induction false} MemoryRuleHoldsIff(w: World, stored: Heights, finalized: nat, acts: seq<Action>)
    requires Ruled(stored) && Runs(w, Initial(stored, finalized), acts)
    ensures AlwaysRuled(w, Initial(stored, finalized), acts) <==> NeverDropsRule(w, Initial(stored, finalized), acts)
    ensures var s := After(w, Initial(stored, finalized), acts);
            NeverDropsRule(w, Initial(stored, finalized), acts) ==>
              Ruled(s.ledger.copies.mem) && Ruled(s.ledger.copies.disk) && SyncShape(s)
  {
    if acts != [] {
      var front := acts[..|acts| - 1];
      MemoryRuleHoldsIff(w, stored, finalized, front);
      var m := After(w, Initial(stored, finalized), front);
      if NeverDropsRule(w, Initial(stored, finalized), front) {
        StepRuledIff(w, m, acts[|acts| - 1]);
      }
    }
  }

  /** In every run, a provider that is down reads back the stored progress: a restart undoes what
      a voteless fast sync did to the memory. */
  lemma {:induction false} RestartReadsTheStore(w: World, stored: Heights, finalized: nat, acts: seq<Action>)
    requires Runs(w, Initial(stored, finalized), acts)
    ensures var s := After(w, Initial(stored, finalized), acts); s.consumer.Down? ==> Agree(s)
  {
    if acts != [] {
      RestartReadsTheStore(w, stored, finalized, acts[..|acts| - 1]);
      GoingDownReloads(w, After(w, Initial(stored, finalized), acts[..|acts| - 1]), acts[|acts| - 1]);
    }
  }

  lemma GoingDownReloads(w: World, s: State, a: Action)
    requires Enabled(w, s, a) && (s.consumer.Down? ==> Agree(s))
    ensures Next(w, s, a).consumer.Down? ==> Agree(Next(w, s, a))
  {
    match a
    case Finalize(_) =>
    case Poll(p) => PollIsQuiet(w, s, p);
    case Lag(l) => LagIsQuiet(w, s, l);
    case Life(x) => LifeReloads(w, s, x);
    case Consume(c) =>
  }

  // ---------------------------------------------------------------------------------------
  // Order of votes

  /** Every acknowledged vote is at or below both processed heights, so that hasProcessed keeps
      the loop from going back. */
  ghost predicate Guarded(s: State) {
    forall h :: h in s.ledger.votes ==> h <= Processed(s) && h <= s.ledger.copies.disk.processed
  }

  ghost predicate OrderInv(s: State) {
    Ascending(s.ledger.votes) && Guarded(s) && SyncShape(s)
  }

  /** Votes above the processed height, in ascending order, extend the ordered and guarded votes. */
  lemma NewVotesAreOrdered(l: Ledger, e: seq<nat>)
    requires Ascending(l.votes) && Ascending(e)
    requires forall h :: h in l.votes ==> h <= l.copies.mem.processed && h <= l.copies.disk.processed
    requires forall h :: h in e ==> l.copies.mem.processed < h
    ensures var l' := RecordVotes(l, e);
            && Ascending(l'.votes)
            && (forall h :: h in l'.votes ==> h <= l'.copies.mem.processed && h <= l'.copies.disk.processed)
  {
    assert forall i :: 0 <= i < |l.votes| ==> l.votes[i] in l.votes;
    assert forall i :: 0 <= i < |e| ==> e[i] in e;
  }

  predicate CastsVotes(a: Action) {
    a.Consume? && (a.c == Judge(Acked) || a.c == Page(PageOk))
  }

  lemma OtherStepGuardedIff(w: World, s: State, a: Action)
    requires OrderInv(s) && Enabled(w, s, a) && !CastsVotes(a)
    ensures Next(w, s, a).ledger.votes == s.ledger.votes
    ensures Guarded(Next(w, s, a)) <==> !(VotelessFinish(s, a) && exists h :: h in s.ledger.votes && h > 0)
  {
    match a
    case Finalize(_) =>
    case Poll(p) => PollIsQuiet(w, s, p);
    case Lag(l) => LagIsQuiet(w, s, l);
    case Life(x) => LifeReloads(w, s, x);
    case Consume(c) => OtherConsumeGuardedIff(w, s, c);
  }

  lemma OtherConsumeGuardedIff(w: World, s: State, a: ConsumerAct)
    requires OrderInv(s) && ConsumeEnabled(w, s, a) && !CastsVotes(Consume(a))
    ensures ConsumeNext(w, s, a).ledger.votes == s.ledger.votes
    ensures Guarded(ConsumeNext(w, s, a))
            <==> !(VotelessFinish(s, Consume(a)) && exists h :: h in s.ledger.votes && h > 0)
  {
  }

  /** A step removes the guard exactly when it completes a voteless fast sync after a vote above 0. */
  lemma StepGuardedIff(w: World, s: State, a: Action)
    requires OrderInv(s) && Enabled(w, s, a)
    ensures Ascending(Next(w, s, a).ledger.votes)
    ensures Guarded(Next(w, s, a)) <==> !(VotelessFinish(s, a) && exists h :: h in s.ledger.votes && h > 0)
    ensures SyncShape(Next(w, s, a))
  {
    StepKeepsShape(w, s, a);
    if a == Consume(Judge(Acked)) {
      NewVotesAreOrdered(s.ledger, [s.consumer.height]);
    } else if a == Consume(Page(PageOk)) {
      EligibleIsExact(w.power, Processed(s), s.consumer.next, PageEnd(s.consumer.next, s.consumer.end, w.limit));
      NewVotesAreOrdered(s.ledger, PageVotes(w, s));
    } else {
      OtherStepGuardedIff(w, s, a);
    }
  }

  ghost predicate NeverForgets(w: World, s: State, acts: seq<Action>)
    requires Runs(w, s, acts)
    decreases |acts|
  {
    acts != [] ==>
      var m := After(w, s, acts[..|acts| - 1]);
      && NeverForgets(w, s, acts[..|acts| - 1])
      && !(VotelessFinish(m, acts[|acts| - 1]) && exists h :: h in m.ledger.votes && h > 0)
  }

  ghost predicate AlwaysGuarded(w: World, s: State, acts: seq<Action>)
    requires Runs(w, s, acts)
    decreases |acts|
  {
    Guarded(After(w, s, acts)) && (acts != [] ==> AlwaysGuarded(w, s, acts[..|acts| - 1]))
  }

  /** In every run, across the polled path, the batch path, crashes and restarts: every vote stays
      covered by the processed height at every point if and only if no fast sync completes without
      a vote after a vote was acknowledged; and then acknowledged vote heights strictly increase. */
  lemma {:induction false} VotesStayGuardedIff(w: World, stored: Heights, finalized: nat, acts: seq<Action>)
    requires Runs(w, Initial(stored, finalized), acts)
    ensures AlwaysGuarded(w, Initial(stored, finalized), acts) <==> NeverForgets(w, Initial(stored, finalized), acts)
    ensures NeverForgets(w, Initial(stored, finalized), acts) ==>
              OrderInv(After(w, Initial(stored, finalized), acts))
  {
    if acts != [] {
      VotesStayGuardedIff(w, stored, finalized, acts[..|acts| - 1]);
      var m := After(w, Initial(stored, finalized), acts[..|acts| - 1]);
      if OrderInv(m) {
        StepGuardedIff(w, m, acts[|acts| - 1]);
      }
    }
  }

  // ---------------------------------------------------------------------------------------
  // Votes of earlier runs

  /** While the copies agree, the votes of this run are above everything stored before it: the
      order extends to the votes of earlier runs. */
  lemma {:induction false} VotesAboveStored(w: World, stored: Heights, finalized: nat, acts: seq<Action>)
    requires stored.voted <= stored.processed && Runs(w, Initial(stored, finalized), acts)
    requires NeverLowered(w, Initial(stored, finalized), acts)
    ensures var s := After(w, Initial(stored, finalized), acts);
            && stored.processed <= Processed(s)
            && (forall h :: h in s.ledger.votes ==> stored.processed < h)
  {
    if acts != [] {
      var front, a := acts[..|acts| - 1], acts[|acts| - 1];
      var m := After(w, Initial(stored, finalized), front);
      VotesAboveStored(w, stored, finalized, front);
      CopiesAgreeIff(w, stored, finalized, front);
      StepAgreesIff(w, m, a);
      StepStaysAbove(w, m, a, stored.processed);
    }
  }

  lemma StepStaysAbove(w: World, s: State, a: Action, low: nat)
    requires AgreeInv(s) && Enabled(w, s, a) && !(VotelessFinish(s, a) && Processed(s) > 0)
    requires low <= Processed(s) && forall h :: h in s.ledger.votes ==> low < h
    ensures low <= Processed(Next(w, s, a)) && forall h :: h in Next(w, s, a).ledger.votes ==> low < h
  {
    match a
    case Consume(c) =>
      if c == Page(PageOk) {
        PageStaysAbove(w, s, low);
      } else {
        OtherConsumeStaysAbove(w, s, c, low);
      }
    case Poll(p) => PollIsQuiet(w, s, p);
    case Lag(l) => LagIsQuiet(w, s, l);
    case Life(x) => LifeReloads(w, s, x);
    case Finalize(_) =>
  }

  lemma PageStaysAbove(w: World, s: State, low: nat)
    requires PageLeft(w, s) && low <= Processed(s) && forall h :: h in s.ledger.votes ==> low < h
    ensures var s' := Paged(w, s, PageOk);
            low <= Processed(s') && forall h :: h in s'.ledger.votes ==> low < h
  {
    EligibleIsExact(w.power, Processed(s), s.consumer.next, PageEnd(s.consumer.next, s.consumer.end, w.limit));
    var e := PageVotes(w, s);
    assert e != [] ==> e[|e| - 1] in e;
  }

  lemma OtherConsumeStaysAbove(w: World, s: State, a: ConsumerAct, low: nat)
    requires AgreeInv(s) && ConsumeEnabled(w, s, a) && !(VotelessFinish(s, Consume(a)) && Processed(s) > 0)
    requires a != Page(PageOk) && low <= Processed(s)
    ensures low <= Processed(ConsumeNext(w, s, a))
    ensures var votes := ConsumeNext(w, s, a).ledger.votes;
            votes == s.ledger.votes || (a == Judge(Acked) && votes == s.ledger.votes + [s.consumer.height])
  {
  }
}
