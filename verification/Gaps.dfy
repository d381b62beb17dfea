/**
 What a page with a gap does to a restart.  The chain refuses the batch of such a page
 (Batch.PageAcceptedIff), so the fast sync at start-up fails on it.
 */
module Gaps {
  import opened Progress
  import opened Eligibility
  import opened Engine
  import Batch

  /** The page about to be fetched has no powerless block between two eligible ones. */
  ghost predicate ClearPage(w: World, s: State)
    requires PageLeft(w, s)
  {
    Batch.NoGap(w.power, Processed(s), s.consumer.next, PageEnd(s.consumer.next, s.consumer.end, w.limit))
  }

  /** The step accepts the batch of a page with a gap, which the chain does not do. */
  ghost predicate AcceptsGap(w: World, s: State, a: Action) {
    a == Consume(Page(PageOk)) && PageLeft(w, s) && !ClearPage(w, s)
  }

  /** A powerless block between two powered ones. */
  datatype Gap = Gap(before: nat, hole: nat, after: nat) {
    predicate In(w: World) {
      before < hole < after && w.power(before) > 0 && w.power(hole) == 0 && w.power(after) > 0
    }
  }

  /** Finalization stays below the gap, and every start finds a tip beyond it that counts as lagging. */
  predicate GapAhead(w: World, s: State, g: Gap, a: Action) {
    match a
    case Finalize(h) => h < g.before
    case Life(Start(tip, _)) => g.after <= tip && IsLagging(w, s, tip)
    case _ => true
  }

  ghost predicate Stalls(w: World, s: State, g: Gap, acts: seq<Action>)
    requires Runs(w, s, acts)
    decreases |acts|
  {
    acts != [] ==>
      var m, a := After(w, s, acts[..|acts| - 1]), acts[|acts| - 1];
      Stalls(w, s, g, acts[..|acts| - 1]) && !AcceptsGap(w, m, a) && GapAhead(w, m, g, a)
  }

  /** The provider is down, or in a sync at start-up whose first page holds the gap. */
  ghost predicate Blocked(w: World, s: State, l: Ledger, base: nat, g: Gap) {
    && s.ledger == l && l.copies.mem == l.copies.disk
    && 1 <= s.finalized && base <= Max(s.finalized, Processed(s)) < g.before && g.after <= base + w.limit
    && match s.consumer
       case Down => true
       case Syncing(next, end, _, boot) => boot && base < next <= g.before && g.after <= end
       case _ => false
  }

  lemma StepStaysBlocked(w: World, s: State, a: Action, l: Ledger, base: nat, g: Gap)
    requires g.In(w) && Blocked(w, s, l, base, g) && Enabled(w, s, a)
    requires !AcceptsGap(w, s, a) && GapAhead(w, s, g, a)
    ensures Blocked(w, Next(w, s, a), l, base, g)
  {
    if PageLeft(w, s) {
      var hi := PageEnd(s.consumer.next, s.consumer.end, w.limit);
      assert s.consumer.next <= g.before < g.hole < g.after < hi;
      assert IsEligible(w.power, Processed(s), g.before) && IsEligible(w.power, Processed(s), g.after);
      assert !ClearPage(w, s);
    }
  }

  /** A provider that is down, with a gap within one page above its progress and the finalized
      height, does not come up: in every run in which the chain refuses gapped pages, finalization
      stays below the gap and every start finds itself lagging behind the gap, the loops never run,
      nothing is voted and the progress stays as it is. */
  lemma {:induction false} RestartIsBlocked(w: World, s: State, g: Gap, acts: seq<Action>)
    requires s.consumer.Down? && s.ledger.copies.mem == s.ledger.copies.disk && 1 <= s.finalized
    requires g.In(w) && Max(s.finalized, Processed(s)) < g.before && g.after <= Max(s.finalized, Processed(s)) + w.limit
    requires Runs(w, s, acts) && Stalls(w, s, g, acts)
    ensures !Running(After(w, s, acts)) && After(w, s, acts).ledger == s.ledger
    ensures Blocked(w, After(w, s, acts), s.ledger, Max(s.finalized, Processed(s)), g)
  {
    if acts != [] {
      var front := acts[..|acts| - 1];
      RestartIsBlocked(w, s, g, front);
      StepStaysBlocked(w, After(w, s, front), acts[|acts| - 1], s.ledger, Max(s.finalized, Processed(s)), g);
    }
  }

  ghost predicate NeverAcceptsGap(w: World, s: State, acts: seq<Action>)
    requires Runs(w, s, acts)
    decreases |acts|
  {
    acts != [] ==>
      && NeverAcceptsGap(w, s, acts[..|acts| - 1])
      && !AcceptsGap(w, After(w, s, acts[..|acts| - 1]), acts[|acts| - 1])
  }

  /** A clear page leaves a clear rest. */
  lemma ClearRest(w: World, s: State)
    requires PageLeft(w, s) && Batch.NoGap(w.power, Processed(s), s.consumer.next, s.consumer.end + 1)
    ensures ClearPage(w, s)
    ensures var s' := Paged(w, s, PageOk);
            Batch.NoGap(w.power, Processed(s'), s'.consumer.next, s'.consumer.end + 1)
  {
    var s' := Paged(w, s, PageOk);
    EligibleIsExact(w.power, Processed(s), s.consumer.next, s'.consumer.next);
    var e := PageVotes(w, s);
    assert e != [] ==> e[|e| - 1] in e;
    assert forall h: nat :: IsEligible(w.power, Processed(s'), h) ==> IsEligible(w.power, Processed(s), h);
  }

  lemma {:induction false} WalkClearPages(w: World, s: State, done: seq<Action>) returns (acts: seq<Action>)
    requires Runs(w, s, done) && NeverAcceptsGap(w, s, done)
    requires var m := After(w, s, done);
             && m.consumer.Syncing? && m.consumer.boot
             && Batch.NoGap(w.power, Processed(m), m.consumer.next, m.consumer.end + 1)
    ensures Runs(w, s, acts) && NeverAcceptsGap(w, s, acts)
    ensures var m := After(w, s, acts); m.consumer.Syncing? && m.consumer.boot && !PageLeft(w, m)
    decreases var c := After(w, s, done).consumer; c.end + 1 - c.next
  {
    var m := After(w, s, done);
    acts := done;
    if PageLeft(w, m) {
      ClearRest(w, m);
      acts := Do(w, s, done, Consume(Page(PageOk)));
      assert acts[..|acts| - 1] == done;
      acts := WalkClearPages(w, s, acts);
    }
  }

  /** Without a gap between the progress and the tip the same start succeeds on the same chain: once
      finalization has passed the gaps, the provider comes up again. */
  lemma ClearRestartSucceeds(w: World, s: State, tip: nat) returns (acts: seq<Action>)
    requires s.consumer.Down? && !s.inSync && 1 <= s.finalized && IsLagging(w, s, tip)
    requires var start := SyncStart(s.finalized, Processed(s));
             start <= tip && Batch.NoGap(w.power, Processed(s), start, tip + 1)
    ensures Runs(w, s, acts) && NeverAcceptsGap(w, s, acts) && After(w, s, acts).consumer.Launching?
  {
    acts := Begin(w, s, Life(Start(tip, false)));
    assert acts[..0] == [];
    acts := WalkClearPages(w, s, acts);
    var walked := acts;
    acts := Do(w, s, acts, Consume(FinishSync));
    assert acts[..|acts| - 1] == walked;
  }
}
