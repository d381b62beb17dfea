/**
 The fast sync that the engine interleaves with the other goroutines, page by page, has the same
 effect as the one described for a whole range.
 */
module SyncRefinement {
  import opened Eligibility
  import opened Engine
  import opened Instance

  /** The sync that began at `start` on ledger l has recorded the votes of the pages so far. */
  ghost predicate OnTrack(w: World, s: State, l: Ledger, start: nat, end: nat, boot: bool) {
    && s.consumer.Syncing? && start <= s.consumer.next <= end + 1 && s.consumer.end == end && s.consumer.boot == boot
    && s.ledger == RecordVotes(l, VotesBefore(l, w.power, start, s.consumer.next))
    && s.consumer.synced == LastOrZero(VotesBefore(l, w.power, start, s.consumer.next))
  }

  /** Neither the sync nor the process fails; everything else may happen in between. */
  predicate Undisturbed(a: Action) {
    match a
    case Consume(c) => c == Page(PageOk)
    case Life(x) => x.RequestStop?
    case _ => true
  }

  lemma StaysOnTrack(w: World, s: State, a: Action, l: Ledger, start: nat, end: nat, boot: bool)
    requires OnTrack(w, s, l, start, end, boot) && Enabled(w, s, a) && Undisturbed(a)
    ensures OnTrack(w, Next(w, s, a), l, start, end, boot)
  {
    if a.Consume? {
      AddPage(l, w.power, start, s.consumer.next, PageEnd(s.consumer.next, end, w.limit));
    }
  }

  lemma {:induction false} RunStaysOnTrack(w: World, s: State, acts: seq<Action>, l: Ledger,
                                           start: nat, end: nat, boot: bool)
    requires OnTrack(w, s, l, start, end, boot) && Runs(w, s, acts)
    requires forall a :: a in acts ==> Undisturbed(a)
    ensures OnTrack(w, After(w, s, acts), l, start, end, boot)
  {
    if acts != [] {
      var front := acts[..|acts| - 1];
      RunStaysOnTrack(w, s, front, l, start, end, boot);
      StaysOnTrack(w, After(w, s, front), acts[|acts| - 1], l, start, end, boot);
    }
  }

  /** On track past the last page, finishing gives the effect of the whole range. */
  lemma FinishOnTrack(w: World, s: State, l: Ledger, start: nat, end: nat, boot: bool)
    requires OnTrack(w, s, l, start, end, boot) && w.limit >= 1 && !PageLeft(w, s)
    ensures SyncFinished(w, s).ledger == SyncOver(w.power, l, start, end + 1)
  {
    var e := VotesBefore(l, w.power, start, end + 1);
    assert s.consumer.next == end + 1;
    assert s.ledger == RecordVotes(l, e) && s.consumer.synced == LastOrZero(e);
  }

  /** Whatever the poller, the lag checker and the chain do meanwhile, a sync over [start, end] that
      runs to its end has exactly the effect of SyncOver: the one the FastSync method is proved to
      have, and the one that refines the block-by-block loop. */
  lemma InterleavedSyncIsSyncOver(w: World, s: State, acts: seq<Action>, start: nat, end: nat, boot: bool)
    requires w.limit >= 1 && start <= end && s.consumer == Syncing(start, end, 0, boot)
    requires Runs(w, s, acts) && (forall a :: a in acts ==> Undisturbed(a))
    requires !PageLeft(w, After(w, s, acts))
    ensures After(w, s, acts).consumer.Syncing?
    ensures SyncFinished(w, After(w, s, acts)).ledger == SyncOver(w.power, s.ledger, start, end + 1)
  {
    assert VotesBefore(s.ledger, w.power, start, start) == [];
    assert OnTrack(w, s, s.ledger, start, end, boot);
    RunStaysOnTrack(w, s, acts, s.ledger, start, end, boot);
    FinishOnTrack(w, After(w, s, acts), s.ledger, start, end, boot);
  }

  /** Handling a polled block in the engine is one turn of the loop body. */
  lemma JudgedIsLoopBody(w: World, s: State, h: nat, v: Verdict)
    requires Processed(s) < h && VerdictPossible(w, s, h, v)
    ensures v.NoPower? || v.Acked? ==> Judged(w, s, h, v).ledger == LoopBody(w.power, s.ledger, h)
    ensures !v.NoPower? && !v.Acked? ==> Judged(w, s, h, v).ledger == s.ledger
  {
  }
}
