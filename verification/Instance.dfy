/**
 The voting operations of one finality-provider instance: the retry loop around a single vote,
 the handling of a polled block, and fast sync.  Replies of the chain are parameters; `votes`
 records the heights whose vote the chain acknowledged, in order.
 */
module Instance {
  import opened Progress
  import opened Providers
  import opened Eligibility
  import opened Retry

  // ---------------------------------------------------------------------------------------
  // Fast sync

  /** Replies a fast sync receives: for the k-th page query, for the power query at a height,
      and for the batch submission of the k-th page. */
  datatype ChainReplies = ChainReplies(
    power: Power,
    powerFails: nat -> bool,
    queryFails: nat -> bool,
    batch: nat -> BatchReply)

  datatype BatchReply = BatchAccepted | BatchJailed | BatchSlashed | BatchError

  datatype SyncError = AlreadyInSync | EmptyRange | PageQueryFailed | PowerQueryFailed | Submission(reply: BatchReply)

  datatype SyncResult =
    | Synced(responses: nat, syncedHeight: nat, lastProcessed: nat)
    | SyncFailed(error: SyncError)

  datatype PageResult = PageEmpty | PageVoted(last: nat) | PageFailed(error: SyncError)

  /** The votes a fast sync starting at ledger l casts on [lo, hi). */
  function VotesBefore(l: Ledger, power: Power, lo: nat, hi: nat): seq<nat> {
    Eligible(power, l.copies.mem.processed, lo, hi)
  }

  /** A power query for an unprocessed block of [lo, hi) fails. */
  ghost predicate BlocksFail(chain: ChainReplies, above: nat, lo: nat, hi: nat) {
    exists h :: lo <= h < hi && above < h && chain.powerFails(h)
  }

  /** The page [lo, hi) cannot be voted: a power query fails, or there is something to vote on and
      the batch is not accepted. */
  ghost predicate PageFails(chain: ChainReplies, above: nat, lo: nat, hi: nat, reply: BatchReply) {
    BlocksFail(chain, above, lo, hi) || (Eligible(chain.power, above, lo, hi) != [] && !reply.BatchAccepted?)
  }

  ghost function PageError(chain: ChainReplies, above: nat, lo: nat, hi: nat, reply: BatchReply): SyncError {
    if BlocksFail(chain, above, lo, hi) then PowerQueryFailed else Submission(reply)
  }

  // The k-th page of a sync of [start, end] from ledger l.

  ghost predicate Breaks(l: Ledger, start: nat, end: nat, limit: nat, chain: ChainReplies, k: nat)
    requires start <= end
  {
    var lo, hi := PageStart(start, end, limit, k), PageStart(start, end, limit, k + 1);
    chain.queryFails(k) || PageFails(chain, l.copies.mem.processed, lo, hi, chain.batch(k))
  }

  ghost function BreakError(l: Ledger, start: nat, end: nat, limit: nat, chain: ChainReplies, k: nat): SyncError
    requires start <= end
  {
    var lo, hi := PageStart(start, end, limit, k), PageStart(start, end, limit, k + 1);
    if chain.queryFails(k) then PageQueryFailed
    else PageError(chain, l.copies.mem.processed, lo, hi, chain.batch(k))
  }

  /** None of the first n pages breaks the sync. */
  ghost predicate Unbroken(l: Ledger, start: nat, end: nat, limit: nat, chain: ChainReplies, n: nat)
    requires start <= end
  {
    forall k :: 0 <= k < n ==> !Breaks(l, start, end, limit, chain, k)
  }

  /** How many of the first n pages have something to vote on. */
  ghost function VotedPages(l: Ledger, start: nat, end: nat, limit: nat, chain: ChainReplies, n: nat): nat
    requires start <= end
  {
    if n == 0 then 0
    else
      var lo, hi := PageStart(start, end, limit, n - 1), PageStart(start, end, limit, n);
      VotedPages(l, start, end, limit, chain, n - 1) + if VotesBefore(l, chain.power, lo, hi) == [] then 0 else 1
  }

  /** How many pages a sync that is not broken asks for. A limit of 0 yields one page without blocks. */
  function Rounds(start: nat, end: nat, limit: nat): nat {
    if limit == 0 then 1 else Pages(start, end, limit)
  }

  /** What a fast sync of [start, end] does. It succeeds if and only if no page breaks it: then every
      eligible height has been voted, in order and once, however the pages are cut, with exactly the
      page queries needed. Otherwise it ends with the error of the first page that breaks it, and
      exactly the eligible heights of the earlier pages have been voted. */
  ghost predicate SyncSpec(l: Ledger, l': Ledger, start: nat, end: nat, limit: nat, chain: ChainReplies,
                           r: SyncResult, queries: nat)
    requires start <= end
  {
    && (r.Synced? <==> Unbroken(l, start, end, limit, chain, Rounds(start, end, limit)))
    && match r
       case Synced(responses, syncedHeight, lastProcessed) =>
         && l' == SyncOver(chain.power, l, start, if limit == 0 then start else end + 1)
         && syncedHeight == lastProcessed == l'.copies.mem.processed
         && queries == Rounds(start, end, limit)
         && responses == VotedPages(l, start, end, limit, chain, queries)
       case SyncFailed(error) =>
         && 1 <= queries <= Rounds(start, end, limit)
         && Unbroken(l, start, end, limit, chain, queries - 1)
         && Breaks(l, start, end, limit, chain, queries - 1)
         && error == BreakError(l, start, end, limit, chain, queries - 1)
         && l' == RecordVotes(l, VotesBefore(l, chain.power, start, PageStart(start, end, limit, queries - 1)))
  }

  /** Reply to the query for the last finalized block. */
  datatype FinalizedReply = NoFinalizedBlock | LastFinalized(height: nat) | FinalizedQueryFailed

  datatype TrySync = SyncNotNeeded | NoStart | Attempted(result: SyncResult)

  /** How the loop leaves a polled block. */
  datatype BlockExit = AlreadyProcessed | PowerUnknown | NoPower | Tried(exit: RetryExit)

  class FinalityProviderInstance {
    const state: FpState
    var inSync: bool
    ghost var votes: seq<nat>

    constructor (state: FpState)
      ensures this.state == state && !inSync && votes == []
    {
      this.state := state;
      inSync := false;
      votes := [];
    }

    ghost function Ledger(): Ledger
      requires state.Valid()
      reads this, state, state.store
    {
      Eligibility.Ledger(state.Copies(), votes)
    }

    /** SubmitFinalitySignature under its retry loop. The progress record changes only on the
        acknowledged exit. */
    method RetrySubmit(h: nat, maxRetries: nat, script: seq<Cycle>) returns (exit: RetryExit, submissions: nat)
      requires state.Valid() && maxRetries < UINT32_RANGE
      modifies this`votes, state`fp, state.store
      ensures state.Valid()
      ensures RetryTrace(script, maxRetries, submissions, exit)
      ensures Ledger() == if exit.Succeeded? then RecordVotes(old(Ledger()), [h]) else old(Ledger())
    {
      submissions := 0;
      var failedCycles := 0;
      while submissions < |script|
        invariant 0 <= submissions <= |script|
        invariant failedCycles == submissions % UINT32_RANGE
        invariant forall i :: 0 <= i < submissions ==> CycleExit(script[i], i + 1, maxRetries).Retrying?
        invariant state.Valid() && Ledger() == old(Ledger())
      {
        var c := script[submissions];
        submissions := submissions + 1;
        match c.submit {
          case Acknowledged =>
            state.SetLastProcessedAndVotedHeight(h);
            votes := votes + [h];
            return Succeeded, submissions;
          case Unrecoverable =>
            return CriticalError, submissions;
          case Expected =>
            return NotNeeded, submissions;
          case Transient =>
            failedCycles := (failedCycles + 1) % UINT32_RANGE;
            if failedCycles > maxRetries {
              return CriticalError, submissions;
            }
        }
        match c.pause {
          case Elapsed(finalized) =>
            if finalized {
              return AlreadyFinalized, submissions;
            }
          case FinalityQueryFailed =>
            return CriticalError, submissions;
          case Quit =>
            return ShutDown, submissions;
        }
      }
      exit := Retrying;
    }

    /** One polled block in the submission loop. A block at or below the processed height is
        left alone, a block without power is recorded as processed, and any other block is
        voted on; nothing is recorded unless the vote is acknowledged. */
    method HandlePolledBlock(h: nat, power: Power, powerFails: bool, maxRetries: nat, script: seq<Cycle>)
      returns (exit: BlockExit)
      requires state.Valid() && maxRetries < UINT32_RANGE
      modifies this`votes, state`fp, state.store
      ensures state.Valid()
      ensures exit.AlreadyProcessed? <==> h <= old(state.fp.processed)
      ensures exit.PowerUnknown? <==> old(state.fp.processed) < h && powerFails
      ensures exit.NoPower? <==> old(state.fp.processed) < h && !powerFails && power(h) == 0
      ensures Ledger() == if exit.NoPower? || exit == Tried(Succeeded) then LoopBody(power, old(Ledger()), h)
                          else old(Ledger())
      ensures exit == Tried(Succeeded) ==> votes == old(votes) + [h]
      ensures exit.Tried? ==> exists n: nat :: RetryTrace(script, maxRetries, n, exit.exit)
    {
      if h <= state.fp.processed {
        return AlreadyProcessed;
      }
      if powerFails {
        return PowerUnknown;
      }
      if power(h) == 0 {
        state.SetLastProcessedHeight(h);
        return NoPower;
      }
      var e, _ := RetrySubmit(h, maxRetries, script);
      return Tried(e);
    }

    /** Catches up on [start, end] in pages of at most `limit` blocks, exactly as SyncSpec says. */
    method FastSync(start: nat, end: nat, limit: nat, chain: ChainReplies)
      returns (r: SyncResult, queries: nat)
      requires state.Valid()
      modifies this`votes, this`inSync, state`fp, state.store
      ensures state.Valid()
      ensures inSync == old(inSync)
      ensures old(inSync) ==> r == SyncFailed(AlreadyInSync)
      ensures !old(inSync) && start > end ==> r == SyncFailed(EmptyRange)
      ensures old(inSync) || start > end ==> Ledger() == old(Ledger()) && queries == 0
      ensures !old(inSync) && start <= end ==>
                SyncSpec(old(Ledger()), Ledger(), start, end, limit, chain, r, queries)
      ensures !old(inSync) && start <= end && r.SyncFailed? ==>
                && 1 <= queries
                && (chain.queryFails(queries - 1) <==> r.error.PageQueryFailed?)
                && (r.error.PageQueryFailed? || r.error.PowerQueryFailed?
                    || (r.error == Submission(chain.batch(queries - 1)) && !chain.batch(queries - 1).BatchAccepted?))
                && (r.error.PowerQueryFailed? ==> exists h :: start <= h <= end && old(state.fp.processed) < h
                                                              && chain.powerFails(h))
    {
      if inSync {
        return SyncFailed(AlreadyInSync), 0;
      }
      if start > end {
        return SyncFailed(EmptyRange), 0;
      }
      inSync := true;
      r, queries := SyncRange(start, end, limit, chain);
      inSync := false;
    }

    /** The paging loop of a fast sync. */
    method SyncRange(start: nat, end: nat, limit: nat, chain: ChainReplies) returns (r: SyncResult, queries: nat)
      requires state.Valid() && start <= end
      modifies this`votes, state`fp, state.store
      ensures state.Valid()
      ensures SyncSpec(old(Ledger()), Ledger(), start, end, limit, chain, r, queries)
    {
      queries := 0;
      var next, synced, responses := start, 0, 0;
      ghost var l0 := Ledger();
      while next <= end
        invariant state.Valid()
        invariant Underway(l0, Ledger(), start, end, limit, chain, queries, next, synced, responses)
        invariant limit == 0 ==> next <= end
        decreases end + 1 - next
      {
        ghost var l, n := Ledger(), queries;
        queries := queries + 1;
        if chain.queryFails(queries - 1) {
          BrokenOff(l0, l, start, end, limit, chain, n, next, synced, responses, PageQueryFailed);
          return SyncFailed(PageQueryFailed), queries;
        }
        var pageStart, pageEnd := next, PageEnd(next, end, limit);
        if pageEnd == pageStart {
          Completed(l0, l, start, end, limit, chain, n, next, synced, responses);
          break;
        }
        next := pageEnd;
        var page := SyncPage(pageStart, pageEnd, chain, chain.batch(queries - 1));
        if page.PageFailed? {
          BrokenOff(l0, l, start, end, limit, chain, n, pageStart, synced, responses, page.error);
          return SyncFailed(page.error), queries;
        }
        PageDone(l0, l, start, end, limit, chain, n, pageStart, synced, responses);
        if page.PageVoted? {
          synced := page.last;
          responses := responses + 1;
        }
      }
      if limit >= 1 {
        Completed(l0, Ledger(), start, end, limit, chain, queries, next, synced, responses);
      }
      state.SetLastProcessedHeight(synced);
      return Synced(responses, synced, state.fp.processed), queries;
    }

    /** The body of the fast-sync loop on one page [lo, hi) of blocks: it fails exactly as PageFails
        says, and then changes nothing; otherwise it votes all eligible heights of the page. */
    method SyncPage(lo: nat, hi: nat, chain: ChainReplies, reply: BatchReply) returns (r: PageResult)
      requires state.Valid() && lo <= hi
      modifies this`votes, state`fp, state.store
      ensures state.Valid()
      ensures r.PageFailed? <==> PageFails(chain, old(state.fp.processed), lo, hi, reply)
      ensures r.PageFailed? ==> Ledger() == old(Ledger())
                                && r.error == PageError(chain, old(state.fp.processed), lo, hi, reply)
      ensures r == PageFailed(PowerQueryFailed) <==>
                exists h :: lo <= h < hi && old(state.fp.processed) < h && chain.powerFails(h)
      ensures r.PageFailed? && r.error != PowerQueryFailed ==> r.error == Submission(reply) && !reply.BatchAccepted?
      ensures r.PageVoted? ==> reply.BatchAccepted?
      ensures var e := VotesBefore(old(Ledger()), chain.power, lo, hi);
              && (!r.PageFailed? ==> Ledger() == RecordVotes(old(Ledger()), e))
              && (r.PageEmpty? ==> e == [])
              && (r.PageVoted? ==> e != [] && r.last == LastOrZero(e))
    {
      var catchUp, powerError := FilterPage(lo, hi, chain);
      if powerError {
        return PageFailed(PowerQueryFailed);
      }
      if |catchUp| < 1 {
        return PageEmpty;
      }
      if !reply.BatchAccepted? {
        return PageFailed(Submission(reply));
      }
      var last := catchUp[|catchUp| - 1];
      state.SetLastProcessedAndVotedHeight(last);
      votes := votes + catchUp;
      return PageVoted(last);
    }

    /** Keeps the blocks of a page that were not processed before and carry voting power. */
    method FilterPage(lo: nat, hi: nat, chain: ChainReplies) returns (keep: seq<nat>, powerError: bool)
      requires lo <= hi
      ensures !powerError ==> keep == Eligible(chain.power, state.fp.processed, lo, hi)
      ensures powerError <==> exists h :: lo <= h < hi && state.fp.processed < h && chain.powerFails(h)
    {
      keep := [];
      for h := lo to hi
        invariant keep == Eligible(chain.power, state.fp.processed, lo, h)
        invariant forall g :: lo <= g < h && state.fp.processed < g ==> !chain.powerFails(g)
      {
        if h <= state.fp.processed {
          continue;
        }
        if chain.powerFails(h) {
          return keep, true;
        }
        if chain.power(h) == 0 {
          continue;
        }
        keep := keep + [h];
      }
      powerError := false;
    }

    /** Decides whether and from where to fast sync towards the target. */
    method TryFastSync(target: nat, finalized: FinalizedReply, limit: nat, chain: ChainReplies)
      returns (r: TrySync)
      requires state.Valid()
      modifies this`votes, this`inSync, state`fp, state.store
      ensures state.Valid() && inSync == old(inSync)
      ensures r.SyncNotNeeded? <==> !old(inSync) && finalized.NoFinalizedBlock?
      ensures r.Attempted? <==> !old(inSync) && finalized.LastFinalized?
                                && SyncStart(finalized.height, old(state.fp.processed)) <= target
      ensures !r.Attempted? ==> Ledger() == old(Ledger())
      ensures r.Attempted? ==>
                && r.result != SyncFailed(AlreadyInSync) && r.result != SyncFailed(EmptyRange)
                && exists queries: nat ::
                     SyncSpec(old(Ledger()), Ledger(), SyncStart(finalized.height, old(state.fp.processed)), target,
                              limit, chain, r.result, queries)
    {
      if inSync {
        return NoStart;
      }
      match finalized {
        case FinalizedQueryFailed => return NoStart;
        case NoFinalizedBlock => return SyncNotNeeded;
        case LastFinalized(f) =>
          var start := SyncStart(f, state.fp.processed);
          if start > target {
            return NoStart;
          }
          var result, queries := FastSync(start, target, limit, chain);
          return Attempted(result);
      }
    }
  }

  /** The votes recorded so far do not change which later heights are eligible. */
  lemma LaterPageIsSame(l: Ledger, power: Power, start: nat, mid: nat, hi: nat)
    ensures VotesBefore(RecordVotes(l, VotesBefore(l, power, start, mid)), power, mid, hi)
            == VotesBefore(l, power, mid, hi)
  {
    var p0 := l.copies.mem.processed;
    var before := VotesBefore(l, power, start, mid);
    if before != [] {
      var last := before[|before| - 1];
      EligibleIsExact(power, p0, start, mid);
      assert last in before;
      EligibleSameAbove(power, p0, last, mid, hi);
    }
  }

  /** Nor do they change whether a later page fails, or how. */
  lemma LaterFailureIsSame(l: Ledger, chain: ChainReplies, start: nat, mid: nat, hi: nat, reply: BatchReply)
    ensures var p := RecordVotes(l, VotesBefore(l, chain.power, start, mid)).copies.mem.processed;
            && (PageFails(chain, p, mid, hi, reply) <==> PageFails(chain, l.copies.mem.processed, mid, hi, reply))
            && PageError(chain, p, mid, hi, reply) == PageError(chain, l.copies.mem.processed, mid, hi, reply)
  {
    var before := VotesBefore(l, chain.power, start, mid);
    LaterPageIsSame(l, chain.power, start, mid, hi);
    EligibleIsExact(chain.power, l.copies.mem.processed, start, mid);
    assert before != [] ==> before[|before| - 1] in before;
  }

  /** The first n pages of a sync are behind, next is where page n starts. */
  ghost predicate Walked(l: Ledger, start: nat, end: nat, limit: nat, chain: ChainReplies, n: nat, next: nat)
    requires start <= end
  {
    && next == PageStart(start, end, limit, n)
    && (if limit == 0 then n == 0 && next == start else n + Pages(next, end, limit) == Pages(start, end, limit))
    && Unbroken(l, start, end, limit, chain, n)
  }

  /** What the next page means for the whole sync. */
  lemma WalkOn(l: Ledger, start: nat, end: nat, limit: nat, chain: ChainReplies, n: nat, next: nat)
    requires start <= end && next <= end && Walked(l, start, end, limit, chain, n, next)
    ensures var hi := PageEnd(next, end, limit);
            var l1 := RecordVotes(l, VotesBefore(l, chain.power, start, next));
            var fails := PageFails(chain, l1.copies.mem.processed, next, hi, chain.batch(n));
            && n < Rounds(start, end, limit)
            && (Breaks(l, start, end, limit, chain, n) <==> chain.queryFails(n) || fails)
            && (BreakError(l, start, end, limit, chain, n) ==
                if chain.queryFails(n) then PageQueryFailed
                else PageError(chain, l1.copies.mem.processed, next, hi, chain.batch(n)))
            && (!chain.queryFails(n) && !fails ==>
                  Unbroken(l, start, end, limit, chain, n + 1)
                  && (limit >= 1 ==> Walked(l, start, end, limit, chain, n + 1, hi)))
            && VotedPages(l, start, end, limit, chain, n + 1) ==
               VotedPages(l, start, end, limit, chain, n) +
               if VotesBefore(l1, chain.power, next, hi) == [] then 0 else 1
  {
    var hi := PageEnd(next, end, limit);
    assert PageStart(start, end, limit, n + 1) == hi;
    LaterFailureIsSame(l, chain, start, next, hi, chain.batch(n));
    LaterPageIsSame(l, chain.power, start, next, hi);
  }

  /** Recording two ascending batches one after the other is recording them together. */
  lemma RecordTwice(l: Ledger, before: seq<nat>, page: seq<nat>)
    requires Ascending(before + page)
    ensures RecordVotes(RecordVotes(l, before), page) == RecordVotes(l, before + page)
    ensures LastOrZero(before + page) == (if page == [] then LastOrZero(before) else LastOrZero(page))
  {
    if page == [] {
      assert before + page == before;
    } else if before == [] {
      assert before + page == page;
    } else {
      var all := before + page;
      assert all[|all| - 1] == page[|page| - 1] && all[|before| - 1] == before[|before| - 1];
      assert l.votes + before + page == l.votes + all;
    }
  }

  /** Recording a further page on top of the earlier ones is recording them all: where the pages
      are cut makes no difference. */
  lemma AddPage(l: Ledger, power: Power, start: nat, mid: nat, hi: nat)
    requires start <= mid <= hi
    ensures var before := VotesBefore(l, power, start, mid);
            var l1 := RecordVotes(l, before);
            var page := VotesBefore(l1, power, mid, hi);
            && before + page == VotesBefore(l, power, start, hi)
            && RecordVotes(l1, page) == RecordVotes(l, VotesBefore(l, power, start, hi))
            && LastOrZero(before + page) == (if page == [] then LastOrZero(before) else LastOrZero(page))
  {
    LaterPageIsSame(l, power, start, mid, hi);
    EligibleSplit(power, l.copies.mem.processed, start, mid, hi);
    EligibleIsExact(power, l.copies.mem.processed, start, hi);
    RecordTwice(l, VotesBefore(l, power, start, mid), VotesBefore(l, power, mid, hi));
  }

  /** A sync of [start, end] that began on l0 stands at ledger l before page n, which starts at next. */
  ghost predicate Underway(l0: Ledger, l: Ledger, start: nat, end: nat, limit: nat, chain: ChainReplies,
                           n: nat, next: nat, synced: nat, responses: nat)
    requires start <= end
  {
    var before := VotesBefore(l0, chain.power, start, next);
    && Walked(l0, start, end, limit, chain, n, next)
    && l == RecordVotes(l0, before) && synced == LastOrZero(before)
    && responses == VotedPages(l0, start, end, limit, chain, n)
  }

  /** A page that fails ends the sync with its error and the progress of the earlier pages. */
  lemma BrokenOff(l0: Ledger, l: Ledger, start: nat, end: nat, limit: nat, chain: ChainReplies,
                  n: nat, next: nat, synced: nat, responses: nat, error: SyncError)
    requires start <= end && next <= end && Underway(l0, l, start, end, limit, chain, n, next, synced, responses)
    requires var hi, p := PageEnd(next, end, limit), l.copies.mem.processed;
             if chain.queryFails(n) then error == PageQueryFailed
             else PageFails(chain, p, next, hi, chain.batch(n))
                  && error == PageError(chain, p, next, hi, chain.batch(n))
    ensures SyncSpec(l0, l, start, end, limit, chain, SyncFailed(error), n + 1)
  {
    WalkOn(l0, start, end, limit, chain, n, next);
    assert Breaks(l0, start, end, limit, chain, n);
  }

  /** A page that does not fail takes the sync to the next one. */
  lemma PageDone(l0: Ledger, l: Ledger, start: nat, end: nat, limit: nat, chain: ChainReplies,
                 n: nat, next: nat, synced: nat, responses: nat)
    requires start <= end && next <= end && Underway(l0, l, start, end, limit, chain, n, next, synced, responses)
    requires limit >= 1 && !chain.queryFails(n)
    requires !PageFails(chain, l.copies.mem.processed, next, PageEnd(next, end, limit), chain.batch(n))
    ensures var hi := PageEnd(next, end, limit);
            var e := VotesBefore(l, chain.power, next, hi);
            Underway(l0, RecordVotes(l, e), start, end, limit, chain, n + 1, hi,
                     if e == [] then synced else LastOrZero(e), if e == [] then responses else responses + 1)
  {
    WalkOn(l0, start, end, limit, chain, n, next);
    AddPage(l0, chain.power, start, next, PageEnd(next, end, limit));
  }

  /** Past the last page, or at a page without blocks, writing the height of the last vote completes
      the sync. */
  lemma Completed(l0: Ledger, l: Ledger, start: nat, end: nat, limit: nat, chain: ChainReplies,
                  n: nat, next: nat, synced: nat, responses: nat)
    requires start <= end && Underway(l0, l, start, end, limit, chain, n, next, synced, responses)
    requires if limit == 0 then !chain.queryFails(n) else next > end
    ensures var l' := l.(copies := Put(l.copies, MarkProcessed(synced)));
            SyncSpec(l0, l', start, end, limit, chain, Synced(responses, synced, synced),
                     if limit == 0 then n + 1 else n)
  {
    if limit == 0 {
      WalkOn(l0, start, end, limit, chain, n, next);
      assert Eligible(chain.power, l.copies.mem.processed, start, start) == [];
    }
  }
}
