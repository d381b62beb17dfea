/**
 Runs of randomness-commitment attempts: where a commitment starts, what the chain holds after
 any sequence of failed, accepted and unacknowledged attempts, and which proofs the store holds.
 */
module Commitments {
  import opened Encoding
  import opened Randomness
  import opened Retry

  /** A range of committed (or stored) heights. */
  datatype Range = Range(start: nat, num: nat) {
    predicate Covers(h: nat) {
      start <= h < start + num
    }
  }

  /** How far an attempt gets. A transaction may take effect although its reply is lost. */
  datatype Fate = QueryFailed | NoKey | NotSigned | Rejected | Accepted | AcceptedReplyLost

  datatype Attempt = Attempt(tip: nat, num: nat, gap: nat, fate: Fate) {
    predicate OnChain() {
      fate.Accepted? || fate.AcceptedReplyLost?
    }

    /** The chain refuses empty lists; heights are uint64 values. */
    predicate Admissible(last: nat) {
      && (OnChain() ==> num >= 1)
      && tip + gap + num < UINT64_RANGE
      && last + num < UINT64_RANGE
    }
  }

  /** The ranges on chain, the ranges whose proofs were handed to the store, and the store. */
  datatype Book = Book(commits: seq<Range>, written: seq<Range>, proofs: map<PubRand, Proof>)

  /** GetLastCommittedHeight: 0 when nothing is committed. */
  function LastCommitted(commits: seq<Range>): nat {
    if commits == [] then 0
    else
      var c := commits[|commits| - 1];
      if c.start + c.num == 0 then 0 else c.start + c.num - 1
  }

  datatype Choice = CommitFrom(start: nat) | Sufficient

  /** Where the next commitment starts, if one is needed. */
  function Choose(last: nat, tip: nat, gap: nat): Choice {
    if last == 0 then CommitFrom(tip + 1)
    else if last < gap + tip then CommitFrom(last + 1)
    else Sufficient
  }

  function Proofs(id: Identity, r: Range): seq<Proof> {
    seq(r.num, (i: nat) => Path(PubList(id, r.start, r.num), i))
  }

  function Stored(id: Identity, m: map<PubRand, Proof>, r: Range): map<PubRand, Proof> {
    AddAll(m, PubList(id, r.start, r.num), Proofs(id, r))
  }

  /** One call of CommitPubRand. */
  function Tried(id: Identity, b: Book, a: Attempt): Book {
    var choice := Choose(LastCommitted(b.commits), a.tip, a.gap);
    if a.fate.QueryFailed? || choice.Sufficient? || (a.fate.NoKey? && a.num > 0) then b
    else
      var r := Range(choice.start, a.num);
      Book(if a.OnChain() then b.commits + [r] else b.commits, b.written + [r], Stored(id, b.proofs, r))
  }

  /** The call returns without an error: nothing needs committing, or the reply arrives. */
  predicate Succeeds(b: Book, a: Attempt) {
    !a.fate.QueryFailed? && (Choose(LastCommitted(b.commits), a.tip, a.gap).Sufficient? || a.fate.Accepted?)
  }

  /** Where the retry loop goes after its k-th attempt failed: as the vote loop does, except that
      no error counts as expected. */
  function AfterFailure(c: CommitCycle, k: nat, maxRetries: nat): RetryExit {
    CycleExit(Cycle(if c.unrecoverable then Unrecoverable else Transient, c.pause), k, maxRetries)
  }

  /** What a successful attempt means: something was committed, or what is committed reaches the gap
      beyond the tip. An accepted commitment whose reply arrives is always a success, and a failure
      leaves the chain as it was unless the reply was lost. */
  lemma SucceedsMeans(id: Identity, b: Book, a: Attempt)
    ensures var b' := Tried(id, b, a);
            && (Succeeds(b, a) ==> b'.commits != b.commits || LastCommitted(b.commits) >= a.tip + a.gap)
            && (a.fate.Accepted? ==> Succeeds(b, a))
            && (!Succeeds(b, a) && !a.fate.AcceptedReplyLost? ==> b'.commits == b.commits)
  {
  }

  /** What each way on after the k-th failure means. */
  lemma AfterFailureMeans(c: CommitCycle, k: nat, maxRetries: nat)
    requires 0 < k <= maxRetries + 1 < UINT32_RANGE
    ensures var exit := AfterFailure(c, k, maxRetries);
            var goesOn := !c.unrecoverable && k <= maxRetries;
            && !exit.Succeeded? && !exit.NotNeeded?
            && (exit.CriticalError? <==> !goesOn || c.pause.FinalityQueryFailed?)
            && (exit.AlreadyFinalized? <==> goesOn && c.pause == Elapsed(true))
            && (exit.ShutDown? <==> goesOn && c.pause.Quit?)
            && (exit.Retrying? <==> goesOn && c.pause == Elapsed(false))
  {
    assert k % UINT32_RANGE == k;
  }

  /** Attempts made one after the other from b, each of which failed and led to the next. */
  ghost predicate Unsuccessful(id: Identity, b: Book, made: seq<Attempt>, maxRetries: nat,
                               script: seq<CommitCycle>)
    decreases |made|
  {
    made == [] ||
    (var n := |made| - 1;
     && n < |script|
     && Unsuccessful(id, b, made[..n], maxRetries, script)
     && !Succeeds(TriedAll(id, b, made[..n]), made[n])
     && AfterFailure(script[n], n + 1, maxRetries).Retrying?)
  }

  lemma OneMoreFailure(id: Identity, b: Book, made: seq<Attempt>, maxRetries: nat,
                       script: seq<CommitCycle>, a: Attempt)
    requires Unsuccessful(id, b, made, maxRetries, script) && |made| < |script|
    requires !Succeeds(TriedAll(id, b, made), a)
    requires AfterFailure(script[|made|], |made| + 1, maxRetries).Retrying?
    ensures Unsuccessful(id, b, made + [a], maxRetries, script)
    ensures TriedAll(id, b, made + [a]) == Tried(id, TriedAll(id, b, made), a)
  {
    assert (made + [a])[..|made|] == made;
  }

  class Committer {
    const id: Identity
    const store: PubRandProofStore
    var commits: seq<Range>          // what the chain holds for this provider
    ghost var written: seq<Range>

    constructor (id: Identity, store: PubRandProofStore)
      ensures this.id == id && this.store == store && commits == [] && written == []
    {
      this.id := id;
      this.store := store;
      commits := [];
      written := [];
    }

    ghost function View(): Book
      reads this, store
    {
      Book(commits, written, store.db)
    }

    method CommitPubRand(a: Attempt) returns (ok: bool)
      modifies this`commits, this`written, store
      ensures View() == Tried(id, old(View()), a)
      ensures ok <==> Succeeds(old(View()), a)
      ensures ok ==> commits != old(commits) || LastCommitted(commits) >= a.tip + a.gap
      ensures a.fate.Accepted? ==> ok
      ensures !ok && !a.fate.AcceptedReplyLost? ==> commits == old(commits)
    {
      SucceedsMeans(id, View(), a);
      if a.fate.QueryFailed? {
        return false;
      }
      var last := LastCommitted(commits);
      var start;
      if last == 0 {
        start := a.tip + 1;
      } else if last < a.gap + a.tip {
        start := last + 1;
      } else {
        return true;
      }
      var list, found := CreateRandomnessPairList(id, !a.fate.NoKey?, start, a.num);
      if !found {
        return false;
      }
      var _ := store.AddPubRandProofList(list, Proofs(id, Range(start, a.num)));
      written := written + [Range(start, a.num)];
      if a.OnChain() {
        commits := commits + [Range(start, a.num)];
      }
      ok := a.fate.Accepted?;
    }

    /** retryCommitPubRandUntilBlockFinalized: attempts at one tip, until one succeeds, fails for
        good, or the pause in between ends the loop. All attempts but the last failed and led on. */
    method RetryCommit(tip: nat, num: nat, gap: nat, maxRetries: nat, script: seq<CommitCycle>)
      returns (exit: RetryExit, ghost made: seq<Attempt>, ghost last: Book)
      requires maxRetries < UINT32_RANGE && script != []
      modifies this`commits, this`written, store
      ensures 0 < |made| <= |script|
      ensures forall i :: 0 <= i < |made| ==> made[i] == Attempt(tip, num, gap, script[i].fate)
      ensures Unsuccessful(id, old(View()), made[..|made| - 1], maxRetries, script)
      ensures last == TriedAll(id, old(View()), made[..|made| - 1])
      ensures View() == Tried(id, last, made[|made| - 1])
      ensures exit == if Succeeds(last, made[|made| - 1]) then Succeeded
                      else AfterFailure(script[|made| - 1], |made|, maxRetries)
      ensures exit.Retrying? ==> |made| == |script|
    {
      ghost var b0 := View();
      ghost var before: seq<Attempt> := [];
      var n := 0;
      while true
        invariant n == |before| < |script|
        invariant forall i :: 0 <= i < n ==> before[i] == Attempt(tip, num, gap, script[i].fate)
        invariant View() == TriedAll(id, b0, before)
        invariant Unsuccessful(id, b0, before, maxRetries, script)
        decreases |script| - n
      {
        var a := Attempt(tip, num, gap, script[n].fate);
        last := View();
        var ok := CommitPubRand(a);
        made := before + [a];
        assert made[..n] == before;
        exit := if ok then Succeeded else AfterFailure(script[n], n + 1, maxRetries);
        n := n + 1;
        if !exit.Retrying? || n == |script| {
          return;
        }
        OneMoreFailure(id, b0, before, maxRetries, script, a);
        before := made;
      }
    }
  }

  /** What the exit of the retry loop says about its last attempt, made on the book last: success means
      that something was committed or enough was committed before; an accepted commitment whose reply
      arrives always ends the loop with success; any other exit left the chain as it was unless the
      reply was lost. */
  lemma CommitExitMeans(id: Identity, last: Book, a: Attempt, c: CommitCycle, n: nat, maxRetries: nat, exit: RetryExit)
    requires 0 < n <= maxRetries + 1 < UINT32_RANGE
    requires exit == if Succeeds(last, a) then Succeeded else AfterFailure(c, n, maxRetries)
    ensures var commits := Tried(id, last, a).commits;
            && !exit.NotNeeded?
            && (exit.Succeeded? ==> commits != last.commits || LastCommitted(last.commits) >= a.tip + a.gap)
            && (a.fate.Accepted? ==> exit.Succeeded?)
            && (!exit.Succeeded? && !a.fate.AcceptedReplyLost? ==> commits == last.commits)
            && (exit.CriticalError? ==> c.unrecoverable || n > maxRetries || c.pause.FinalityQueryFailed?)
  {
    SucceedsMeans(id, last, a);
    AfterFailureMeans(c, n, maxRetries);
  }

  /** With a retry limit below the uint32 maximum at most maxRetries attempts lead to another, so
      the loop makes at most maxRetries + 1. */
  lemma {:induction false} CommitRetryIsBounded(id: Identity, b: Book, made: seq<Attempt>, maxRetries: nat,
                                                script: seq<CommitCycle>)
    requires maxRetries < UINT32_RANGE - 1 && Unsuccessful(id, b, made, maxRetries, script)
    ensures |made| <= maxRetries
    decreases |made|
  {
    if made != [] {
      CommitRetryIsBounded(id, b, made[..|made| - 1], maxRetries, script);
    }
  }

  /** One turn of the commit retry loop. */
  datatype CommitCycle = CommitCycle(fate: Fate, unrecoverable: bool, pause: Pause)

  // ---------------------------------------------------------------------------------------
  // Runs

  function TriedAll(id: Identity, b: Book, attempts: seq<Attempt>): Book {
    if attempts == [] then b
    else Tried(id, TriedAll(id, b, attempts[..|attempts| - 1]), attempts[|attempts| - 1])
  }

  const EMPTY := Book([], [], map[])

  /** Every attempt of the run is admissible where it is made. */
  ghost predicate Admissible(id: Identity, attempts: seq<Attempt>) {
    attempts == [] ||
    (var front := attempts[..|attempts| - 1];
     Admissible(id, front) && attempts[|attempts| - 1].Admissible(LastCommitted(TriedAll(id, EMPTY, front).commits)))
  }

  // ---------------------------------------------------------------------------------------
  // Tiling

  /** Non-empty ranges, each starting right after the one before. */
  ghost predicate Tiles(commits: seq<Range>) {
    && (forall i :: 0 <= i < |commits| ==> commits[i].num >= 1 && commits[i].start >= 1)
    && (forall i :: 0 < i < |commits| ==> commits[i].start == commits[i - 1].start + commits[i - 1].num)
  }

  /** The first attempt that took effect. */
  function FirstOnChain(attempts: seq<Attempt>): (r: Lookup<Attempt>)
    ensures r.Found? ==> exists i :: 0 <= i < |attempts| && attempts[i] == r.value && r.value.OnChain()
                                     && forall j :: 0 <= j < i ==> !attempts[j].OnChain()
    ensures r.NotFound? ==> forall j :: 0 <= j < |attempts| ==> !attempts[j].OnChain()
  {
    if attempts == [] then NotFound
    else if attempts[0].OnChain() then Found(attempts[0])
    else
      var r := FirstOnChain(attempts[1..]);
      assert r.Found? ==> exists i :: 0 <= i < |attempts| && attempts[i] == r.value && r.value.OnChain()
                                      && forall j :: 0 <= j < i ==> !attempts[j].OnChain() by {
        if r.Found? {
          var i :| 0 <= i < |attempts[1..]| && attempts[1..][i] == r.value
                   && forall j :: 0 <= j < i ==> !attempts[1..][j].OnChain();
          assert attempts[i + 1] == r.value;
          assert forall j :: 0 < j < i + 1 ==> attempts[j] == attempts[1..][j - 1];
        }
      }
      r
  }

  lemma {:induction false} FirstOnChainSnoc(attempts: seq<Attempt>)
    requires attempts != []
    ensures var n := |attempts| - 1;
            FirstOnChain(attempts) == match FirstOnChain(attempts[..n])
                                      case Found(a) => Found(a)
                                      case NotFound => if attempts[n].OnChain() then Found(attempts[n]) else NotFound
  {
    var n := |attempts| - 1;
    if n > 0 && !attempts[0].OnChain() {
      FirstOnChainSnoc(attempts[1..]);
      assert attempts[1..][..n - 1] == attempts[..n][1..];
    }
  }

  /** Over any run of attempts with moving tips, lost replies and retries, the ranges on chain are
      adjacent; the first one starts one above the tip of the first attempt that took effect. */
  lemma {:induction false} CommitsTile(id: Identity, attempts: seq<Attempt>)
    requires Admissible(id, attempts)
    ensures var c := TriedAll(id, EMPTY, attempts).commits;
            && Tiles(c)
            && (c == [] <==> FirstOnChain(attempts).NotFound?)
            && (c != [] ==> c[0].start == FirstOnChain(attempts).value.tip + 1)
  {
    if attempts != [] {
      CommitsTile(id, attempts[..|attempts| - 1]);
      FirstOnChainSnoc(attempts);
      OneMoreTile(id, TriedAll(id, EMPTY, attempts[..|attempts| - 1]), attempts[|attempts| - 1]);
    }
  }

  /** An attempt adds at most one range: the one right after the last, or the first. */
  lemma OneMoreTile(id: Identity, b: Book, a: Attempt)
    requires Tiles(b.commits) && a.Admissible(LastCommitted(b.commits))
    ensures var c := Tried(id, b, a).commits;
            && Tiles(c)
            && b.commits <= c
            && (b.commits == [] ==> (c == [] <==> !a.OnChain()) && (a.OnChain() ==> c[0].start == a.tip + 1))
  {
  }

  /** Tiling ranges do not overlap: an earlier one ends before a later one starts. */
  lemma {:induction false} TilesAscend(commits: seq<Range>, i: nat, j: nat)
    requires Tiles(commits) && i < j < |commits|
    ensures commits[i].start + commits[i].num <= commits[j].start
    decreases j
  {
    if i + 1 < j {
      TilesAscend(commits, i, j - 1);
    }
  }

  /** Tiling ranges lie between the first start and the last committed height. */
  lemma TilesAreBounded(commits: seq<Range>, i: nat)
    requires Tiles(commits) && i < |commits|
    ensures commits[0].start <= commits[i].start && commits[i].start + commits[i].num <= LastCommitted(commits) + 1
  {
    if 0 < i {
      TilesAscend(commits, 0, i);
    }
    if i < |commits| - 1 {
      TilesAscend(commits, i, |commits| - 1);
    }
  }

  lemma {:induction false} TileOf(commits: seq<Range>, h: nat) returns (i: nat)
    requires Tiles(commits) && commits != [] && commits[0].start <= h <= LastCommitted(commits)
    ensures i < |commits| && commits[i].Covers(h)
  {
    var n := |commits| - 1;
    if commits[n].Covers(h) {
      i := n;
    } else {
      i := TileOf(commits[..n], h);
    }
  }

  /** Tiling ranges cover one interval, from the first start to the last committed height, and
      every height of it exactly once. */
  lemma TilesCoverOneInterval(commits: seq<Range>, h: nat)
    requires Tiles(commits) && commits != []
    ensures commits[0].start <= h <= LastCommitted(commits) <==> exists i :: 0 <= i < |commits| && commits[i].Covers(h)
    ensures forall i, j :: 0 <= i < j < |commits| && commits[i].Covers(h) ==> !commits[j].Covers(h)
  {
    forall i, j | 0 <= i < j < |commits| && commits[i].Covers(h) ensures !commits[j].Covers(h) {
      TilesAscend(commits, i, j);
    }
    if commits[0].start <= h <= LastCommitted(commits) {
      var i := TileOf(commits, h);
    }
    forall i | 0 <= i < |commits| && commits[i].Covers(h) ensures commits[0].start <= h <= LastCommitted(commits) {
      TilesAreBounded(commits, i);
    }
  }
}
