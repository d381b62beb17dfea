/**
 Which proof the store holds for a committed height, and when it matches the commitment on chain.
 */
module StoredProofs {
  import opened Encoding
  import opened Randomness
  import opened Commitments

  /** The first of the ranges that covers h. */
  function FirstCovering(ranges: seq<Range>, h: nat): Lookup<Range> {
    if ranges == [] then NotFound
    else match FirstCovering(ranges[..|ranges| - 1], h)
      case Found(r) => Found(r)
      case NotFound =>
        var r := ranges[|ranges| - 1];
        if r.Covers(h) then Found(r) else NotFound
  }

  lemma {:induction false} FirstCoveringIsFirst(ranges: seq<Range>, h: nat)
    ensures match FirstCovering(ranges, h)
            case Found(r) =>
              && r.Covers(h)
              && (exists i :: 0 <= i < |ranges| && ranges[i] == r && forall j :: 0 <= j < i ==> !ranges[j].Covers(h))
            case NotFound => forall j :: 0 <= j < |ranges| ==> !ranges[j].Covers(h)
  {
    if ranges != [] {
      var n := |ranges| - 1;
      FirstCoveringIsFirst(ranges[..n], h);
      if FirstCovering(ranges[..n], h).Found? {
        var r := FirstCovering(ranges[..n], h).value;
        var i :| 0 <= i < n && ranges[..n][i] == r && forall j :: 0 <= j < i ==> !ranges[..n][j].Covers(h);
        assert ranges[i] == r;
        assert forall j :: 0 <= j < i ==> ranges[j] == ranges[..n][j];
      } else {
        assert forall j :: 0 <= j < n ==> ranges[j] == ranges[..n][j];
      }
    }
  }

  /** Storing a range adds proofs for its heights that had none, and changes nothing else. */
  lemma StoredLookup(id: Identity, m: map<PubRand, Proof>, r: Range, h: nat)
    requires h < UINT64_RANGE && r.start + r.num <= UINT64_RANGE
    ensures var m' := Stored(id, m, r);
            var k := PubAt(id, h);
            && (k in m' <==> k in m || r.Covers(h))
            && (k in m ==> m'[k] == m[k])
            && (k !in m && r.Covers(h) ==> m'[k] == ProofAt(id, r.start, r.num, h))
  {
    var keys, proofs := PubList(id, r.start, r.num), Proofs(id, r);
    KeysOfRange(id, r, h);
    AddAllLookup(m, keys, proofs, PubAt(id, h));
    if r.Covers(h) {
      assert keys[h - r.start] == PubAt(id, h);
      assert proofs[h - r.start] == ProofAt(id, r.start, r.num, h);
    }
  }

  /** What one attempt leaves behind.  If the queries and the key fail it, or nothing needs committing,
      nothing changes.  Otherwise every height of the chosen range has a stored proof, whether or not
      the commitment is signed, sent or accepted, and the range is on chain exactly if it was accepted. */
  lemma AttemptWrites(id: Identity, b: Book, a: Attempt, h: nat)
    requires a.Admissible(LastCommitted(b.commits)) && h < UINT64_RANGE
    ensures var last := LastCommitted(b.commits);
            var start := if last == 0 then a.tip + 1 else last + 1;
            var b' := Tried(id, b, a);
            if a.fate.QueryFailed? || (a.fate.NoKey? && a.num > 0) || (last > 0 && last >= a.tip + a.gap) then b' == b
            else
              && b'.commits == b.commits +
                 (if a.fate.Accepted? || a.fate.AcceptedReplyLost? then [Range(start, a.num)] else [])
              && b'.written == b.written + [Range(start, a.num)]
              && (PubAt(id, h) in b'.proofs <==> PubAt(id, h) in b.proofs || start <= h < start + a.num)
              && (PubAt(id, h) in b.proofs ==> b'.proofs[PubAt(id, h)] == b.proofs[PubAt(id, h)])
  {
    var last := LastCommitted(b.commits);
    var start := if last == 0 then a.tip + 1 else last + 1;
    if !(last > 0 && last >= a.tip + a.gap) {
      StoredLookup(id, b.proofs, Range(start, a.num), h);
    }
  }

  /** The keys of a range are distinct, and the key of h is among them when h is in the range. */
  lemma KeysOfRange(id: Identity, r: Range, h: nat)
    requires h < UINT64_RANGE && r.start + r.num <= UINT64_RANGE
    ensures var keys := PubList(id, r.start, r.num);
            && (forall i, j :: 0 <= i < j < |keys| ==> keys[i] != keys[j])
            && (PubAt(id, h) in keys <==> r.Covers(h))
            && (r.Covers(h) ==> keys[h - r.start] == PubAt(id, h))
  {
    var keys := PubList(id, r.start, r.num);
    forall i, j | 0 <= i < j < |keys| ensures keys[i] != keys[j] {
      PubAtIsInjective(id, r.start + i, id, r.start + j);
    }
    if r.Covers(h) {
      assert keys[h - r.start] == PubAt(id, r.start + (h - r.start));
    }
    if PubAt(id, h) in keys {
      var i :| 0 <= i < |keys| && keys[i] == PubAt(id, h);
      PubAtIsInjective(id, r.start + i, id, h);
    }
  }

  ghost predicate WrittenFits(b: Book) {
    forall i :: 0 <= i < |b.written| ==> b.written[i].start + b.written[i].num <= UINT64_RANGE
  }

  /** The stored proof of h is the one of the first written range that covers h. */
  ghost predicate StoredFirst(id: Identity, b: Book, h: nat) {
    match FirstCovering(b.written, h)
    case Found(r) => r.Covers(h) && PubAt(id, h) in b.proofs && b.proofs[PubAt(id, h)] == ProofAt(id, r.start, r.num, h)
    case NotFound => PubAt(id, h) !in b.proofs
  }

  lemma {:induction false} WrittenAlwaysFits(id: Identity, attempts: seq<Attempt>)
    requires Admissible(id, attempts)
    ensures WrittenFits(TriedAll(id, EMPTY, attempts))
  {
    if attempts != [] {
      WrittenAlwaysFits(id, attempts[..|attempts| - 1]);
    }
  }

  /** Over every run, the stored proof of a height is the one of the first range that was handed
      to the store and covers the height. */
  lemma {:induction false} StoredProofIsFirstWritten(id: Identity, attempts: seq<Attempt>, h: nat)
    requires Admissible(id, attempts) && h < UINT64_RANGE
    ensures StoredFirst(id, TriedAll(id, EMPTY, attempts), h)
  {
    if attempts != [] {
      var n := |attempts| - 1;
      StoredProofIsFirstWritten(id, attempts[..n], h);
      WriteOne(id, TriedAll(id, EMPTY, attempts[..n]), attempts[n], h);
    }
  }

  lemma WriteOne(id: Identity, b: Book, a: Attempt, h: nat)
    requires h < UINT64_RANGE && a.Admissible(LastCommitted(b.commits))
    requires StoredFirst(id, b, h)
    ensures StoredFirst(id, Tried(id, b, a), h)
  {
    var b' := Tried(id, b, a);
    if b'.written != b.written {
      var r := b'.written[|b.written|];
      assert b'.written[..|b.written|] == b.written;
      StoredLookup(id, b.proofs, r, h);
    }
  }

  lemma {:induction false} CommitsAreWritten(id: Identity, attempts: seq<Attempt>, c: Range)
    requires c in TriedAll(id, EMPTY, attempts).commits
    ensures c in TriedAll(id, EMPTY, attempts).written
  {
    if attempts != [] {
      var front := attempts[..|attempts| - 1];
      if c in TriedAll(id, EMPTY, front).commits {
        CommitsAreWritten(id, front, c);
      }
    }
  }

  /** The store holds a proof for h that the chain accepts against the commitment over c. */
  ghost predicate Matched(id: Identity, b: Book, c: Range, h: nat)
    requires c.Covers(h)
  {
    && PubAt(id, h) in b.proofs
    && Verifies(Root(PubList(id, c.start, c.num)), PubAt(id, h), h - c.start, b.proofs[PubAt(id, h)])
  }

  /** A proof taken from the list over r verifies against the root of the list over c exactly when
      the two ranges are the same. */
  lemma VerifiesIffSameRange(id: Identity, r: Range, c: Range, h: nat)
    requires r.Covers(h) && c.Covers(h)
    requires r.start + r.num <= UINT64_RANGE && c.start + c.num <= UINT64_RANGE
    ensures Verifies(Root(PubList(id, c.start, c.num)), PubAt(id, h), h - c.start, ProofAt(id, r.start, r.num, h))
            <==> r == c
  {
    PubListIsInjective(id, r.start, r.num, c.start, c.num);
    CommittedEntry(id, c.start, c.num, h);
  }

  /** Over every run of failed, accepted and unacknowledged attempts: every committed height has a
      stored proof, and the proof verifies against the commitment on chain if and only if no
      attempt with a different range stored that height first. */
  lemma ProofMatchesIff(id: Identity, attempts: seq<Attempt>, c: Range, h: nat)
    requires Admissible(id, attempts)
    requires c in TriedAll(id, EMPTY, attempts).commits && c.Covers(h)
    ensures PubAt(id, h) in TriedAll(id, EMPTY, attempts).proofs
    ensures Matched(id, TriedAll(id, EMPTY, attempts), c, h)
            <==> FirstCovering(TriedAll(id, EMPTY, attempts).written, h) == Found(c)
  {
    CommitsAreWritten(id, attempts, c);
    WrittenAlwaysFits(id, attempts);
    assert h < UINT64_RANGE;
    StoredProofIsFirstWritten(id, attempts, h);
    MatchedIffFirst(id, TriedAll(id, EMPTY, attempts), c, h);
  }

  lemma MatchedIffFirst(id: Identity, b: Book, c: Range, h: nat)
    requires WrittenFits(b) && StoredFirst(id, b, h) && c in b.written && c.Covers(h)
    ensures PubAt(id, h) in b.proofs
    ensures Matched(id, b, c, h) <==> FirstCovering(b.written, h) == Found(c)
  {
    FirstCoveringIsFirst(b.written, h);
    var r := FirstCovering(b.written, h).value;
    assert r in b.written;
    VerifiesIffSameRange(id, r, c, h);
  }

  // ---------------------------------------------------------------------------------------
  // Fixed list size, tips that do not go back

  ghost predicate SteadyRun(attempts: seq<Attempt>, num: nat) {
    && (forall i :: 0 <= i < |attempts| ==> attempts[i].num == num)
    && (forall i, j :: 0 <= i < j < |attempts| ==> attempts[i].tip <= attempts[j].tip)
  }

  /** Ranges of one size, written in ascending order; once something is on chain, a written range
      starts no later than the first one on chain, is on chain, or is the next one due. */
  ghost predicate Steady(commits: seq<Range>, written: seq<Range>, num: nat, tip: nat) {
    && (forall i :: 0 <= i < |written| ==> written[i].num == num)
    && (forall i, j :: 0 <= i < j < |written| ==> written[i].start <= written[j].start)
    && (commits == [] ==> forall i :: 0 <= i < |written| ==> written[i].start <= tip + 1)
    && (commits != [] ==>
          forall i :: 0 <= i < |written| ==>
            || written[i].start <= commits[0].start
            || written[i] in commits
            || written[i].start == LastCommitted(commits) + 1)
  }

  /** The range an attempt adds starts at or above every range written before. */
  lemma StartsDoNotGoBack(commits: seq<Range>, written: seq<Range>, num: nat, tip: nat, a: Attempt, i: nat)
    requires Steady(commits, written, num, tip) && tip <= a.tip && Tiles(commits) && i < |written|
    requires Choose(LastCommitted(commits), a.tip, a.gap).CommitFrom?
    ensures written[i].start <= Choose(LastCommitted(commits), a.tip, a.gap).start
  {
    if commits != [] {
      TilesAreBounded(commits, 0);
      if written[i] in commits {
        var k :| 0 <= k < |commits| && commits[k] == written[i];
        TilesAreBounded(commits, k);
      }
    }
  }

  lemma SteadyGrows(commits: seq<Range>, written: seq<Range>, tip: nat, a: Attempt)
    requires Steady(commits, written, a.num, tip) && tip <= a.tip && Tiles(commits)
    requires a.OnChain() ==> a.num >= 1
    requires Choose(LastCommitted(commits), a.tip, a.gap).CommitFrom?
    ensures var r := Range(Choose(LastCommitted(commits), a.tip, a.gap).start, a.num);
            Steady(if a.OnChain() then commits + [r] else commits, written + [r], a.num, a.tip)
  {
    forall i | 0 <= i < |written|
      ensures written[i].start <= Choose(LastCommitted(commits), a.tip, a.gap).start
    {
      StartsDoNotGoBack(commits, written, a.num, tip, a, i);
    }
  }

  lemma SteadyStep(id: Identity, b: Book, a: Attempt, tip: nat)
    requires Steady(b.commits, b.written, a.num, tip) && tip <= a.tip && Tiles(b.commits)
    requires a.OnChain() ==> a.num >= 1
    ensures Steady(Tried(id, b, a).commits, Tried(id, b, a).written, a.num, a.tip)
  {
    if Choose(LastCommitted(b.commits), a.tip, a.gap).CommitFrom? {
      SteadyGrows(b.commits, b.written, tip, a);
    }
  }

  lemma {:induction false} SteadyRuns(id: Identity, attempts: seq<Attempt>, num: nat)
    requires Admissible(id, attempts) && SteadyRun(attempts, num)
    ensures var b := TriedAll(id, EMPTY, attempts);
            Steady(b.commits, b.written, num, if attempts == [] then 0 else attempts[|attempts| - 1].tip)
  {
    if attempts != [] {
      var n := |attempts| - 1;
      var b, a := TriedAll(id, EMPTY, attempts[..n]), attempts[n];
      SteadyRuns(id, attempts[..n], num);
      CommitsTile(id, attempts[..n]);
      SteadyStep(id, b, a, if n == 0 then 0 else attempts[n - 1].tip);
    }
  }

  /** Among ascending ranges of one size, c is the first to cover h exactly when every range that
      starts earlier ends at or before h. */
  lemma FirstCoveringSorted(ranges: seq<Range>, num: nat, c: Range, h: nat)
    requires forall i :: 0 <= i < |ranges| ==> ranges[i].num == num
    requires forall i, j :: 0 <= i < j < |ranges| ==> ranges[i].start <= ranges[j].start
    requires c in ranges && c.Covers(h)
    ensures FirstCovering(ranges, h) == Found(c)
            <==> forall r :: r in ranges && r.start < c.start ==> r.start + num <= h
  {
    FirstCoveringIsFirst(ranges, h);
    var k :| 0 <= k < |ranges| && ranges[k] == c;
    var f := FirstCovering(ranges, h).value;
    var i :| 0 <= i < |ranges| && ranges[i] == f && forall j :: 0 <= j < i ==> !ranges[j].Covers(h);
    assert i <= k;
    if f != c {
      assert f in ranges && f.start < c.start;
    } else {
      forall r | r in ranges && r.start < c.start ensures r.start + num <= h {
        var j :| 0 <= j < |ranges| && ranges[j] == r;
        assert j < i;
      }
    }
  }

  /** With one list size and tips that do not go back, the proof of a committed height matches if
      and only if every range stored with an earlier start ends at or before that height. */
  lemma SteadyMatchesIff(id: Identity, attempts: seq<Attempt>, num: nat, c: Range, h: nat)
    requires Admissible(id, attempts) && SteadyRun(attempts, num)
    requires c in TriedAll(id, EMPTY, attempts).commits && c.Covers(h)
    ensures Matched(id, TriedAll(id, EMPTY, attempts), c, h)
            <==> forall r :: r in TriedAll(id, EMPTY, attempts).written && r.start < c.start ==> r.start + num <= h
  {
    ProofMatchesIff(id, attempts, c, h);
    SteadyRuns(id, attempts, num);
    CommitsAreWritten(id, attempts, c);
    FirstCoveringSorted(TriedAll(id, EMPTY, attempts).written, num, c, h);
  }

  /** With one list size and tips that do not go back, every commitment after the first one on
      chain is matched at every height. */
  lemma LaterCommitmentsAlwaysMatch(id: Identity, attempts: seq<Attempt>, num: nat, k: nat, h: nat)
    requires Admissible(id, attempts) && SteadyRun(attempts, num)
    requires 0 < k < |TriedAll(id, EMPTY, attempts).commits| && TriedAll(id, EMPTY, attempts).commits[k].Covers(h)
    ensures Matched(id, TriedAll(id, EMPTY, attempts), TriedAll(id, EMPTY, attempts).commits[k], h)
  {
    var b := TriedAll(id, EMPTY, attempts);
    SteadyRuns(id, attempts, num);
    CommitsTile(id, attempts);
    CommitsAreWritten(id, attempts, b.commits[0]);
    CommitsAreWritten(id, attempts, b.commits[k]);
    var tip := if attempts == [] then 0 else attempts[|attempts| - 1].tip;
    EarlierRangesEndBefore(b.commits, b.written, num, tip, k);
    SteadyMatchesIff(id, attempts, num, b.commits[k], h);
  }

  lemma EarlierRangesEndBefore(commits: seq<Range>, written: seq<Range>, num: nat, tip: nat, k: nat)
    requires Tiles(commits) && 0 < k < |commits| && commits[0] in written
    requires Steady(commits, written, num, tip)
    ensures forall r :: r in written && r.start < commits[k].start ==> r.start + num <= commits[k].start
  {
    forall r | r in written && r.start < commits[k].start ensures r.start + num <= commits[k].start {
      EarlierRangeEndsBefore(commits, written, num, tip, r, k);
    }
  }

  lemma EarlierRangeEndsBefore(commits: seq<Range>, written: seq<Range>, num: nat, tip: nat, r: Range, k: nat)
    requires Tiles(commits) && 0 < k < |commits| && r in written && r.start < commits[k].start
    requires Steady(commits, written, num, tip) && commits[0].num == num
    ensures r.start + num <= commits[k].start
  {
    var i :| 0 <= i < |written| && written[i] == r;
    TilesAscend(commits, 0, k);
    if r in commits {
      var j :| 0 <= j < |commits| && commits[j] == r;
      if j < k {
        TilesAscend(commits, j, k);
      } else if k < j {
        TilesAscend(commits, k, j);
      }
    } else {
      TilesAreBounded(commits, k);
    }
  }

  /** A rejected attempt at tip 10 followed by an accepted one at tip 11. */
  function StaleAttempts(): seq<Attempt> {
    [Attempt(10, 5, 1, Rejected), Attempt(11, 5, 1, Accepted)]
  }

  lemma StaleRun(id: Identity)
    ensures var b := TriedAll(id, EMPTY, StaleAttempts());
            Admissible(id, StaleAttempts()) && b.commits == [Range(12, 5)] && b.written == [Range(11, 5), Range(12, 5)]
  {
    var a0, a1 := Attempt(10, 5, 1, Rejected), Attempt(11, 5, 1, Accepted);
    var attempts := StaleAttempts();
    assert attempts[..1] == [a0] && [a0][..0] == [];
    var b1 := TriedAll(id, EMPTY, [a0]);
    assert b1 == Tried(id, TriedAll(id, EMPTY, []), a0);
    assert Choose(LastCommitted(EMPTY.commits), 10, 1) == CommitFrom(11);
    assert b1.commits == [] && b1.written == [Range(11, 5)];
    assert TriedAll(id, EMPTY, attempts) == Tried(id, b1, a1);
    assert Admissible(id, [a0]);
  }

  /** A first attempt that fails at an older tip leaves older proofs in place: with lists of five,
      a failure at tip 10 and an acceptance at tip 11, only height 16 of 12..16 matches. */
  lemma StaleFirstCommit(id: Identity, h: nat)
    requires 12 <= h <= 16
    ensures var b := TriedAll(id, EMPTY, StaleAttempts());
            && Admissible(id, StaleAttempts())
            && b.commits == [Range(12, 5)]
            && (Matched(id, b, Range(12, 5), h) <==> h == 16)
  {
    StaleRun(id);
    SteadyMatchesIff(id, StaleAttempts(), 5, Range(12, 5), h);
    assert Range(11, 5) in TriedAll(id, EMPTY, StaleAttempts()).written;
  }
}
