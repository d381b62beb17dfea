/**
 Which heights get a vote, how a range is cut into pages, and how batched voting relates to
 voting one block at a time.  The chain is fork-free, so voting power is a function of height.
 */
module Eligibility {
  import opened Arithmetic
  import opened Progress

  type Power = nat -> nat

  predicate IsEligible(power: Power, above: nat, h: nat) {
    above < h && power(h) > 0
  }

  /** The heights of [lo, hi) that are above the given height and carry voting power. */
  function Eligible(power: Power, above: nat, lo: nat, hi: nat): seq<nat>
    decreases hi
  {
    if hi <= lo then []
    else if IsEligible(power, above, hi - 1) then Eligible(power, above, lo, hi - 1) + [hi - 1]
    else Eligible(power, above, lo, hi - 1)
  }

  ghost predicate Ascending(s: seq<nat>) {
    forall i, j :: 0 <= i < j < |s| ==> s[i] < s[j]
  }

  /** Eligible lists exactly the eligible heights, once each and in ascending order. */
  lemma {:induction false} EligibleIsExact(power: Power, above: nat, lo: nat, hi: nat)
    ensures var e := Eligible(power, above, lo, hi);
            && Ascending(e)
            && (forall h :: h in e <==> lo <= h < hi && IsEligible(power, above, h))
    decreases hi
  {
    if lo < hi {
      EligibleIsExact(power, above, lo, hi - 1);
      var e0 := Eligible(power, above, lo, hi - 1);
      assert forall i :: 0 <= i < |e0| ==> e0[i] in e0;
    }
  }

  lemma {:induction false} EligibleSplit(power: Power, above: nat, lo: nat, mid: nat, hi: nat)
    requires lo <= mid <= hi
    ensures Eligible(power, above, lo, hi) == Eligible(power, above, lo, mid) + Eligible(power, above, mid, hi)
    decreases hi
  {
    if mid < hi {
      EligibleSplit(power, above, lo, mid, hi - 1);
    }
  }

  /** Raising the threshold below the range changes nothing. */
  lemma {:induction false} EligibleSameAbove(power: Power, a: nat, b: nat, lo: nat, hi: nat)
    requires a < lo && b < lo
    ensures Eligible(power, a, lo, hi) == Eligible(power, b, lo, hi)
    decreases hi
  {
    if lo < hi {
      EligibleSameAbove(power, a, b, lo, hi - 1);
    }
  }

  lemma {:induction false} PowerlessRange(power: Power, above: nat, lo: nat, hi: nat)
    requires forall h :: lo <= h < hi ==> power(h) == 0
    ensures Eligible(power, above, lo, hi) == []
    decreases hi
  {
    if lo < hi {
      PowerlessRange(power, above, lo, hi - 1);
    }
  }

  /** Last element, or 0 (the zero value of syncedHeight) when there is none. */
  function LastOrZero(s: seq<nat>): nat {
    if s == [] then 0 else s[|s| - 1]
  }

  /** Start of a fast sync: one above the higher of last finalized and last processed. */
  function SyncStart(finalized: nat, processed: nat): (start: nat)
    ensures start == Max(finalized, processed) + 1
  {
    if finalized < processed then processed + 1 else finalized + 1
  }

  // ---------------------------------------------------------------------------------------
  // Pages

  /** First height after the page QueryBlocks returns: count is the range size capped by limit. */
  function PageEnd(start: nat, end: nat, limit: nat): nat
    requires start <= end
  {
    var count := end - start + 1;
    if count > limit then start + limit else start + count
  }

  /** Number of page queries needed to walk [start, end]. */
  function Pages(start: nat, end: nat, limit: nat): nat
    requires limit >= 1
    decreases end + 1 - start
  {
    if start > end then 0 else 1 + Pages(PageEnd(start, end, limit), end, limit)
  }

  /** Start of page k, and end + 1 once the range is exhausted. */
  function PageStart(start: nat, end: nat, limit: nat, k: nat): nat
    requires start <= end + 1
    ensures start <= PageStart(start, end, limit, k) <= end + 1
  {
    if k == 0 then start
    else
      var s := PageStart(start, end, limit, k - 1);
      if s > end then s else PageEnd(s, end, limit)
  }

  lemma {:induction false} PageStartClosedForm(start: nat, end: nat, limit: nat, k: nat)
    requires start <= end + 1
    ensures PageStart(start, end, limit, k) == if start + k * limit <= end + 1 then start + k * limit else end + 1
  {
    if k > 0 {
      PageStartClosedForm(start, end, limit, k - 1);
      assert k * limit == (k - 1) * limit + limit;
    }
  }

  /** The number of page queries is the range size divided by the limit, rounded up. */
  lemma {:induction false} PagesIsCeiling(start: nat, end: nat, limit: nat)
    requires limit >= 1 && start <= end + 1
    ensures var n := Pages(start, end, limit);
            (n - 1) * limit < end + 1 - start <= n * limit || (n == 0 && start == end + 1)
    ensures Pages(start, end, limit) == CeilDiv(end + 1 - start, limit)
    decreases end + 1 - start
  {
    if start <= end {
      var next := PageEnd(start, end, limit);
      PagesIsCeiling(next, end, limit);
      var n := Pages(next, end, limit);
      assert Pages(start, end, limit) == n + 1;
      assert (n + 1) * limit == n * limit + limit;
      if n > 0 {
        assert (n - 1) * limit == n * limit - limit;
      } else {
        assert n * limit == 0;
      }
      CeilDivUnique(end + 1 - start, limit, n + 1);
    } else {
      CeilDivUnique(0, limit, 0);
    }
  }

  // ---------------------------------------------------------------------------------------
  // Batched voting against one block at a time

  datatype Ledger = Ledger(copies: Copies, votes: seq<nat>)

  /** Acknowledged votes for the given ascending heights, recorded at the highest of them. */
  function RecordVotes(l: Ledger, heights: seq<nat>): Ledger {
    if heights == [] then l
    else Ledger(Put(l.copies, MarkVoted(heights[|heights| - 1])), l.votes + heights)
  }

  /** One iteration of the submission loop on a polled block, when nothing fails. */
  function LoopBody(power: Power, l: Ledger, h: nat): Ledger {
    if h <= l.copies.mem.processed then l
    else if power(h) == 0 then l.(copies := Put(l.copies, MarkProcessed(h)))
    else RecordVotes(l, [h])
  }

  function LoopOver(power: Power, l: Ledger, lo: nat, hi: nat): Ledger
    decreases hi
  {
    if hi <= lo then l else LoopBody(power, LoopOver(power, l, lo, hi - 1), hi - 1)
  }

  /** A completed fast sync over [lo, hi). */
  function SyncOver(power: Power, l: Ledger, lo: nat, hi: nat): Ledger {
    var e := Eligible(power, l.copies.mem.processed, lo, hi);
    var l1 := RecordVotes(l, e);
    l1.(copies := Put(l1.copies, MarkProcessed(LastOrZero(e))))
  }

  /** Ledger l after the loop has voted on e and reached the height top. */
  function LoopedTo(l: Ledger, e: seq<nat>, top: nat): Ledger {
    var m, d := l.copies.mem, l.copies.disk;
    Ledger(Copies(Heights(if e == [] then m.voted else LastOrZero(e), Max(m.processed, top)),
                  Heights(Max(d.voted, LastOrZero(e)),
                          if m.processed < top then Max(d.processed, top) else d.processed)),
           l.votes + e)
  }

  lemma LoopBodyForm(power: Power, l: Ledger, e: seq<nat>, top: nat)
    requires e != [] ==> LastOrZero(e) <= top
    ensures var p, h := l.copies.mem.processed, top + 1;
            LoopBody(power, LoopedTo(l, e, top), h) == LoopedTo(l, if IsEligible(power, p, h) then e + [h] else e, h)
  {
    assert l.votes + e + [top + 1] == l.votes + (e + [top + 1]);
  }

  /** What the block-by-block loop leaves in memory and in the store, from any ledger: the eligible
      heights are voted, the memory ends at the range's last height, and the store is raised to it
      unless the whole range was processed before. */
  lemma {:induction false} LoopOverShape(power: Power, l: Ledger, lo: nat, hi: nat)
    requires lo < hi
    ensures LoopOver(power, l, lo, hi) == LoopedTo(l, Eligible(power, l.copies.mem.processed, lo, hi), hi - 1)
    decreases hi
  {
    var p := l.copies.mem.processed;
    if lo + 1 < hi {
      var e := Eligible(power, p, lo, hi - 1);
      LoopOverShape(power, l, lo, hi - 1);
      EligibleIsExact(power, p, lo, hi - 1);
      assert e != [] ==> e[|e| - 1] in e;
      LoopBodyForm(power, l, e, hi - 2);
    } else {
      assert LoopOver(power, l, lo, lo) == l && Eligible(power, p, lo, lo) == [];
    }
  }

  /** From any ledger, whether or not memory and store agree: fast sync over a range casts the same
      votes as the one-block-at-a-time loop over the same blocks, ends with the same last voted
      heights in memory and in the store, and differs only in the last processed height: the loop
      reaches the end of the range, the sync stops at its last vote, or falls to 0 in memory when it
      casts none. */
  lemma SyncRefinesLoop(power: Power, l: Ledger, lo: nat, hi: nat)
    requires lo < hi
    ensures var loop := LoopOver(power, l, lo, hi);
            var sync := SyncOver(power, l, lo, hi);
            var e := Eligible(power, l.copies.mem.processed, lo, hi);
            && sync.votes == loop.votes
            && sync.copies.mem.voted == loop.copies.mem.voted
            && sync.copies.disk.voted == loop.copies.disk.voted
            && loop.copies.mem.processed == Max(l.copies.mem.processed, hi - 1)
            && sync.copies.mem.processed == LastOrZero(e)
            && sync.copies.disk.processed == Max(l.copies.disk.processed, LastOrZero(e))
            && (sync == loop <==> LastOrZero(e) == Max(l.copies.mem.processed, hi - 1))
  {
    LoopOverShape(power, l, lo, hi);
    EligibleIsExact(power, l.copies.mem.processed, lo, hi);
    var e := Eligible(power, l.copies.mem.processed, lo, hi);
    if e != [] {
      assert e[|e| - 1] in e;
    }
  }
}
