/**
 How many commitments a fixed tip asks for, and the 64-bit arithmetic behind the choice.
 */
module CommitRounds {
  import opened Arithmetic
  import opened Encoding
  import opened Randomness
  import opened Commitments

  /** Successful commitments made at one tip until the randomness suffices. */
  function Rounds(last: nat, tip: nat, gap: nat, num: nat): nat
    requires num >= 1
    decreases if last == 0 then 1 else 0, if last < tip + gap then tip + gap - last else 0
  {
    match Choose(last, tip, gap)
    case Sufficient => 0
    case CommitFrom(start) => 1 + Rounds(start + num - 1, tip, gap, num)
  }

  lemma CeilDivStep(x: nat, n: nat)
    requires n >= 1 && x >= 1
    ensures CeilDiv(x, n) == 1 + CeilDiv(if x < n then 0 else x - n, n)
  {
    var rest := if x < n then 0 else x - n;
    var k := CeilDiv(rest, n);
    CeilDivBounds(rest, n);
    assert (k + 1) * n == k * n + n && (k - 1) * n == k * n - n;
    if rest == 0 {
      CeilDivUnique(0, n, 0);
    }
    CeilDivUnique(x, n, k + 1);
  }

  /** With something committed, the number of rounds is the missing distance divided by the list
      size, rounded up. */
  lemma {:induction false} RoundsFromHistory(last: nat, tip: nat, gap: nat, num: nat)
    requires num >= 1 && last >= 1
    ensures Rounds(last, tip, gap, num) == CeilDiv(if last < tip + gap then tip + gap - last else 0, num)
    decreases if last < tip + gap then tip + gap - last else 0
  {
    if last < tip + gap {
      RoundsFromHistory(last + num, tip, gap, num);
      CeilDivStep(tip + gap - last, num);
    } else {
      CeilDivUnique(0, num, 0);
    }
  }

  /** With nothing committed, at least one round is made, and enough to cover the gap. */
  lemma RoundsFromNothing(tip: nat, gap: nat, num: nat)
    requires num >= 1
    ensures Rounds(0, tip, gap, num) == if CeilDiv(gap, num) < 1 then 1 else CeilDiv(gap, num)
  {
    RoundsFromHistory(tip + num, tip, gap, num);
    if gap >= 1 {
      CeilDivStep(gap, num);
    } else {
      CeilDivUnique(0, num, 0);
    }
  }

  function Repeat(a: Attempt, k: nat): seq<Attempt> {
    seq(k, _ => a)
  }

  /** One acknowledged attempt takes one round, or changes nothing when none is left. */
  lemma OneRound(id: Identity, b: Book, a: Attempt)
    requires a.num >= 1 && a.fate.Accepted? && Tiles(b.commits)
    ensures var r := Rounds(LastCommitted(b.commits), a.tip, a.gap, a.num);
            var b' := Tried(id, b, a);
            && Tiles(b'.commits)
            && Rounds(LastCommitted(b'.commits), a.tip, a.gap, a.num) == (if r > 0 then r - 1 else 0)
            && |b'.commits| == |b.commits| + (if r > 0 then 1 else 0)
  {
  }

  /** Acknowledged attempts at a fixed tip commit exactly Rounds times and then never again, and
      what they leave suffices for that tip. */
  lemma {:induction false} CommitsStopAfterRounds(id: Identity, b: Book, a: Attempt, k: nat)
    requires a.num >= 1 && a.fate.Accepted? && Tiles(b.commits)
    ensures var r := Rounds(LastCommitted(b.commits), a.tip, a.gap, a.num);
            var b' := TriedAll(id, b, Repeat(a, k));
            && Tiles(b'.commits)
            && Rounds(LastCommitted(b'.commits), a.tip, a.gap, a.num) == (if k <= r then r - k else 0)
            && |b'.commits| == |b.commits| + (if k <= r then k else r)
            && (k >= r ==> Choose(LastCommitted(b'.commits), a.tip, a.gap).Sufficient?)
  {
    if k > 0 {
      CommitsStopAfterRounds(id, b, a, k - 1);
      assert Repeat(a, k)[..k - 1] == Repeat(a, k - 1);
      OneRound(id, TriedAll(id, b, Repeat(a, k - 1)), a);
    }
  }

  /** Once the randomness suffices for a tip, no attempt at that tip or below changes anything. */
  lemma SufficientStaysSufficient(id: Identity, b: Book, tip: nat, a: Attempt)
    requires Choose(LastCommitted(b.commits), tip, a.gap).Sufficient? && a.tip <= tip
    ensures Tried(id, b, a) == b
  {
  }

  // ---------------------------------------------------------------------------------------
  // uint64 arithmetic

  function Add64(x: nat, y: nat): nat {
    (x + y) % UINT64_RANGE
  }

  /** The choice as the code computes it, with every sum taken modulo 2^64. */
  function Choose64(last: nat, tip: nat, gap: nat): Choice {
    if last == 0 then CommitFrom(Add64(tip, 1))
    else if last < Add64(gap, tip) then CommitFrom(Add64(last, 1))
    else Sufficient
  }

  /** No sum wraps for an admissible attempt: choice and new last committed height are the
      mathematical ones. */
  lemma AdmissibleDoesNotWrap(last: nat, a: Attempt)
    requires a.Admissible(last) && a.num >= 1
    ensures Choose64(last, a.tip, a.gap) == Choose(last, a.tip, a.gap)
    ensures Choose(last, a.tip, a.gap).CommitFrom? ==>
              var s := Choose(last, a.tip, a.gap).start;
              s + a.num <= UINT64_RANGE && Add64(Add64(s, a.num), UINT64_RANGE - 1) == s + a.num - 1
  {
  }

  /** The gap comparison wraps exactly when the sum leaves 64 bits, and then a provider whose
      randomness is short is told it has enough. */
  lemma WrappedGapLooksSufficient(last: nat, tip: nat, gap: nat)
    requires 0 < last < UINT64_RANGE && tip < UINT64_RANGE && gap < UINT64_RANGE
    ensures Choose64(last, tip, gap).Sufficient? && Choose(last, tip, gap).CommitFrom?
            <==> gap + tip >= UINT64_RANGE && gap + tip - UINT64_RANGE <= last
  {
  }
}
