/**
 Votes cut short by a shutdown: exactly when the stored progress passes one of them by.
 */
module Shutdown {
  import opened Progress
  import opened Eligibility
  import opened Engine
  import opened Coverage

  /** Every height at or below the stored progress is settled, without the excuse of a shutdown. */
  ghost predicate Kept(w: World, s: State) {
    forall h :: Origin(w) <= h <= s.ledger.copies.disk.processed ==> Settled(w, s, h)
  }

  /** A height whose vote was cut short and that nothing has settled since. */
  predicate Owed(w: World, s: State, h: nat) {
    h in s.abandoned && !Settled(w, s, h)
  }

  /** The step records a block above a height that is still owed a vote. */
  ghost predicate Loses(w: World, s: State, a: Action) {
    && (a == Consume(Judge(NoPower)) || a == Consume(Judge(Acked)))
    && s.consumer.Handling?
    && exists h: nat :: Owed(w, s, h) && s.ledger.copies.disk.processed < h < s.consumer.height
  }

  /** While the loops run, votes are owed only once the quit channel is closed, and a sync in
      progress has not passed them. */
  ghost predicate OwedInv(w: World, s: State) {
    && (forall h :: h in s.abandoned ==> Origin(w) <= h)
    && (forall h :: Owed(w, s, h) ==> (Running(s) ==> QuitClosed(s)) && (s.consumer.Syncing? ==> s.consumer.next <= h))
  }

  // ---------------------------------------------------------------------------------------
  // Steps

  /** What matters to owed votes is unchanged, or only settles more. */
  ghost predicate Harmless(w: World, s: State, s': State) {
    && s'.ledger.copies.disk == s.ledger.copies.disk
    && (forall h :: Settled(w, s, h) ==> Settled(w, s', h))
    && (forall h :: h in s'.abandoned ==> h in s.abandoned)
    && (Running(s') ==> Running(s) && (QuitClosed(s) ==> QuitClosed(s')))
    && (s'.consumer.Syncing? ==> s'.consumer == s.consumer)
  }

  lemma HarmlessKeeps(w: World, s: State, s': State)
    requires Kept(w, s) && OwedInv(w, s) && Harmless(w, s, s')
    ensures Kept(w, s') && OwedInv(w, s')
  {
    assert forall h :: Owed(w, s', h) ==> Owed(w, s, h);
  }

  lemma PollKeeps(w: World, s: State, a: PollerAct)
    requires Kept(w, s) && OwedInv(w, s) && PollEnabled(w, s, a)
    ensures Kept(w, PollNext(w, s, a)) && OwedInv(w, PollNext(w, s, a))
  {
    assert Harmless(w, s, PollNext(w, s, a));
    HarmlessKeeps(w, s, PollNext(w, s, a));
  }

  lemma BystanderKeeps(w: World, s: State, a: Action)
    requires Kept(w, s) && OwedInv(w, s) && Enabled(w, s, a) && (a.Finalize? || a.Lag?)
    ensures Kept(w, Next(w, s, a)) && OwedInv(w, Next(w, s, a))
  {
    assert Harmless(w, s, Next(w, s, a));
    HarmlessKeeps(w, s, Next(w, s, a));
  }

  /** A new start begins its sync at or below every owed height: owed heights are above the stored
      progress and not finalized.  A launch forgets them, because they will be polled again. */
  lemma LifeKeeps(w: World, s: State, a: LifeAct)
    requires Inv(w, s) && Kept(w, s) && OwedInv(w, s) && LifeEnabled(w, s, a)
    ensures Kept(w, LifeNext(w, s, a)) && OwedInv(w, LifeNext(w, s, a))
  {
    var s' := LifeNext(w, s, a);
    assert forall h :: Settled(w, s', h) <==> Settled(w, s, h);
    forall h | Owed(w, s', h)
      ensures (Running(s') ==> QuitClosed(s')) && (s'.consumer.Syncing? ==> s'.consumer.next <= h)
    {
      assert Owed(w, s, h) && s.ledger.copies.disk.processed < h;
    }
  }

  lemma PageKeeps(w: World, s: State)
    requires Inv(w, s) && Kept(w, s) && OwedInv(w, s) && PageLeft(w, s)
    ensures Kept(w, Paged(w, s, PageOk)) && OwedInv(w, Paged(w, s, PageOk))
  {
    var s' := Paged(w, s, PageOk);
    var lo, hi := s.consumer.next, s'.consumer.next;
    EligibleIsExact(w.power, Processed(s), lo, hi);
    var e := PageVotes(w, s);
    assert e != [] ==> e[|e| - 1] in e;
    assert forall h :: h in e ==> h in s'.ledger.votes;
    forall h | Origin(w) <= h < hi ensures Settled(w, s', h) {
      if Settled(w, s, h) {
      } else if h < lo {
        assert Accounted(w, s, h) && Owed(w, s, h);
      } else if w.power(h) > 0 {
        assert h in e;
      }
    }
    assert forall h :: Settled(w, s, h) ==> Settled(w, s', h);
    assert forall h :: Owed(w, s', h) ==> Owed(w, s, h) && hi <= h;
  }

  lemma OtherConsumeKeeps(w: World, s: State, a: ConsumerAct)
    requires Inv(w, s) && Kept(w, s) && OwedInv(w, s) && ConsumeEnabled(w, s, a)
    requires a != Page(PageOk) && !a.Judge?
    ensures Kept(w, ConsumeNext(w, s, a)) && OwedInv(w, ConsumeNext(w, s, a))
  {
    var s' := ConsumeNext(w, s, a);
    if a.TakeTarget? {
      assert forall h :: Settled(w, s', h) <==> Settled(w, s, h);
      forall h | Owed(w, s', h)
        ensures (Running(s') ==> QuitClosed(s')) && (s'.consumer.Syncing? ==> s'.consumer.next <= h)
      {
        assert Owed(w, s, h) && s.ledger.copies.disk.processed < h;
      }
    } else {
      assert Harmless(w, s, s');
      HarmlessKeeps(w, s, s');
    }
  }

  /** Heights below the block in hand are settled or owed, so a verdict that passes no owed height
      keeps the promise. */
  lemma JudgeKeeps(w: World, s: State, v: Verdict)
    requires Inv(w, s) && Kept(w, s) && ConsumeEnabled(w, s, Judge(v)) && !Loses(w, s, Consume(Judge(v)))
    ensures Kept(w, Judged(w, s, s.consumer.height, v))
  {
    var k, s' := s.consumer.height, Judged(w, s, s.consumer.height, v);
    forall h: nat | Origin(w) <= h <= s'.ledger.copies.disk.processed ensures Settled(w, s', h) {
      if h <= s.ledger.copies.disk.processed {
        assert Settled(w, s, h);
      } else if h < k {
        assert Accounted(w, s, h) && !Owed(w, s, h);
      }
    }
  }

  /** A verdict that records its block passes every height in between: it keeps the promise exactly
      when none of them is owed. */
  lemma JudgeKeptIff(w: World, s: State, v: Verdict)
    requires Inv(w, s) && Kept(w, s) && OwedInv(w, s) && ConsumeEnabled(w, s, Judge(v))
    ensures var s' := Judged(w, s, s.consumer.height, v);
            && (Kept(w, s') <==> !Loses(w, s, Consume(Judge(v))))
            && OwedInv(w, s')
  {
    var k, s' := s.consumer.height, Judged(w, s, s.consumer.height, v);
    assert forall h :: Owed(w, s', h) ==> Owed(w, s, h) || (v.Interrupted? && h == k);
    if Loses(w, s, Consume(Judge(v))) {
      var h: nat :| Owed(w, s, h) && s.ledger.copies.disk.processed < h < k;
      assert !Settled(w, s', h);
    } else {
      JudgeKeeps(w, s, v);
    }
  }

  /** From a state that keeps the promise, a step breaks it exactly when it records a block above a
      height whose vote was cut short. */
  lemma StepKeptIff(w: World, s: State, a: Action)
    requires Inv(w, s) && Kept(w, s) && OwedInv(w, s) && Enabled(w, s, a)
    ensures Kept(w, Next(w, s, a)) <==> !Loses(w, s, a)
    ensures OwedInv(w, Next(w, s, a))
  {
    match a
    case Consume(c) =>
      match c {
        case Page(PageOk) => PageKeeps(w, s);
        case Judge(v) => JudgeKeptIff(w, s, v);
        case _ => OtherConsumeKeeps(w, s, c);
      }
    case Poll(p) => PollKeeps(w, s, p);
    case Life(x) => LifeKeeps(w, s, x);
    case _ => BystanderKeeps(w, s, a);
  }

  // ---------------------------------------------------------------------------------------
  // Runs

  ghost predicate NeverLoses(w: World, s: State, acts: seq<Action>)
    requires Runs(w, s, acts)
    decreases |acts|
  {
    acts != [] ==>
      && NeverLoses(w, s, acts[..|acts| - 1])
      && !Loses(w, After(w, s, acts[..|acts| - 1]), acts[|acts| - 1])
  }

  ghost predicate AlwaysKept(w: World, s: State, acts: seq<Action>)
    requires Runs(w, s, acts)
    decreases |acts|
  {
    Kept(w, After(w, s, acts)) && (acts != [] ==> AlwaysKept(w, s, acts[..|acts| - 1]))
  }

  /** In every run the stored progress stands for settled heights at every point if and only if no
      block is ever recorded above a height whose vote was cut short by a shutdown. */
  lemma {:induction false} NothingIsLostIff(w: World, stored: Heights, finalized: nat, acts: seq<Action>)
    requires Runs(w, Initial(stored, finalized), acts)
    ensures AlwaysKept(w, Initial(stored, finalized), acts) <==> NeverLoses(w, Initial(stored, finalized), acts)
    ensures NeverLoses(w, Initial(stored, finalized), acts) ==>
              var s := After(w, Initial(stored, finalized), acts); Kept(w, s) && OwedInv(w, s)
  {
    if acts != [] {
      var front := acts[..|acts| - 1];
      NothingIsLostIff(w, stored, finalized, front);
      Coverage.RunKeeps(w, stored, finalized, front);
      var m := After(w, Initial(stored, finalized), front);
      if Kept(w, m) && OwedInv(w, m) {
        StepKeptIff(w, m, acts[|acts| - 1]);
      }
    }
  }

  /** In such a run every height below the front is settled too while the loops run and are not
      quitting, except the block in the consumer's hands. */
  lemma FrontIsSettled(w: World, stored: Heights, finalized: nat, acts: seq<Action>, h: nat)
    requires Runs(w, Initial(stored, finalized), acts) && NeverLoses(w, Initial(stored, finalized), acts)
    requires var s := After(w, Initial(stored, finalized), acts);
             Running(s) && !QuitClosed(s) && Origin(w) <= h < Front(s) && h !in Pending(s)
    ensures Settled(w, After(w, Initial(stored, finalized), acts), h)
  {
    NothingIsLostIff(w, stored, finalized, acts);
    EveryHeightIsAccountedFor(w, stored, finalized, acts, h);
    assert !Owed(w, After(w, Initial(stored, finalized), acts), h);
  }

  // ---------------------------------------------------------------------------------------
  // A simple sufficient condition

  /** A block is taken from the channel although the quit channel is closed already. */
  predicate LateReceipt(s: State, a: Action) {
    a == Consume(Receive) && QuitClosed(s)
  }

  ghost predicate NoLateReceipt(w: World, s: State, acts: seq<Action>)
    requires Runs(w, s, acts)
    decreases |acts|
  {
    acts != [] ==>
      && NoLateReceipt(w, s, acts[..|acts| - 1])
      && !LateReceipt(After(w, s, acts[..|acts| - 1]), acts[|acts| - 1])
  }

  /** Nothing is owed while a block is being handled. */
  ghost predicate HandlesClean(w: World, s: State) {
    s.consumer.Handling? ==> forall h :: !Owed(w, s, h)
  }

  /** Nothing that matters to owed votes changes, except that more may be finalized. */
  ghost predicate SameDebts(s: State, s': State) {
    && s'.abandoned == s.abandoned && s'.ledger == s.ledger && s'.declined == s.declined
    && s'.baseline == s.baseline && s.finalized <= s'.finalized
  }

  /** A block is in the loop's hands because it was before, or because it was just received. */
  lemma ConsumeHandling(w: World, s: State, a: ConsumerAct)
    requires ConsumeEnabled(w, s, a) && ConsumeNext(w, s, a).consumer.Handling?
    ensures (a.Receive? || a.Handoff?) && SameDebts(s, ConsumeNext(w, s, a))
  {
  }

  lemma PollHandling(w: World, s: State, a: PollerAct)
    requires PollEnabled(w, s, a) && PollNext(w, s, a).consumer.Handling?
    ensures PollNext(w, s, a).consumer == s.consumer && SameDebts(s, PollNext(w, s, a))
  {
  }

  lemma LifeHandling(w: World, s: State, a: LifeAct)
    requires LifeEnabled(w, s, a) && LifeNext(w, s, a).consumer.Handling?
    ensures LifeNext(w, s, a).consumer == s.consumer && SameDebts(s, LifeNext(w, s, a))
  {
  }

  lemma StepHandlesClean(w: World, s: State, a: Action)
    requires OwedInv(w, s) && HandlesClean(w, s) && Enabled(w, s, a) && !LateReceipt(s, a)
    ensures HandlesClean(w, Next(w, s, a))
  {
    if Next(w, s, a).consumer.Handling? {
      match a {
        case Consume(c) => ConsumeHandling(w, s, c);
        case Poll(p) => PollHandling(w, s, p);
        case Life(x) => LifeHandling(w, s, x);
        case _ =>
      }
      assert SameDebts(s, Next(w, s, a));
      assert forall h :: Owed(w, Next(w, s, a), h) ==> Owed(w, s, h);
    }
  }

  /** A run that receives no block once the quit channel is closed loses nothing. */
  lemma {:induction false} OnTimeReceiptsLoseNothing(w: World, stored: Heights, finalized: nat, acts: seq<Action>)
    requires Runs(w, Initial(stored, finalized), acts) && NoLateReceipt(w, Initial(stored, finalized), acts)
    ensures NeverLoses(w, Initial(stored, finalized), acts)
    ensures HandlesClean(w, After(w, Initial(stored, finalized), acts))
  {
    if acts != [] {
      var front := acts[..|acts| - 1];
      OnTimeReceiptsLoseNothing(w, stored, finalized, front);
      NothingIsLostIff(w, stored, finalized, front);
      StepHandlesClean(w, After(w, Initial(stored, finalized), front), acts[|acts| - 1]);
    }
  }
}
