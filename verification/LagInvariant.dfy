/**
 The hand-over between the lag checker and the consumer: one flag, one channel of capacity 1.
 */
module LagInvariant {
  import opened Progress
  import opened Engine

  predicate BeingSynced(s: State) {
    s.consumer.Syncing? && !s.consumer.boot
  }

  /** Sync targets that are about to be sent, queued or being synced. */
  function Outstanding(s: State): nat {
    (if s.lagger.pc.Offering? then 1 else 0) + |s.lagger.queue| + (if BeingSynced(s) then 1 else 0)
  }

  /** isLagging is set exactly while one target is outstanding; inSync exactly during a sync. */
  ghost predicate LagInv(s: State) {
    && Outstanding(s) == (if s.lagger.flag then 1 else 0)
    && (s.inSync <==> s.consumer.Syncing?)
    && (!Running(s) ==> s.lagger == Lagger(Resting, false, []))
    && (Running(s) ==> !s.lagger.pc.Resting?)
    && (s.lagger.pc.Measuring? ==> !s.lagger.flag)
  }

  lemma StepKeeps(w: World, s: State, a: Action)
    requires LagInv(s) && Enabled(w, s, a)
    ensures LagInv(Next(w, s, a))
  {
    match a
    case Finalize(_) =>
    case Poll(p) =>
    case Consume(c) => ConsumeKeeps(w, s, c);
    case Lag(l) =>
    case Life(x) =>
  }

  lemma ConsumeKeeps(w: World, s: State, a: ConsumerAct)
    requires LagInv(s) && ConsumeEnabled(w, s, a)
    ensures LagInv(ConsumeNext(w, s, a))
  {
  }

  lemma {:induction false} RunKeeps(w: World, stored: Heights, finalized: nat, acts: seq<Action>)
    requires Runs(w, Initial(stored, finalized), acts)
    ensures LagInv(After(w, Initial(stored, finalized), acts))
  {
    if acts != [] {
      RunKeeps(w, stored, finalized, acts[..|acts| - 1]);
      StepKeeps(w, After(w, Initial(stored, finalized), acts[..|acts| - 1]), acts[|acts| - 1]);
    }
  }

  /** In every run: the flag is set exactly when a target is about to be sent, queued or being
      synced; there is never more than one; a checker that is about to send can always send; and
      whenever a sync is about to be tried, no sync is in progress. */
  lemma HandOver(w: World, stored: Heights, finalized: nat, acts: seq<Action>)
    requires Runs(w, Initial(stored, finalized), acts)
    ensures var s := After(w, Initial(stored, finalized), acts);
            && (s.lagger.flag <==> s.lagger.pc.Offering? || s.lagger.queue != [] || BeingSynced(s))
            && Outstanding(s) <= 1
            && (s.lagger.pc.Offering? ==> LagEnabled(w, s, Offer))
            && (forall q :: ConsumeEnabled(w, s, TakeTarget(q)) ==> !s.inSync)
            && (forall t, q :: LifeEnabled(w, s, Start(t, q)) ==> !s.inSync)
  {
    RunKeeps(w, stored, finalized, acts);
  }
}
