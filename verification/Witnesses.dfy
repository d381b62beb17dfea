/**
 Concrete runs for the conditions under which the run-level claims fail.
 */
module Witnesses {
  import opened Progress
  import opened Eligibility
  import opened Engine
  import opened Coverage
  import Liveness

  /** The poller hands the next block to the idle loop. */
  lemma HandOne(w: World, s: State, done: seq<Action>) returns (acts: seq<Action>)
    requires Runs(w, s, done)
    requires var m := After(w, s, done); m.poller.pc.Polling? && m.poller.buffer == [] && m.consumer.Idle?
    ensures Runs(w, s, acts)
    ensures var m := After(w, s, done); var h := m.poller.nextHeight;
            After(w, s, acts) ==
              m.(poller := Poller(Waiting, h + 1, []), consumer := Handling(h), delivered := m.delivered + [h])
  {
    acts := Do(w, s, done, Poll(Fetch(true)));
    acts := Do(w, s, acts, Consume(Handoff));
  }

  /** The poller fetches one block into its buffer and waits. */
  lemma PollOne(w: World, s: State, done: seq<Action>) returns (acts: seq<Action>)
    requires Runs(w, s, done)
    requires var m := After(w, s, done); m.poller.pc.Polling? && |m.poller.buffer| < w.capacity
    ensures Runs(w, s, acts)
    ensures var m := After(w, s, done); var p := m.poller;
            After(w, s, acts) == m.(poller := Poller(Waiting, p.nextHeight + 1, p.buffer + [p.nextHeight]))
  {
    acts := Do(w, s, done, Poll(Fetch(true)));
    acts := Do(w, s, acts, Poll(Push));
  }

  /** Power at every height; the lag checker never reacts. */
  function BusyWorld(): World {
    World((h: nat) => 1, 0, 2, 10, 100, Auto, false)
  }

  /** A run to a stop request while block 2 is being retried and block 3 is in the channel. */
  lemma StopWhileRetrying() returns (acts: seq<Action>)
    ensures var w, s0 := BusyWorld(), Initial(Heights(0, 0), 1);
            && Runs(w, s0, acts)
            && var s := After(w, s0, acts);
               && s.consumer == Handling(2) && s.poller == Poller(Off, 4, [3]) && s.stopping
               && s.ledger == s0.ledger && s.finalized == 1 && s.baseline == 0 && s.declined == {}
  {
    var w, s0 := BusyWorld(), Initial(Heights(0, 0), 1);
    acts := Begin(w, s0, Life(Start(1, false)));
    acts := Do(w, s0, acts, Life(Launch(5)));
    acts := Do(w, s0, acts, Poll(Activate(true)));
    acts := HandOne(w, s0, acts);
    assert After(w, s0, acts).poller == Poller(Waiting, 3, []);
    acts := Do(w, s0, acts, Poll(Elapse));
    acts := PollOne(w, s0, acts);
    acts := Do(w, s0, acts, Life(RequestStop));
    acts := Do(w, s0, acts, Poll(Exit));
  }

  /** The loop may receive another block after its quit channel is closed. If the vote it was
      retrying was cut short and the next block is voted, the first one is never voted: the stored
      progress passes it by. */
  lemma LateReceiptLosesABlock() returns (acts: seq<Action>)
    ensures var w, s0 := BusyWorld(), Initial(Heights(0, 0), 1);
            && Runs(w, s0, acts)
            && var s := After(w, s0, acts);
               s.consumer.Down? && s.ledger.copies.disk.processed == 3 && Origin(w) <= 2 && !Settled(w, s, 2)
  {
    var w, s0 := BusyWorld(), Initial(Heights(0, 0), 1);
    acts := StopWhileRetrying();
    acts := Do(w, s0, acts, Consume(Judge(Interrupted)));
    acts := Do(w, s0, acts, Consume(Receive));
    acts := Do(w, s0, acts, Consume(Judge(Acked)));
    acts := Do(w, s0, acts, Life(ShutDown));
  }

  /** Power at height 3 only. */
  function SparseWorld(): World {
    World((h: nat) => if h == 3 then 1 else 0, 0, 1, 10, 3, Auto, false)
  }

  /** Block 2 has no power and is recorded as processed. */
  lemma FirstBlockPowerless() returns (acts: seq<Action>)
    ensures var w, s0 := SparseWorld(), Initial(Heights(0, 0), 1);
            && Runs(w, s0, acts)
            && var s := After(w, s0, acts);
               && s.consumer.Idle? && s.poller == Poller(Waiting, 3, []) && !s.stopping && s.finalized == 1
               && s.ledger == Ledger(Copies(Heights(0, 2), Heights(0, 2)), [])
  {
    var w, s0 := SparseWorld(), Initial(Heights(0, 0), 1);
    acts := Begin(w, s0, Life(Start(1, false)));
    acts := Do(w, s0, acts, Life(Launch(2)));
    acts := Do(w, s0, acts, Poll(Activate(true)));
    acts := HandOne(w, s0, acts);
    acts := Do(w, s0, acts, Consume(Judge(NoPower)));
  }

  /** Block 3 is polled and its vote acknowledged, then the process crashes. */
  lemma VoteThenCrash() returns (acts: seq<Action>)
    ensures var w, s0 := SparseWorld(), Initial(Heights(0, 0), 1);
            && Runs(w, s0, acts)
            && var s := After(w, s0, acts);
               && s.consumer.Down? && s.ledger == Ledger(Copies(Heights(3, 3), Heights(3, 3)), [3])
               && s.finalized == 1 && s.poller == Poller(Off, 0, []) && !s.inSync && !s.stopping
  {
    var w, s0 := SparseWorld(), Initial(Heights(0, 0), 1);
    acts := FirstBlockPowerless();
    acts := Do(w, s0, acts, Poll(Elapse));
    acts := HandOne(w, s0, acts);
    assert After(w, s0, acts).consumer == Handling(3);
    acts := Do(w, s0, acts, Consume(Judge(Acked)));
    assert After(w, s0, acts).ledger == Ledger(Copies(Heights(3, 3), Heights(3, 3)), [3]);
    acts := Do(w, s0, acts, Life(Crash));
  }

  /** After a restart a fast sync over powerless blocks resets the processed height. */
  lemma VotelessAfterRestart() returns (acts: seq<Action>)
    ensures var w, s0 := SparseWorld(), Initial(Heights(0, 0), 1);
            && Runs(w, s0, acts)
            && var s := After(w, s0, acts);
               && s.consumer.Launching? && Processed(s) == 0 && s.finalized == 1 && !s.stopping
               && s.ledger.votes == [3]
  {
    var w, s0 := SparseWorld(), Initial(Heights(0, 0), 1);
    acts := VoteThenCrash();
    acts := Do(w, s0, acts, Life(Start(6, false)));
    assert After(w, s0, acts).consumer == Syncing(4, 6, 0, true);
    PowerlessRange(w.power, 3, 4, 7);
    acts := Do(w, s0, acts, Consume(Page(PageOk)));
    assert After(w, s0, acts).consumer == Syncing(7, 6, 0, true);
    acts := Do(w, s0, acts, Consume(FinishSync));
  }

  /** A run from a fresh provider whose acknowledged votes do not increase: the poller goes back to
      the last finalized height and block 3 is voted again. */
  lemma ForgettingIsReachable() returns (acts: seq<Action>)
    ensures var w, s0 := SparseWorld(), Initial(Heights(0, 0), 1);
            Runs(w, s0, acts) && After(w, s0, acts).ledger.votes == [3, 3]
  {
    var w, s0 := SparseWorld(), Initial(Heights(0, 0), 1);
    acts := VotelessAfterRestart();
    acts := Do(w, s0, acts, Life(Launch(6)));
    acts := Do(w, s0, acts, Poll(Activate(true)));
    assert After(w, s0, acts).poller == Poller(Polling, 2, []);
    acts := HandOne(w, s0, acts);
    acts := Do(w, s0, acts, Consume(Judge(NoPower)));
    assert After(w, s0, acts).poller == Poller(Waiting, 3, []);
    acts := Do(w, s0, acts, Poll(Elapse));
    acts := HandOne(w, s0, acts);
    assert After(w, s0, acts).consumer == Handling(3);
    acts := Do(w, s0, acts, Consume(Judge(Acked)));
  }

  // ---------------------------------------------------------------------------------------
  // The same within one session

  /** Power at heights 2 and 3 only; the lag checker reacts to a gap of two blocks. */
  function EarlyWorld(): World {
    World((h: nat) => if h == 2 || h == 3 then 1 else 0, 0, 3, 10, 2, Auto, false)
  }

  /** The lag checker finds the given tip too far ahead and the consumer begins to sync. */
  lemma LagSync(w: World, s: State, done: seq<Action>, tip: nat) returns (acts: seq<Action>)
    requires Runs(w, s, done)
    requires var m := After(w, s, done);
             && m.consumer.Idle? && !m.inSync && m.lagger == Lagger(Watching, false, []) && 1 <= m.finalized
             && Processed(m) + w.gap <= tip && SyncStart(m.finalized, Processed(m)) <= tip
    ensures Runs(w, s, acts)
    ensures var m := After(w, s, done);
            After(w, s, acts) ==
              m.(lagger := Lagger(Watching, true, []), inSync := true,
                 consumer := Syncing(SyncStart(m.finalized, Processed(m)), tip, 0, false))
  {
    acts := Do(w, s, done, Lag(Tick));
    acts := Do(w, s, acts, Lag(Measure(tip)));
    acts := Do(w, s, acts, Lag(Offer));
    acts := Do(w, s, acts, Consume(TakeTarget(false)));
  }

  /** While a sync over 2 and 3 is under way, the poller buffers 2, 3 and 4. */
  lemma BufferedWhileSyncing() returns (acts: seq<Action>)
    ensures var w, s0 := EarlyWorld(), Initial(Heights(0, 0), 1);
            && Runs(w, s0, acts)
            && var s := After(w, s0, acts);
               && s.consumer == Syncing(2, 3, 0, false) && s.poller == Poller(Waiting, 5, [2, 3, 4])
               && s.lagger == Lagger(Watching, true, []) && !s.stopping && s.ledger == s0.ledger && s.finalized == 1
  {
    var w, s0 := EarlyWorld(), Initial(Heights(0, 0), 1);
    acts := Begin(w, s0, Life(Start(1, false)));
    acts := Do(w, s0, acts, Life(Launch(1)));
    acts := Do(w, s0, acts, Poll(Activate(true)));
    assert After(w, s0, acts).poller == Poller(Polling, 2, []);
    acts := LagSync(w, s0, acts, 3);
    acts := PollOne(w, s0, acts);
    acts := Do(w, s0, acts, Poll(Elapse));
    acts := PollOne(w, s0, acts);
    acts := Do(w, s0, acts, Poll(Elapse));
    acts := PollOne(w, s0, acts);
  }

  /** The sync votes 2 and 3, its skip request to 4 is refused, and the votes are finalized. */
  lemma VotedButBuffered() returns (acts: seq<Action>)
    ensures var w, s0 := EarlyWorld(), Initial(Heights(0, 0), 1);
            && Runs(w, s0, acts)
            && var s := After(w, s0, acts);
               && s.consumer.Idle? && s.poller == Poller(Polling, 5, [2, 3, 4]) && !s.inSync && !s.stopping
               && s.lagger == Lagger(Watching, false, []) && s.finalized == 3
               && Processed(s) == 3 && s.ledger.votes == [2, 3]
  {
    var w, s0 := EarlyWorld(), Initial(Heights(0, 0), 1);
    acts := BufferedWhileSyncing();
    assert Eligible(w.power, 0, 2, 4) == [2, 3];
    acts := Do(w, s0, acts, Consume(Page(PageOk)));
    assert After(w, s0, acts).consumer == Syncing(4, 3, 3, false);
    acts := Do(w, s0, acts, Consume(FinishSync));
    acts := Liveness.SkipRefused(w, s0, acts);
    acts := Do(w, s0, acts, Finalize(3));
  }

  /** A run without restart or stop in which every vote is finalized and a vote is repeated all the
      same: a second sync casts no vote, and block 2 is still in the poller's buffer. */
  lemma BufferedVoteIsRepeated() returns (acts: seq<Action>)
    ensures var w, s0 := EarlyWorld(), Initial(Heights(0, 0), 1);
            Runs(w, s0, acts) && After(w, s0, acts).ledger.votes == [2, 3, 2] && After(w, s0, acts).finalized == 3
  {
    var w, s0 := EarlyWorld(), Initial(Heights(0, 0), 1);
    acts := VotedButBuffered();
    acts := LagSync(w, s0, acts, 6);
    PowerlessRange(w.power, 3, 4, 7);
    acts := Do(w, s0, acts, Consume(Page(PageOk)));
    assert After(w, s0, acts).consumer == Syncing(7, 6, 0, false);
    acts := Do(w, s0, acts, Consume(FinishSync));
    acts := Do(w, s0, acts, Poll(Fetch(false)));
    acts := Liveness.SkipRefused(w, s0, acts);
    assert After(w, s0, acts).poller.buffer == [2, 3, 4];
    acts := Do(w, s0, acts, Consume(Receive));
    assert After(w, s0, acts).consumer == Handling(2);
    acts := Do(w, s0, acts, Consume(Judge(Acked)));
  }
}
