/**
 The voting engine of one finality provider as a step system.  Three goroutines share the
 progress record: the chain poller, the signature submission loop (the consumer) and the lag
 checker.  A step is one action of one of them, of the chain, or of the process life cycle;
 a run is any interleaving of enabled steps.

 Channels: the poller's block channel is a FIFO of the configured capacity, the lag channel has
 capacity 1, the skip channel is a rendezvous.  Replies of the chain are part of the action.
 */
module Engine {
  import opened Progress
  import opened Eligibility

  datatype Scan = Auto | Static(height: nat)

  /** What does not change during a run: the chain's power table and the configuration. */
  datatype World = World(
    power: Power,
    activation: nat,
    capacity: nat,
    limit: nat,
    gap: nat,
    scan: Scan,
    racyTimer: bool)             // the poll timer may fire although another case of its select is ready

  datatype PollerPc =
    | Off
    | Activating                 // waitForActivation
    | Polling                    // about to query the block at nextHeight
    | Pushing(height: nat)       // holding a block, at the channel send
    | Waiting                    // in the select between two polls
    | Answering(target: nat)     // a skip request was taken

  datatype Poller = Poller(pc: PollerPc, nextHeight: nat, buffer: seq<nat>)

  datatype Consumer =
    | Down                       // no loops are running
    | Launching                  // bootstrapped, poller not started yet
    | Syncing(next: nat, end: nat, synced: nat, boot: bool)
    | Idle                       // in the select of the submission loop
    | Handling(height: nat)      // a block was received
    | Skipping(target: nat)      // SkipToHeight, request not taken yet
    | AwaitingReply(target: nat) // SkipToHeight, request taken
    | Halted(height: nat)        // a critical error was reported

  datatype LaggerPc = Resting | Watching | Measuring | Offering(target: nat)

  /** The lag checker with isLagging and the lag channel. */
  datatype Lagger = Lagger(pc: LaggerPc, flag: bool, queue: seq<nat>)

  datatype State = State(
    poller: Poller,
    consumer: Consumer,
    lagger: Lagger,
    inSync: bool,
    stopping: bool,              // the poller's quit channel is closed
    ledger: Ledger,              // both progress copies and the acknowledged votes, in order
    finalized: nat,              // the chain's last finalized height, 0 for none
    baseline: nat,               // processed height stored before the run
    delivered: seq<nat>,         // heights received from the poller since it was launched
    declined: set<nat>,          // heights the chain declared not needed
    abandoned: set<nat>)         // heights whose retry loop was cut short by a shutdown

  datatype Verdict = PowerUnknown | NoPower | Acked | SeenFinalized | NotWanted | VoteFailed | Interrupted

  datatype PageReply = PageOk | PageError(slashed: bool)

  datatype PollerAct =
    | Activate(known: bool) | ActivationAborted | Fetch(found: bool) | Push | Elapse | TakeSkip | Answer | Exit

  datatype ConsumerAct =
    | Receive | Handoff | HandleStale | Judge(verdict: Verdict)
    | TakeTarget(queryFails: bool) | Page(reply: PageReply) | FinishSync | AbortSkip

  datatype LagAct = Tick | Measure(tip: nat) | MeasureFailed | Offer

  datatype LifeAct = Start(tip: nat, queryFails: bool) | Launch(tip: nat) | RequestStop | ShutDown | Crash

  datatype Action =
    | Finalize(height: nat)
    | Poll(p: PollerAct)
    | Consume(c: ConsumerAct)
    | Lag(l: LagAct)
    | Life(x: LifeAct)

  // ---------------------------------------------------------------------------------------
  // Poller

  /** clearChanBufferUpToHeight: drop blocks from the front, stopping after one that reaches
      the target's predecessor. */
  function Drain(buffer: seq<nat>, target: nat): seq<nat> {
    if buffer == [] then []
    else if buffer[0] + 1 >= target then buffer[1..]
    else Drain(buffer[1..], target)
  }

  /** The answer to a skip request: refused unless the target is above nextHeight. */
  function AnswerSkip(p: Poller, target: nat): Poller {
    if target <= p.nextHeight then p.(pc := Polling)
    else Poller(Polling, target, Drain(p.buffer, target))
  }

  /** A skip request or the closed quit channel can be taken by the select between two polls.  The
      timer of that select is armed when it is entered, so it fires first only if it is racy: if the
      poll interval is shorter than the poller takes to get from arming it to the choice. */
  predicate SelectReady(s: State) {
    s.stopping || s.consumer.Skipping?
  }

  predicate PollEnabled(w: World, s: State, a: PollerAct) {
    match a
    case Activate(_) => s.poller.pc.Activating?
    case ActivationAborted => s.poller.pc.Activating? && s.stopping
    case Fetch(_) => s.poller.pc.Polling?
    case Push => s.poller.pc.Pushing? && |s.poller.buffer| < w.capacity
    case Elapse => s.poller.pc.Waiting? && (w.racyTimer || !SelectReady(s))
    case TakeSkip => s.poller.pc.Waiting? && s.consumer.Skipping?
    case Answer => s.poller.pc.Answering?
    case Exit => s.poller.pc.Waiting? && s.stopping
  }

  function PollNext(w: World, s: State, a: PollerAct): State
    requires PollEnabled(w, s, a)
  {
    var p := s.poller;
    match a
    case Activate(known) =>
      if known then s.(poller := p.(pc := Polling, nextHeight := Max(p.nextHeight, w.activation))) else s
    case ActivationAborted => s.(poller := p.(pc := Polling))
    case Fetch(found) =>
      if found then s.(poller := p.(pc := Pushing(p.nextHeight), nextHeight := p.nextHeight + 1))
      else s.(poller := p.(pc := Waiting))
    case Push => s.(poller := p.(pc := Waiting, buffer := p.buffer + [p.pc.height]))
    case Elapse => s.(poller := p.(pc := Polling))
    case TakeSkip =>
      s.(poller := p.(pc := Answering(s.consumer.target)), consumer := AwaitingReply(s.consumer.target))
    case Answer =>
      s.(poller := AnswerSkip(p, p.pc.target),
         consumer := if s.consumer.AwaitingReply? then Idle else s.consumer)
    case Exit => s.(poller := p.(pc := Off))
  }

  // ---------------------------------------------------------------------------------------
  // Consumer

  /** The instance's own quit channel is closed once the poller has stopped. */
  predicate QuitClosed(s: State) {
    s.stopping && s.poller.pc.Off?
  }

  function Processed(s: State): nat {
    s.ledger.copies.mem.processed
  }

  predicate VerdictPossible(w: World, s: State, h: nat, v: Verdict) {
    match v
    case PowerUnknown => true
    case NoPower => w.power(h) == 0
    case Acked => w.power(h) > 0
    case SeenFinalized => w.power(h) > 0 && h <= s.finalized
    case NotWanted => w.power(h) > 0
    case VoteFailed => w.power(h) > 0
    case Interrupted => w.power(h) > 0 && QuitClosed(s)
  }

  predicate PageLeft(w: World, s: State) {
    s.consumer.Syncing? && s.consumer.next <= s.consumer.end && w.limit >= 1
  }

  predicate ConsumeEnabled(w: World, s: State, a: ConsumerAct) {
    match a
    case Receive => s.consumer.Idle? && s.poller.buffer != []
    case Handoff => s.consumer.Idle? && s.poller.buffer == [] && s.poller.pc.Pushing?
    case HandleStale => s.consumer.Handling? && s.consumer.height <= Processed(s)
    case Judge(v) =>
      s.consumer.Handling? && Processed(s) < s.consumer.height && VerdictPossible(w, s, s.consumer.height, v)
    case TakeTarget(_) => s.consumer.Idle? && s.lagger.queue != []
    case Page(_) => PageLeft(w, s)
    case FinishSync => s.consumer.Syncing? && !PageLeft(w, s)
    case AbortSkip => s.stopping && (s.consumer.Skipping? || s.consumer.AwaitingReply?)
  }

  function Unlag(s: State): Lagger {
    s.lagger.(flag := false)
  }

  function Judged(w: World, s: State, h: nat, v: Verdict): State {
    match v
    case PowerUnknown => s.(consumer := Halted(h))
    case NoPower => s.(consumer := Idle, ledger := s.ledger.(copies := Put(s.ledger.copies, MarkProcessed(h))))
    case Acked => s.(consumer := Idle, ledger := RecordVotes(s.ledger, [h]))
    case SeenFinalized => s.(consumer := Idle)
    case NotWanted => s.(consumer := Idle, declined := s.declined + {h})
    case VoteFailed => s.(consumer := Halted(h))
    case Interrupted => s.(consumer := Idle, abandoned := s.abandoned + {h})
  }

  /** tryFastSync up to the point where pages are fetched. */
  function TrySync(w: World, s: State, target: nat, queryFails: bool, boot: bool): State {
    var failed := if boot then Killed(s) else s.(consumer := Idle, lagger := Unlag(s));
    if s.inSync || queryFails then failed
    else if s.finalized == 0 then
      if boot then s.(consumer := Launching) else s.(consumer := Idle, lagger := Unlag(s))
    else
      var start := SyncStart(s.finalized, Processed(s));
      if start > target then failed
      else s.(consumer := Syncing(start, target, 0, boot), inSync := true)
  }

  function PageVotes(w: World, s: State): seq<nat>
    requires PageLeft(w, s)
  {
    Eligible(w.power, Processed(s), s.consumer.next, PageEnd(s.consumer.next, s.consumer.end, w.limit))
  }

  function Paged(w: World, s: State, r: PageReply): State
    requires PageLeft(w, s)
  {
    var c := s.consumer;
    match r
    case PageOk =>
      var e := PageVotes(w, s);
      s.(ledger := RecordVotes(s.ledger, e),
         consumer := Syncing(PageEnd(c.next, c.end, w.limit), c.end,
                             if e == [] then c.synced else LastOrZero(e), c.boot))
    case PageError(slashed) =>
      if c.boot then Killed(s)
      else s.(inSync := false, lagger := Unlag(s), consumer := if slashed then Halted(Front(s)) else Idle)
  }

  function SyncFinished(w: World, s: State): State
    requires s.consumer.Syncing?
  {
    var c := s.consumer;
    var s1 := s.(inSync := false, ledger := s.ledger.(copies := Put(s.ledger.copies, MarkProcessed(c.synced))));
    if c.boot then s1.(consumer := Launching)
    else s1.(lagger := Unlag(s), consumer := if s.stopping then Idle else Skipping(c.synced + 1))
  }

  function ConsumeNext(w: World, s: State, a: ConsumerAct): State
    requires ConsumeEnabled(w, s, a)
  {
    var p := s.poller;
    match a
    case Receive =>
      s.(poller := p.(buffer := p.buffer[1..]), consumer := Handling(p.buffer[0]),
          delivered := s.delivered + [p.buffer[0]])
    case Handoff =>
      s.(poller := p.(pc := Waiting), consumer := Handling(p.pc.height), delivered := s.delivered + [p.pc.height])
    case HandleStale => s.(consumer := Idle)
    case Judge(v) => Judged(w, s, s.consumer.height, v)
    case TakeTarget(queryFails) =>
      var target := s.lagger.queue[0];
      TrySync(w, s.(lagger := s.lagger.(queue := s.lagger.queue[1..])), target, queryFails, false)
    case Page(r) => Paged(w, s, r)
    case FinishSync => SyncFinished(w, s)
    case AbortSkip => s.(consumer := Idle)
  }

  // ---------------------------------------------------------------------------------------
  // Lag checker

  predicate IsLagging(w: World, s: State, tip: nat) {
    tip >= Processed(s) + w.gap
  }

  predicate LagEnabled(w: World, s: State, a: LagAct) {
    match a
    case Tick => s.lagger.pc.Watching?
    case Measure(_) => s.lagger.pc.Measuring?
    case MeasureFailed => s.lagger.pc.Measuring?
    case Offer => s.lagger.pc.Offering? && |s.lagger.queue| < 1
  }

  function LagNext(w: World, s: State, a: LagAct): State
    requires LagEnabled(w, s, a)
  {
    match a
    case Tick => if s.lagger.flag then s else s.(lagger := s.lagger.(pc := Measuring))
    case Measure(tip) =>
      s.(lagger := if IsLagging(w, s, tip) then s.lagger.(pc := Offering(tip), flag := true)
                   else s.lagger.(pc := Watching))
    case MeasureFailed => s.(lagger := s.lagger.(pc := Watching))
    case Offer => s.(lagger := Lagger(Watching, s.lagger.flag, s.lagger.queue + [s.lagger.pc.target]))
  }

  // ---------------------------------------------------------------------------------------
  // Life cycle

  /** The poller has been started and the loops are running. */
  predicate Running(s: State) {
    match s.consumer
    case Down => false
    case Launching => false
    case Syncing(_, _, _, boot) => !boot
    case _ => true
  }

  /** Everything volatile is lost; a later start reads the progress back from the store. */
  function Killed(s: State): State {
    s.(poller := Poller(Off, 0, []), consumer := Down, lagger := Lagger(Resting, false, []),
       inSync := false, stopping := false, ledger := s.ledger.(copies := Reload(s.ledger.copies)))
  }

  /** getPollerStartingHeight plus one. */
  function FirstPolled(w: World, s: State): nat {
    match w.scan
    case Static(h) => h + 1
    case Auto => Max(Max(Processed(s), s.finalized), 1) + 1
  }

  predicate LifeEnabled(w: World, s: State, a: LifeAct) {
    match a
    case Start(_, _) => s.consumer.Down?
    case Launch(_) => s.consumer.Launching?
    case RequestStop => Running(s)
    case ShutDown => QuitClosed(s) && (s.consumer.Idle? || s.consumer.Halted?)
    case Crash => true
  }

  function LifeNext(w: World, s: State, a: LifeAct): State
    requires LifeEnabled(w, s, a)
  {
    match a
    case Start(tip, queryFails) =>
      if IsLagging(w, s, tip) then TrySync(w, s, tip, queryFails, true) else s.(consumer := Launching)
    case Launch(tip) =>
      var first := FirstPolled(w, s);
      if first > tip + 1 then Killed(s)
      else s.(poller := Poller(Activating, first, []), consumer := Idle, lagger := Lagger(Watching, false, []),
              delivered := [], abandoned := set h | h in s.abandoned && h <= s.ledger.copies.disk.processed)
    case RequestStop => s.(stopping := true)
    case ShutDown => Killed(s)
    case Crash => Killed(s)
  }

  // ---------------------------------------------------------------------------------------
  // Runs

  predicate Enabled(w: World, s: State, a: Action) {
    match a
    case Finalize(h) => s.finalized <= h
    case Poll(p) => PollEnabled(w, s, p)
    case Consume(c) => ConsumeEnabled(w, s, c)
    case Lag(l) => LagEnabled(w, s, l)
    case Life(x) => LifeEnabled(w, s, x)
  }

  function Next(w: World, s: State, a: Action): State
    requires Enabled(w, s, a)
  {
    match a
    case Finalize(h) => s.(finalized := h)
    case Poll(p) => PollNext(w, s, p)
    case Consume(c) => ConsumeNext(w, s, c)
    case Lag(l) => LagNext(w, s, l)
    case Life(x) => LifeNext(w, s, x)
  }

  /** A provider that is down, with the given stored progress. */
  function Initial(stored: Heights, finalized: nat): State {
    State(Poller(Off, 0, []), Down, Lagger(Resting, false, []), false, false,
          Ledger(Copies(stored, stored), []), finalized, stored.processed, [], {}, {})
  }

  /** The actions can be taken one after the other from s. */
  ghost predicate Runs(w: World, s: State, acts: seq<Action>)
    decreases |acts|, 0
  {
    acts == [] || (Runs(w, s, acts[..|acts| - 1]) && Enabled(w, After(w, s, acts[..|acts| - 1]), acts[|acts| - 1]))
  }

  ghost function After(w: World, s: State, acts: seq<Action>): State
    requires Runs(w, s, acts)
    decreases |acts|, 1
  {
    if acts == [] then s else Next(w, After(w, s, acts[..|acts| - 1]), acts[|acts| - 1])
  }

  /** A run of one enabled action. */
  lemma Begin(w: World, s: State, a: Action) returns (acts: seq<Action>)
    requires Enabled(w, s, a)
    ensures acts == [a] && Runs(w, s, acts) && After(w, s, acts) == Next(w, s, a)
  {
    acts := [a];
    assert acts[..0] == [];
  }

  /** Extends a run by one enabled action. */
  lemma Do(w: World, s: State, acts: seq<Action>, a: Action) returns (acts': seq<Action>)
    requires Runs(w, s, acts) && Enabled(w, After(w, s, acts), a)
    ensures acts' == acts + [a] && Runs(w, s, acts') && After(w, s, acts') == Next(w, After(w, s, acts), a)
  {
    acts' := acts + [a];
    assert acts'[..|acts|] == acts;
  }

  // ---------------------------------------------------------------------------------------
  // The blocks that were polled but not yet received

  /** The buffer followed by the block in the poller's hand. */
  function Line(s: State): seq<nat> {
    if s.poller.pc.Pushing? then s.poller.buffer + [s.poller.pc.height] else s.poller.buffer
  }

  /** The lowest height not yet received or skipped. */
  function Front(s: State): nat {
    if s.poller.nextHeight >= |Line(s)| then s.poller.nextHeight - |Line(s)| else 0
  }
}
