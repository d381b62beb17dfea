/**
 The status of the stored providers and the single instance slot of the manager, as a step system.
 Each step is one atomic operation of the app, the manager's monitors or the chain.
 */
module StatusMachine {
  import opened Providers

  /** The manager's instance: its in-memory status, whether Start was ever called on it, and
      whether its loops were spawned. A failed Start leaves it started without loops. */
  datatype Slot = Empty | Occupied(pk: PubKey, status: Status, started: bool, loops: bool)

  datatype System = System(
    db: map<PubKey, Status>,
    slot: Slot,
    registering: set<PubKey>,    // registered on chain or on the way, event not handled yet
    slashed: set<PubKey>)        // slashed on chain

  datatype Boot = BootFails | BootJailed | BootSucceeds

  datatype Critical = SlashedError | JailedError | OtherError

  datatype Step =
    | Create(pk: PubKey)
    | RegisterRequest(pk: PubKey)
    | RegisterFails(pk: PubKey)
    | RegisteredEvent(pk: PubKey)
    | PowerSync(pk: PubKey, power: nat, boot: Boot)
    | StartRequest(pk: PubKey, boot: Boot)
    | MonitorTick(power: nat, isSlashed: bool, isJailed: bool)
    | CriticalReport(kind: Critical)
    | Unjail(pk: PubKey, accepted: bool)
    | ChainSlash(pk: PubKey)
    | Restart

  /** What the chain may answer: it calls a provider slashed only if it is, and never unjails a
      slashed one. */
  predicate Possible(s: System, a: Step) {
    match a
    case RegisterFails(pk) => pk in s.registering
    case RegisteredEvent(pk) => pk in s.registering
    case MonitorTick(_, isSlashed, _) => s.slot.Occupied? && isSlashed ==> s.slot.pk in s.slashed
    case CriticalReport(kind) => s.slot.Occupied? && kind.SlashedError? ==> s.slot.pk in s.slashed
    case Unjail(pk, accepted) => accepted ==> pk !in s.slashed
    case _ => true
  }

  /** The process ends and starts again: only the database survives. */
  function Rebooted(s: System): System {
    s.(slot := Empty, registering := {})
  }

  /** The status of the instance and of its stored record. */
  function SlotStatus(s: System, st: Status): System
    requires s.slot.Occupied?
  {
    s.(db := s.db[s.slot.pk := st], slot := s.slot.(status := st))
  }

  /** Stopping an instance whose loops were never spawned dereferences a missing poller. */
  predicate RemovalPanics(s: System) {
    s.slot.Occupied? && s.slot.started && !s.slot.loops
  }

  function Removed(s: System): System {
    if RemovalPanics(s) then Rebooted(s) else s.(slot := Empty)
  }

  function StartSlot(s: System, boot: Boot): System
    requires s.slot.Occupied?
  {
    if s.slot.started then s
    else
      var s1 := s.(slot := s.slot.(started := true));
      if s.slot.status.Jailed? then s1
      else match boot
        case BootFails => s1
        case BootJailed => SlotStatus(s1, Jailed)
        case BootSucceeds => s1.(slot := s1.slot.(loops := true))
  }

  /** startFinalityProviderInstance: an occupied slot is started whatever key was asked for. */
  function StartInstance(s: System, pk: PubKey, boot: Boot): System {
    if s.slot.Occupied? then StartSlot(s, boot)
    else if pk !in s.db || !ShouldStart(s.db[pk]) then s
    else StartSlot(s.(slot := Occupied(pk, s.db[pk], false, false)), boot)
  }

  /** One provider in SyncFinalityProviderStatus. */
  function Synced(s: System, pk: PubKey, power: nat, boot: Boot): System {
    if pk !in s.db || (s.slot.Occupied? && s.slot.pk == pk && s.slot.started) then s
    else
      var st := StatusFromPower(power, s.db[pk]);
      var s1 := s.(db := s.db[pk := st]);
      if ShouldStart(st) then StartInstance(s1, pk, boot) else s1
  }

  /** One tick of monitorStatusUpdate. */
  function Ticked(s: System, power: nat, isSlashed: bool, isJailed: bool): System {
    if s.slot.Empty? then s
    else if power > 0 then (if s.slot.status.Active? then s else SlotStatus(s, Active))
    else if isSlashed then Removed(SlotStatus(s, Slashed))
    else if isJailed then Removed(SlotStatus(s, Jailed))
    else if s.slot.status.Active? then SlotStatus(s, Inactive)
    else s
  }

  /** One error handled by monitorCriticalErr; any other error ends the program. */
  function Reported(s: System, kind: Critical): System {
    if s.slot.Empty? then s
    else match kind
      case SlashedError => Removed(SlotStatus(s, Slashed))
      case JailedError => Removed(SlotStatus(s, Jailed))
      case OtherError => Rebooted(s)
  }

  function Next(s: System, a: Step): System {
    match a
    case Create(pk) => if pk in s.db then s else s.(db := s.db[pk := Created])
    case RegisterRequest(pk) =>
      if pk in s.db && s.db[pk].Created? then s.(registering := s.registering + {pk}) else s
    case RegisterFails(pk) => s.(registering := s.registering - {pk})
    case RegisteredEvent(pk) =>
      var s1 := s.(registering := s.registering - {pk});
      if pk in s.db then s1.(db := s.db[pk := Registered]) else s1
    case PowerSync(pk, power, boot) => Synced(s, pk, power, boot)
    case StartRequest(pk, boot) => StartInstance(s, pk, boot)
    case MonitorTick(power, isSlashed, isJailed) => Ticked(s, power, isSlashed, isJailed)
    case CriticalReport(kind) => Reported(s, kind)
    case Unjail(pk, accepted) => if pk in s.db && accepted then s.(db := s.db[pk := Inactive]) else s
    case ChainSlash(pk) => s.(slashed := s.slashed + {pk})
    case Restart => Rebooted(s)
  }

  /** What the steps around registration and restarts change: a new provider is CREATED and an old one
      left alone; a registration is under way exactly after a request that found the provider CREATED,
      until it fails or its event is handled, which makes the provider REGISTERED; a restart keeps the
      database only. */
  lemma RegistrationMeans(s: System, pk: PubKey)
    ensures var c := Next(s, Create(pk));
            pk in c.db && (if pk in s.db then c == s else c.db == s.db[pk := Created] && c.slot == s.slot)
    ensures var r := Next(s, RegisterRequest(pk));
            && r.db == s.db && r.slot == s.slot
            && (pk in r.registering <==> pk in s.registering || (pk in s.db && s.db[pk].Created?))
    ensures var f := Next(s, RegisterFails(pk));
            f.db == s.db && f.slot == s.slot && f.registering == s.registering - {pk}
    ensures var e := Next(s, RegisteredEvent(pk));
            && e.registering == s.registering - {pk} && e.slot == s.slot
            && (pk in s.db ==> e.db == s.db[pk := Registered]) && (pk !in s.db ==> e.db == s.db)
    ensures var x := Next(s, Restart);
            x.db == s.db && x.slot.Empty? && x.registering == {} && x.slashed == s.slashed
  {
  }

  ghost predicate Runs(s: System, steps: seq<Step>)
    decreases |steps|
  {
    steps == [] || (Runs(s, steps[..|steps| - 1]) && Possible(After(s, steps[..|steps| - 1]), steps[|steps| - 1]))
  }

  function After(s: System, steps: seq<Step>): System {
    if steps == [] then s else Next(After(s, steps[..|steps| - 1]), steps[|steps| - 1])
  }

  const BLANK := System(map[], Empty, {}, {})

  // ---------------------------------------------------------------------------------------
  // Invariant

  /** Spawned loops go with a status that allows them, in memory and in the store; a stored
      SLASHED means slashed on chain and leaves no instance behind. */
  ghost predicate Inv(s: System) {
    && (s.slot.Occupied? ==> s.slot.pk in s.db && !s.slot.status.Created? && !s.slot.status.Slashed?
                             && s.slot.started && !s.db[s.slot.pk].Slashed? && !s.db[s.slot.pk].Created?)
    && (s.slot.Occupied? && s.slot.loops ==> ShouldStart(s.slot.status) && ShouldStart(s.db[s.slot.pk]))
    && (forall pk :: pk in s.db && s.db[pk].Slashed? ==> pk in s.slashed)
    && (forall pk :: pk in s.registering ==> pk in s.db)
  }

  lemma StepKeeps(s: System, a: Step)
    requires Inv(s) && Possible(s, a)
    ensures Inv(Next(s, a))
  {
  }

  lemma {:induction false} RunKeeps(steps: seq<Step>)
    requires Runs(BLANK, steps)
    ensures Inv(After(BLANK, steps))
  {
    if steps != [] {
      RunKeeps(steps[..|steps| - 1]);
      StepKeeps(After(BLANK, steps[..|steps| - 1]), steps[|steps| - 1]);
    }
  }

  /** In every run the loops run only under a status that is not CREATED, JAILED or SLASHED,
      whether one looks at the instance or at the store. */
  lemma LoopsNeedAllowedStatus(steps: seq<Step>)
    requires Runs(BLANK, steps)
    ensures var s := After(BLANK, steps);
            s.slot.Occupied? && s.slot.loops ==>
              && s.slot.pk in s.db
              && (forall st :: st == s.slot.status || st == s.db[s.slot.pk] ==>
                    !st.Created? && !st.Jailed? && !st.Slashed?)
  {
    RunKeeps(steps);
  }

  /** CREATED is never re-entered and no provider disappears. */
  lemma {:induction false} CreatedIsNeverReentered(steps: seq<Step>, i: nat, pk: PubKey)
    requires Runs(BLANK, steps) && i <= |steps|
    requires pk in After(BLANK, steps[..i]).db && !After(BLANK, steps[..i]).db[pk].Created?
    ensures pk in After(BLANK, steps).db && !After(BLANK, steps).db[pk].Created?
    decreases |steps|
  {
    if i == |steps| {
      assert steps[..i] == steps;
    } else {
      var front := steps[..|steps| - 1];
      assert front[..i] == steps[..i];
      CreatedIsNeverReentered(front, i, pk);
      RunKeeps(front);
      StaysBeyondCreated(After(BLANK, front), steps[|steps| - 1], pk);
    }
  }

  lemma StaysBeyondCreated(s: System, a: Step, pk: PubKey)
    requires Inv(s) && pk in s.db && !s.db[pk].Created?
    ensures pk in Next(s, a).db && !Next(s, a).db[pk].Created?
  {
  }

  /** A provider stored as SLASHED leaves that status exactly when a registration event of the
      same provider is handled late. */
  lemma SlashedLeftIff(s: System, a: Step, pk: PubKey)
    requires Inv(s) && Possible(s, a) && pk in s.db && s.db[pk].Slashed?
    ensures pk in Next(s, a).db
    ensures !Next(s, a).db[pk].Slashed? <==> a == RegisteredEvent(pk)
  {
  }

  ghost predicate SlashedAt(steps: seq<Step>, j: nat, pk: PubKey)
    requires j <= |steps|
  {
    pk in After(BLANK, steps[..j]).db && After(BLANK, steps[..j]).db[pk].Slashed?
  }

  /** From the moment a provider is stored as SLASHED it stays so throughout the run if and only if
      no registration event of the provider is handled any more. */
  lemma {:induction false} SlashedStaysIff(steps: seq<Step>, i: nat, pk: PubKey)
    requires Runs(BLANK, steps) && i <= |steps| && SlashedAt(steps, i, pk)
    ensures (forall j :: i <= j <= |steps| ==> SlashedAt(steps, j, pk))
            <==> (forall j :: i <= j < |steps| ==> steps[j] != RegisteredEvent(pk))
    decreases |steps|
  {
    var n := |steps| - 1;
    if i <= n {
      var front := steps[..n];
      assert steps[..n + 1] == steps;
      assert forall j :: 0 <= j <= n ==> front[..j] == steps[..j];
      assert forall j :: i <= j <= n ==> (SlashedAt(front, j, pk) <==> SlashedAt(steps, j, pk));
      assert SlashedAt(front, i, pk);
      SlashedStaysIff(front, i, pk);
      RunKeeps(front);
      if SlashedAt(front, n, pk) {
        SlashedLeftIff(After(BLANK, front), steps[n], pk);
        assert SlashedAt(steps, n + 1, pk) <==> steps[n] != RegisteredEvent(pk);
      }
      assert forall j :: i <= j < n ==> front[j] == steps[j];
    }
  }

  /** Registration events are handled only while the provider is still CREATED. */
  ghost predicate EventsOnTime(steps: seq<Step>, pk: PubKey) {
    forall i :: 0 <= i < |steps| && steps[i] == RegisteredEvent(pk) ==>
      pk in After(BLANK, steps[..i]).db && After(BLANK, steps[..i]).db[pk].Created?
  }

  /** SLASHED is absorbing in every run whose registration events are handled on time. */
  lemma {:induction false} SlashedIsAbsorbing(steps: seq<Step>, i: nat, pk: PubKey)
    requires Runs(BLANK, steps) && i <= |steps| && EventsOnTime(steps, pk)
    requires pk in After(BLANK, steps[..i]).db && After(BLANK, steps[..i]).db[pk].Slashed?
    ensures pk in After(BLANK, steps).db && After(BLANK, steps).db[pk].Slashed?
    decreases |steps|
  {
    if i == |steps| {
      assert steps[..i] == steps;
    } else {
      var n := |steps| - 1;
      var front := steps[..n];
      assert front[..i] == steps[..i];
      assert forall k :: 0 <= k < n ==> front[..k] == steps[..k] && front[k] == steps[k];
      SlashedIsAbsorbing(front, i, pk);
      RunKeeps(front);
      assert steps[n] != RegisteredEvent(pk);
      SlashedLeftIff(After(BLANK, front), steps[n], pk);
    }
  }

  // ---------------------------------------------------------------------------------------
  // The documented status diagram

  /** The arrows of the status diagram. It has no place for CREATED, and it draws REGISTERED and
      INACTIVE as one box. The reading here: the arrows out of the box leave either status, those
      into it reach INACTIVE, because REGISTERED is where a provider begins, and there is no arrow
      inside the box. */
  predicate Documented(from: Status, to: Status) {
    match from
    case Registered => to.Active?
    case Inactive => to.Active?
    case Active => to.Inactive? || to.Jailed? || to.Slashed?
    case Jailed => to.Inactive? || to.Active?
    case _ => false
  }

  /** The instance slot belongs to the provider. */
  predicate Holds(s: System, pk: PubKey) {
    s.slot.Occupied? && s.slot.pk == pk
  }

  /** Found jailed at start-up while neither active nor jailed in the store. */
  predicate JailedWhileStarting(s: System, pk: PubKey, boot: Boot)
    requires pk in s.db
  {
    s.slot.Empty? && boot.BootJailed? && (s.db[pk].Registered? || s.db[pk].Inactive?)
  }

  /** The steps that take a stored provider along no arrow:
      a new provider enters the diagram; a provider that is not active is jailed or slashed; a
      registration event comes late; a provider that was never jailed is unjailed; or the instance
      still counts as active although the store says REGISTERED. */
  predicate Strays(s: System, a: Step, pk: PubKey)
    requires pk in s.db
  {
    var from := s.db[pk];
    match a
    case RegisteredEvent(k) => k == pk && !from.Registered?
    case Unjail(k, accepted) => k == pk && accepted && (from.Created? || from.Registered?)
    case PowerSync(k, _, boot) => k == pk && (from.Created? || JailedWhileStarting(s, pk, boot))
    case StartRequest(k, boot) => k == pk && JailedWhileStarting(s, pk, boot)
    case MonitorTick(power, isSlashed, isJailed) =>
      && Holds(s, pk) && power == 0
      && (if isSlashed then !from.Active?
          else if isJailed then !from.Active? && !from.Jailed?
          else s.slot.status.Active? && from.Registered?)
    case CriticalReport(kind) =>
      && Holds(s, pk)
      && (if kind.SlashedError? then !from.Active? else kind.JailedError? && !from.Active? && !from.Jailed?)
    case _ => false
  }

  /** A step keeps a provider where it is or moves it along a documented arrow, unless it is one of
      the steps listed above. */
  lemma StepFollowsDiagramIff(s: System, a: Step, pk: PubKey)
    requires Inv(s) && Possible(s, a) && pk in s.db
    ensures pk in Next(s, a).db
    ensures Next(s, a).db[pk] == s.db[pk] || Documented(s.db[pk], Next(s, a).db[pk]) <==> !Strays(s, a, pk)
  {
  }

  /** At every step of every run a provider stays put or follows the documented diagram, exactly
      when the step is not one of those that stray. */
  lemma RunFollowsDiagramIff(steps: seq<Step>, pk: PubKey)
    requires Runs(BLANK, steps) && steps != []
    requires pk in After(BLANK, steps[..|steps| - 1]).db
    ensures var m, a := After(BLANK, steps[..|steps| - 1]), steps[|steps| - 1];
            && pk in After(BLANK, steps).db
            && var from, to := m.db[pk], After(BLANK, steps).db[pk];
               from == to || Documented(from, to) <==> !Strays(m, a, pk)
  {
    RunKeeps(steps[..|steps| - 1]);
    StepFollowsDiagramIff(After(BLANK, steps[..|steps| - 1]), steps[|steps| - 1], pk);
  }

  /** A tick or an error that removes an instance frees the slot; if its loops were never spawned the
      program goes down with it, and the registrations under way are forgotten. */
  lemma RemovalMeans(s: System, power: nat, isSlashed: bool, isJailed: bool, kind: Critical)
    requires s.slot.Occupied?
    ensures power == 0 && (isSlashed || isJailed) ==>
              var t := Next(s, MonitorTick(power, isSlashed, isJailed));
              t.slot.Empty? && t.registering == if s.slot.started && !s.slot.loops then {} else s.registering
    ensures !kind.OtherError? ==>
              var t := Next(s, CriticalReport(kind));
              t.slot.Empty? && t.registering == if s.slot.started && !s.slot.loops then {} else s.registering
    ensures kind.OtherError? ==> Next(s, CriticalReport(kind)) == s.(slot := Empty, registering := {})
  {
  }

  // ---------------------------------------------------------------------------------------
  // Witnesses

  lemma Do(steps: seq<Step>, a: Step) returns (steps': seq<Step>)
    requires Runs(BLANK, steps) && Possible(After(BLANK, steps), a)
    ensures steps' == steps + [a] && Runs(BLANK, steps') && After(BLANK, steps') == Next(After(BLANK, steps), a)
  {
    steps' := steps + [a];
    assert steps'[..|steps|] == steps;
  }

  /** A run, all of whose steps come when expected, in which a provider goes from REGISTERED straight
      to JAILED: it is jailed on chain before it was ever seen with voting power. */
  lemma JailedBeforeActive(pk: PubKey) returns (steps: seq<Step>)
    ensures Runs(BLANK, steps) && steps != []
    ensures var m := After(BLANK, steps[..|steps| - 1]); pk in m.db && m.db[pk].Registered?
    ensures var s := After(BLANK, steps); pk in s.db && s.db[pk].Jailed? && !Documented(Registered, s.db[pk])
  {
    steps := Do([], Create(pk));
    steps := Do(steps, PowerSync(pk, 0, BootSucceeds));
    var registered := steps;
    steps := Do(steps, MonitorTick(0, false, true));
    assert steps[..|steps| - 1] == registered;
  }

  /** A run in which a late registration event takes a slashed provider back to REGISTERED, a
      status under which an instance may be started. */
  lemma LateEventRevivesSlashed(pk: PubKey) returns (steps: seq<Step>)
    ensures Runs(BLANK, steps) && steps != []
    ensures var m := After(BLANK, steps[..|steps| - 1]); pk in m.db && m.db[pk].Slashed?
    ensures var s := After(BLANK, steps);
            pk in s.slashed && pk in s.db && s.db[pk] == Registered && ShouldStart(s.db[pk])
  {
    steps := Do([], Create(pk));
    steps := Do(steps, RegisterRequest(pk));
    steps := Do(steps, PowerSync(pk, 5, BootSucceeds));
    steps := Do(steps, ChainSlash(pk));
    steps := Do(steps, CriticalReport(SlashedError));
    var slashedAt := steps;
    steps := Do(steps, RegisteredEvent(pk));
    assert steps[..|steps| - 1] == slashedAt;
  }

  /** After a failed start the next removal panics: the instance counts as started, but it has no
      poller to stop. This happens exactly when start-up did not spawn the loops. */
  lemma FailedStartPanicsOnRemoval(s: System, pk: PubKey, boot: Boot)
    requires s.slot.Empty? && pk in s.db && ShouldStart(s.db[pk])
    ensures RemovalPanics(StartInstance(s, pk, boot)) <==> !boot.BootSucceeds?
  {
  }
}
