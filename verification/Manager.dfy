/**
 The manager and app operations that change statuses, on the store and the instance slot.
 */
module Manager {
  import opened Providers
  import opened StatusMachine

  /** A freed slot, no instance to remove, or the program going down with the removal. */
  datatype Removal = Freed | NoInstance | Panicked

  class FinalityProviderManager {
    const store: FinalityProviderStore
    var slot: Slot

    constructor (store: FinalityProviderStore)
      ensures this.store == store && slot == Empty
    {
      this.store := store;
      slot := Empty;
    }

    ghost function Statuses(): map<PubKey, Status>
      reads store
    {
      map pk | pk in store.db :: store.db[pk].status
    }

    /** The system state, for given registrations in progress and slashed keys. */
    ghost function View(registering: set<PubKey>, slashed: set<PubKey>): System
      reads this, store
    {
      System(Statuses(), slot, registering, slashed)
    }

    /** The instance slot names a stored provider, and loops run only in a started instance. */
    ghost predicate Valid()
      reads this, store
    {
      slot.Occupied? ==> slot.pk in store.db && (slot.loops ==> slot.started)
    }

    method SetSlotStatus(st: Status)
      requires Valid() && slot.Occupied?
      modifies this`slot, store
      ensures Valid() && slot == old(slot).(status := st)
      ensures Statuses() == old(Statuses())[slot.pk := st] && store.db[slot.pk].status == st
      ensures forall k :: k in store.db ==> k in old(store.db) && store.db[k].Heights() == old(store.db)[k].Heights()
    {
      slot := slot.(status := st);
      var _ := store.SetFpStatus(slot.pk, st);
    }

    /** removeFinalityProviderInstance */
    method RemoveInstance() returns (r: Removal)
      modifies this`slot
      ensures slot == Empty
      ensures r.NoInstance? <==> old(slot).Empty?
      ensures r.Panicked? <==> old(slot).Occupied? && old(slot).started && !old(slot).loops
    {
      if slot.Empty? {
        return NoInstance;
      }
      if slot.started && !slot.loops {
        slot := Empty;
        return Panicked;
      }
      slot := Empty;
      return Freed;
    }

    method StartSlot(boot: Boot) returns (ok: bool)
      requires Valid() && slot.Occupied?
      modifies this`slot, store
      ensures Valid()
      ensures forall r, sl :: View(r, sl) == StatusMachine.StartSlot(old(View(r, sl)), boot)
      ensures slot.Occupied? && (ok <==> slot.loops && !old(slot.started))
      ensures ok <==> !old(slot.started) && !old(slot.status).Jailed? && boot.BootSucceeds?
      ensures slot.started && slot.pk == old(slot.pk)
      ensures var found := !old(slot.started) && !old(slot.status).Jailed? && boot.BootJailed?;
              && slot.status == (if found then Jailed else old(slot.status))
              && store.db[slot.pk].status == (if found then Jailed else old(store.db)[slot.pk].status)
    {
      if slot.started {
        return false;
      }
      slot := slot.(started := true);
      if slot.status.Jailed? {
        return false;
      }
      match boot {
        case BootFails => return false;
        case BootJailed =>
          SetSlotStatus(Jailed);
          return false;
        case BootSucceeds =>
          slot := slot.(loops := true);
          return true;
      }
    }

    method StartInstance(pk: PubKey, boot: Boot) returns (ok: bool)
      requires Valid()
      modifies this`slot, store
      ensures Valid()
      ensures forall r, sl :: View(r, sl) == StatusMachine.StartInstance(old(View(r, sl)), pk, boot)
      ensures ok <==> slot.Occupied? && slot.loops && (old(slot).Empty? || !old(slot).started)
      ensures old(slot).Occupied? ==> slot.Occupied? && slot.pk == old(slot).pk
      ensures old(slot).Empty? ==>
                (if pk in old(store.db) && ShouldStart(old(store.db)[pk].status)
                 then slot.Occupied? && slot.pk == pk && slot.started && slot.loops == boot.BootSucceeds?
                 else slot.Empty? && Statuses() == old(Statuses()))
    {
      if slot.Empty? {
        if pk !in store.db || !ShouldStart(store.db[pk].status) {
          return false;
        }
        slot := Occupied(pk, store.db[pk].status, false, false);
      }
      ok := StartSlot(boot);
    }

    /** One provider in SyncFinalityProviderStatus. */
    method SyncProvider(pk: PubKey, power: nat, boot: Boot) returns (running: bool)
      requires Valid()
      modifies this`slot, store
      ensures Valid()
      ensures forall r, sl :: View(r, sl) == Synced(old(View(r, sl)), pk, power, boot)
      ensures running <==>
                pk in old(store.db) &&
                (if Holds(old(View({}, {})), pk) && old(slot).started then true
                 else ShouldStart(StatusFromPower(power, old(store.db)[pk].status)) && slot.Occupied? && slot.loops
                      && (old(slot).Empty? || !old(slot).started))
      ensures pk !in old(store.db) || (Holds(old(View({}, {})), pk) && old(slot).started) ==>
                Statuses() == old(Statuses()) && slot == old(slot)
    {
      if pk !in store.db {
        return false;
      }
      if slot.Occupied? && slot.pk == pk && slot.started {
        return true;
      }
      var known := store.db[pk].status;
      var st, _ := store.UpdateFpStatusFromVotingPower(power, pk, known);
      assert Statuses() == old(Statuses())[pk := st];
      if !ShouldStart(st) {
        return false;
      }
      running := StartInstance(pk, boot);
    }

    /** One tick of monitorStatusUpdate. */
    method MonitorTick(power: nat, isSlashed: bool, isJailed: bool) returns (panicked: bool)
      requires Valid()
      modifies this`slot, store
      ensures Valid()
      ensures !panicked ==> forall r, sl :: View(r, sl) == Ticked(old(View(r, sl)), power, isSlashed, isJailed)
      ensures panicked <==> RemovalPanics(old(View({}, {}))) && power == 0 && (isSlashed || isJailed)
      ensures Statuses() == Ticked(old(View({}, {})), power, isSlashed, isJailed).db
      ensures old(slot).Empty? ==> slot.Empty? && Statuses() == old(Statuses())
      ensures old(slot).Occupied? ==>
                var pk := old(slot).pk;
                && pk in store.db
                && (power > 0 && !old(slot).status.Active? ==> store.db[pk].status.Active?)
                && (power > 0 ==> slot.Occupied? && slot.status.Active?)
                && (power == 0 && isSlashed ==> store.db[pk].status.Slashed? && slot.Empty?)
                && (power == 0 && !isSlashed && isJailed ==> store.db[pk].status.Jailed? && slot.Empty?)
                && (power == 0 && !isSlashed && !isJailed && old(slot).status.Active? ==>
                      store.db[pk].status.Inactive? && slot.status.Inactive?)
                && (power == 0 && !isSlashed && !isJailed && !old(slot).status.Active? ==>
                      Statuses() == old(Statuses()) && slot == old(slot))
      ensures forall k :: k in store.db ==> k in old(store.db) && store.db[k].Heights() == old(store.db)[k].Heights()
    {
      panicked := false;
      if slot.Empty? {
        return;
      }
      var oldStatus := slot.status;
      if power > 0 {
        if !oldStatus.Active? {
          SetSlotStatus(Active);
        }
        return;
      }
      if isSlashed {
        panicked := Terminate(slot.pk, Slashed);
        return;
      }
      if isJailed {
        panicked := Terminate(slot.pk, Jailed);
        return;
      }
      if oldStatus.Active? {
        SetSlotStatus(Inactive);
      }
    }

    /** One error handled by monitorCriticalErr. Without an instance it is ignored; an error that is
        neither slashing nor jailing ends the program. */
    method HandleCriticalError(kind: Critical) returns (down: bool)
      requires Valid()
      modifies this`slot, store
      ensures Valid()
      ensures !down ==> forall r, sl :: View(r, sl) == Reported(old(View(r, sl)), kind)
      ensures down <==> old(slot.Occupied?) && (kind.OtherError? || RemovalPanics(old(View({}, {}))))
      ensures down ==> Statuses() == Reported(old(View({}, {})), kind).db
      ensures old(slot).Empty? ==> slot.Empty? && Statuses() == old(Statuses())
      ensures old(slot).Occupied? ==>
                var pk := old(slot).pk;
                && pk in store.db
                && (kind.SlashedError? ==> store.db[pk].status.Slashed? && slot.Empty?)
                && (kind.JailedError? ==> store.db[pk].status.Jailed? && slot.Empty?)
                && (kind.OtherError? ==> Statuses() == old(Statuses()))
    {
      if slot.Empty? {
        return false;
      }
      match kind {
        case SlashedError => down := Terminate(slot.pk, Slashed);
        case JailedError => down := Terminate(slot.pk, Jailed);
        case OtherError => down := true;
      }
    }

    /** The registered event in the app's event loop. */
    method HandleRegistered(pk: PubKey) returns (ok: bool)
      requires Valid()
      modifies store
      ensures Valid()
      ensures ok <==> pk in old(store.db)
      ensures ok ==> pk in store.db && store.db[pk].status.Registered?
      ensures forall r, sl :: View(r - {pk}, sl) == StatusMachine.Next(old(View(r, sl)), RegisteredEvent(pk))
    {
      var o := store.SetFpStatus(pk, Registered);
      assert pk in old(store.db) ==> Statuses() == old(Statuses())[pk := Registered];
      ok := o.Done?;
    }

    /** setFinalityProviderSlashed and setFinalityProviderJailed for the instance of pk, read from
        the slot earlier: record, stop, remove. The slot may have been emptied since, or hold another
        instance; an empty one panics. */
    method Terminate(pk: PubKey, st: Status) returns (panicked: bool)
      requires Valid() && pk in store.db
      modifies this`slot, store
      ensures Valid()
      ensures panicked <==> old(slot).Empty? || RemovalPanics(old(View({}, {})))
      ensures slot == Empty && Statuses() == old(Statuses())[pk := st]
      ensures pk in store.db && store.db[pk].status == st
      ensures forall k :: k in store.db ==> k in old(store.db) && store.db[k].Heights() == old(store.db)[k].Heights()
    {
      var _ := store.SetFpStatus(pk, st);
      var r := RemoveInstance();
      panicked := !r.Freed?;
    }

    /** UnjailFinalityProvider: only the stored status changes. */
    method Unjail(pk: PubKey, accepted: bool) returns (ok: bool)
      requires Valid()
      modifies store
      ensures Valid()
      ensures ok <==> pk in old(store.db) && accepted
      ensures ok ==> pk in store.db && store.db[pk].status.Inactive?
      ensures forall r, sl :: View(r, sl) == StatusMachine.Next(old(View(r, sl)), StatusMachine.Unjail(pk, accepted))
    {
      if pk !in store.db || !accepted {
        return false;
      }
      var _ := store.SetFpStatus(pk, Inactive);
      assert Statuses() == old(Statuses())[pk := Inactive];
      return true;
    }
  }
}
