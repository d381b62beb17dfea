/**
 The finality-provider database, the status rules, and the in-memory state adapter over it.
 */
module Providers {
  import opened Progress

  type PubKey = nat

  datatype Status = Created | Registered | Active | Inactive | Slashed | Jailed

  /** Whether an instance may be started for a provider with the given stored status. */
  predicate ShouldStart(s: Status) {
    !s.Created? && !s.Slashed? && !s.Jailed?
  }

  datatype Record = Record(status: Status, voted: nat, processed: nat) {
    function Heights(): Heights {
      Progress.Heights(voted, processed)
    }
  }

  datatype StoreError = NotFound | Duplicate

  datatype Outcome = Done | Failed(error: StoreError)

  /** Status chosen from the voting power at the chain tip. */
  function StatusFromPower(power: nat, s: Status): (r: Status)
    ensures !r.Created?
    ensures s.Slashed? ==> r.Slashed?
    ensures s.Jailed? ==> r.Jailed? || (r.Active? && power > 0)
    ensures r.Slashed? ==> s.Slashed?
    ensures r.Active? <==> !s.Slashed? && power > 0
    ensures power == 0 && s.Active? ==> r.Inactive?
    ensures power == 0 && s.Created? ==> r.Registered?
    ensures power == 0 && !s.Active? && !s.Created? ==> r == s
  {
    if s.Slashed? then Slashed
    else if power > 0 then Active
    else match s
      case Created => Registered
      case Active => Inactive
      case _ => s
  }

  class FinalityProviderStore {
    var db: map<PubKey, Record>

    constructor ()
      ensures db == map[]
    {
      db := map[];
    }

    method CreateFinalityProvider(pk: PubKey) returns (r: Outcome)
      modifies this
      ensures r == (if pk in old(db) then Failed(Duplicate) else Done)
      ensures db == if pk in old(db) then old(db) else old(db)[pk := Record(Created, 0, 0)]
    {
      if pk in db {
        return Failed(Duplicate);
      }
      db := db[pk := Record(Created, 0, 0)];
      return Done;
    }

    /** One read-modify-write transaction on the record of pk. */
    method SetState(pk: PubKey, transition: Record -> Record) returns (r: Outcome)
      modifies this
      ensures r == (if pk in old(db) then Done else Failed(NotFound))
      ensures db == if pk in old(db) then old(db)[pk := transition(old(db)[pk])] else old(db)
    {
      if pk !in db {
        return Failed(NotFound);
      }
      db := db[pk := transition(db[pk])];
      return Done;
    }

    method SetFpStatus(pk: PubKey, s: Status) returns (r: Outcome)
      modifies this
      ensures r == (if pk in old(db) then Done else Failed(NotFound))
      ensures db == if pk in old(db) then old(db)[pk := old(db)[pk].(status := s)] else old(db)
    {
      r := SetState(pk, (fp: Record) => fp.(status := s));
    }

    method SetFpLastVotedHeight(pk: PubKey, h: nat) returns (r: Outcome)
      modifies this
      ensures r == (if pk in old(db) then Done else Failed(NotFound))
      ensures db.Keys == old(db).Keys
      ensures forall k :: k in db && k != pk ==> db[k] == old(db)[k]
      ensures pk in db ==> db[pk].status == old(db)[pk].status
                           && db[pk].Heights() == Raise(old(db)[pk].Heights(), MarkVoted(h))
    {
      r := SetState(pk, (fp: Record) =>
        var fp1 := if fp.voted < h then fp.(voted := h) else fp;
        if fp1.processed < h then fp1.(processed := h) else fp1);
    }

    method SetFpLastProcessedHeight(pk: PubKey, h: nat) returns (r: Outcome)
      modifies this
      ensures r == (if pk in old(db) then Done else Failed(NotFound))
      ensures db.Keys == old(db).Keys
      ensures forall k :: k in db && k != pk ==> db[k] == old(db)[k]
      ensures pk in db ==> db[pk].status == old(db)[pk].status
                           && db[pk].Heights() == Raise(old(db)[pk].Heights(), MarkProcessed(h))
    {
      r := SetState(pk, (fp: Record) => if fp.processed < h then fp.(processed := h) else fp);
    }

    /** The provider passed in may be stale, so its status is a parameter of its own. */
    method UpdateFpStatusFromVotingPower(power: nat, pk: PubKey, known: Status) returns (s: Status, r: Outcome)
      modifies this
      ensures s == StatusFromPower(power, known)
      ensures r == if pk !in old(db) && !known.Slashed? && (power > 0 || known.Created? || known.Active?)
                   then Failed(NotFound) else Done
      ensures db == if pk in old(db) && (s != known || (power > 0 && !known.Slashed?))
                    then old(db)[pk := old(db)[pk].(status := s)] else old(db)
    {
      if known.Slashed? {
        return Slashed, Done;
      }
      if power > 0 {
        r := SetFpStatus(pk, Active);
        return Active, r;
      }
      match known {
        case Created =>
          r := SetFpStatus(pk, Registered);
          return Registered, r;
        case Active =>
          r := SetFpStatus(pk, Inactive);
          return Inactive, r;
        case _ =>
          return known, Done;
      }
    }
  }

  /** The in-memory record of one provider over its store. */
  class FpState {
    var fp: Record
    const pk: PubKey
    const store: FinalityProviderStore

    ghost predicate Valid()
      reads this, store
    {
      pk in store.db
    }

    ghost function Copies(): Copies
      requires Valid()
      reads this, store
    {
      Progress.Copies(fp.Heights(), store.db[pk].Heights())
    }

    constructor (pk: PubKey, store: FinalityProviderStore)
      requires pk in store.db
      ensures this.pk == pk && this.store == store && Valid()
      ensures fp == store.db[pk]
      ensures Copies() == Reload(Copies())
    {
      this.pk := pk;
      this.store := store;
      this.fp := store.db[pk];
    }

    method SetStatus(s: Status)
      requires Valid()
      modifies this`fp, store
      ensures Valid() && Copies() == old(Copies())
      ensures fp.status == s && store.db[pk].status == s
      ensures store.db == old(store.db)[pk := old(store.db)[pk].(status := s)]
    {
      fp := fp.(status := s);
      var _ := store.SetFpStatus(pk, s);
    }

    method SetLastProcessedHeight(h: nat)
      requires Valid()
      modifies this`fp, store
      ensures Valid() && Copies() == Put(old(Copies()), MarkProcessed(h))
      ensures fp.status == old(fp.status) && store.db[pk].status == old(store.db[pk].status)
      ensures store.db.Keys == old(store.db).Keys
      ensures forall k :: k in store.db && k != pk ==> store.db[k] == old(store.db)[k]
    {
      fp := fp.(processed := h);
      var _ := store.SetFpLastProcessedHeight(pk, h);
    }

    method SetLastProcessedAndVotedHeight(h: nat)
      requires Valid()
      modifies this`fp, store
      ensures Valid() && Copies() == Put(old(Copies()), MarkVoted(h))
      ensures fp.status == old(fp.status) && store.db[pk].status == old(store.db[pk].status)
      ensures store.db.Keys == old(store.db).Keys
      ensures forall k :: k in store.db && k != pk ==> store.db[k] == old(store.db)[k]
    {
      fp := fp.(voted := h, processed := h);
      var _ := store.SetFpLastVotedHeight(pk, h);
    }
  }

  datatype Loaded = Loaded(state: FpState) | NoRecord | NotAllowed(status: Status)

  /** NewFinalityProviderInstance: the memory of a new instance is read from the store; without a
      record, or with a status that does not allow a start, there is no instance. */
  method NewInstanceState(pk: PubKey, store: FinalityProviderStore) returns (r: Loaded)
    ensures r.NoRecord? <==> pk !in store.db
    ensures r.NotAllowed? <==>
              pk in store.db &&
              (store.db[pk].status.Created? || store.db[pk].status.Slashed? || store.db[pk].status.Jailed?)
    ensures r.NotAllowed? ==> r.status == store.db[pk].status
    ensures r.Loaded? ==>
              && fresh(r.state) && r.state.pk == pk && r.state.store == store && r.state.Valid()
              && r.state.fp == store.db[pk] && r.state.Copies() == Reload(r.state.Copies())
    ensures unchanged(store)
  {
    if pk !in store.db {
      return NoRecord;
    }
    if !ShouldStart(store.db[pk].status) {
      return NotAllowed(store.db[pk].status);
    }
    var state := new FpState(pk, store);
    return Loaded(state);
  }
}
