/**
 The worker's lease manager: every lease in the ledger holds one reservation of
 the resource manager. This module is the manager seen by a single caller; the
 module LeaseProtocol interleaves its lock-held sections.
 */
module LeaseManager {
  import opened Common
  import opened Wrappers
  import opened HyphaResources
  import opened WorkerResources
  import opened HyphaLeases

  datatype ResourceLease = ResourceLease(peer: PeerId, reservation: Id)

  type Leases = map<Id, Lease<ResourceLease>>

  datatype LeaseError = ResourcesReservation(cause: ResourceManagerError) | LedgerFailure(reason: LedgerError)

  /** The reservations held by the leases stored under `ids`. */
  ghost function Held(leases: Leases, ids: set<Id>): set<Id> {
    set id | id in ids && id in leases :: leases[id].leasable.reservation
  }

  /** Leases hold exactly the reservations that exist, each lease its own. */
  ghost predicate Linked(reservations: map<Id, Resources>, leases: Leases) {
    && WellFormed(leases)
    && reservations.Keys == Held(leases, leases.Keys)
    && (forall a, b :: a in leases && b in leases && leases[a].leasable.reservation == leases[b].leasable.reservation
                       ==> a == b)
  }

  /** Dropping leases together with their reservations keeps the rest linked. */
  lemma LinkedWithout(reservations: map<Id, Resources>, leases: Leases, ids: set<Id>)
    requires Linked(reservations, leases)
    ensures Linked(reservations - Held(leases, ids), leases - ids)
  {
    var rest, kept := reservations - Held(leases, ids), leases - ids;
    forall r ensures r in rest.Keys <==> r in Held(kept, kept.Keys) {
      if r in reservations.Keys {
        var id :| id in leases && leases[id].leasable.reservation == r;
        assert id in kept <==> r !in Held(leases, ids);
      }
    }
  }

  lemma DropOne(reservations: map<Id, Resources>, leases: Leases, gone: set<Id>, id: Id)
    requires id in leases && id !in gone
    ensures leases - gone - {id} == leases - (gone + {id})
    ensures reservations - Held(leases, gone) - Held(leases - gone, {id}) == reservations - Held(leases, gone + {id})
  {
    assert Held(leases - gone, {id}) == {leases[id].leasable.reservation};
    assert Held(leases, gone + {id}) == Held(leases, gone) + {leases[id].leasable.reservation};
  }

  class ResourceLeaseManager {
    const resourceManager: StaticResourceManager
    const ledger: Ledger<ResourceLease>

    ghost predicate Valid()
      reads resourceManager, ledger
    {
      Linked(resourceManager.reservations, ledger.leases)
    }

    constructor (resourceManager: StaticResourceManager)
      requires resourceManager.reservations == map[]
      ensures this.resourceManager == resourceManager && fresh(ledger)
      ensures Valid() && ledger.leases == map[]
    {
      this.resourceManager := resourceManager;
      ledger := new Ledger();
    }

    /** `reservation` and `id` are the fresh identifiers drawn for this request. */
    method Request(peer: PeerId, request: Resources, duration: nat, now: Time, reservation: Id, id: Id)
      returns (result: Result<Lease<ResourceLease>, LeaseError>)
      requires Valid() && reservation !in resourceManager.reservations && id !in ledger.leases
      modifies resourceManager, ledger
      ensures Valid()
      ensures result ==
              if AtMost(request, Available(resourceManager.capacity, old(resourceManager.reservations)))
              then Ok(Lease(id, ResourceLease(peer, reservation), now + duration))
              else Err(ResourcesReservation(InsufficientResources))
      ensures result.Ok? ==>
                && resourceManager.reservations == old(resourceManager.reservations)[reservation := request]
                && ledger.leases == old(ledger.leases)[id := result.value]
      ensures result.Err? ==>
                && resourceManager.reservations == old(resourceManager.reservations)
                && ledger.leases == old(ledger.leases)
    {
      var reserved := resourceManager.Reserve(request, reservation);
      if reserved.Err? {
        return Err(ResourcesReservation(reserved.error));
      }
      var lease := ledger.Insert(ResourceLease(peer, reserved.value), duration, now, id);
      assert ledger.leases - {id} == old(ledger.leases);
      assert forall other :: other in ledger.leases <==> other == id || other in old(ledger.leases);
      result := Ok(lease);
    }

    method Get(id: Id) returns (result: Result<Lease<ResourceLease>, LeaseError>)
      ensures result == if id in ledger.leases then Ok(ledger.leases[id]) else Err(LedgerFailure(LeaseNotFound(id)))
    {
      var found := ledger.Get(id);
      result := match found case Ok(lease) => Ok(lease) case Err(e) => Err(LedgerFailure(e));
    }

    /** Some lease of the peer, whichever the table yields first; `dummy` fills the error. */
    method GetByPeer(peer: PeerId, dummy: Id) returns (result: Result<Lease<ResourceLease>, LeaseError>)
      requires Valid()
      ensures result.Ok? <==> exists id :: id in ledger.leases && ledger.leases[id].leasable.peer == peer
      ensures result.Ok? ==>
                && result.value.leasable.peer == peer
                && result.value.id in ledger.leases && ledger.leases[result.value.id] == result.value
      ensures result.Err? ==> result.error == LedgerFailure(LeaseNotFound(dummy))
    {
      var all := ledger.List();
      for i := 0 to |all|
        invariant forall j :: 0 <= j < i ==> all[j].leasable.peer != peer
      {
        if all[i].leasable.peer == peer {
          return Ok(all[i]);
        }
      }
      forall id | id in ledger.leases ensures ledger.leases[id].leasable.peer != peer {
        assert Mentions(all, id);
      }
      result := Err(LedgerFailure(LeaseNotFound(dummy)));
    }

    /** Removes the lease, then releases what it held; a missing reservation is reported. */
    method Remove(id: Id) returns (result: Result<Lease<ResourceLease>, LeaseError>)
      modifies resourceManager, ledger
      ensures result ==
              if id !in old(ledger.leases) then Err(LedgerFailure(LeaseNotFound(id)))
              else if old(ledger.leases)[id].leasable.reservation in old(resourceManager.reservations)
              then Ok(old(ledger.leases)[id])
              else Err(ResourcesReservation(UnknownReservation))
      ensures ledger.leases == old(ledger.leases) - {id}
      ensures resourceManager.reservations ==
              old(resourceManager.reservations) - Held(old(ledger.leases), {id})
      ensures old(Valid()) ==> Valid() && (id in old(ledger.leases) ==> result.Ok?)
    {
      ghost var reservations, leases := resourceManager.reservations, ledger.leases;
      var removed := ledger.Remove(id);
      if removed.Err? {
        assert Held(leases, {id}) == {} && leases - {id} == leases && reservations - {} == reservations;
        return Err(LedgerFailure(removed.error));
      }
      var lease := removed.value;
      assert Held(leases, {id}) == {lease.leasable.reservation};
      if Linked(reservations, leases) {
        LinkedWithout(reservations, leases, {id});
        assert lease.leasable.reservation in Held(leases, leases.Keys);
      }
      var released := resourceManager.Release(lease.leasable.reservation);
      if released.Err? {
        return Err(ResourcesReservation(released.error));
      }
      result := Ok(lease);
    }

    method Renew(id: Id, duration: nat, now: Time) returns (result: Result<Lease<ResourceLease>, LeaseError>)
      requires Valid()
      modifies ledger
      ensures Valid()
      ensures id !in old(ledger.leases) ==>
                result == Err(LedgerFailure(LeaseNotFound(id))) && ledger.leases == old(ledger.leases)
      ensures id in old(ledger.leases) ==>
                && result == Ok(old(ledger.leases)[id].(timeout := now + duration))
                && ledger.leases == old(ledger.leases)[id := result.value]
    {
      ghost var leases := ledger.leases;
      var renewed := ledger.Renew(id, duration, now);
      assert Held(ledger.leases, ledger.leases.Keys) == Held(leases, leases.Keys) by {
        assert ledger.leases.Keys == leases.Keys;
        assert forall other :: other in leases ==> ledger.leases[other].leasable == leases[other].leasable;
      }
      result := match renewed case Ok(lease) => Ok(lease) case Err(e) => Err(LedgerFailure(e));
    }

    /** Removes every expired lease, releasing its reservation, and returns them. */
    method Proceed(now: Time) returns (result: Result<seq<Lease<ResourceLease>>, LeaseError>)
      requires Valid()
      modifies resourceManager, ledger
      ensures Valid()
      ensures result.Ok? && Lists(result.value, old(ledger.leases), ExpiredIds(old(ledger.leases), now))
      ensures ledger.leases == old(ledger.leases) - ExpiredIds(old(ledger.leases), now)
      ensures resourceManager.reservations ==
              old(resourceManager.reservations) - Held(old(ledger.leases), ExpiredIds(old(ledger.leases), now))
    {
      ghost var reservations, leases := resourceManager.reservations, ledger.leases;
      var expired := ledger.ListExpired(now);
      var removed: seq<Lease<ResourceLease>> := [];
      ghost var gone: set<Id> := {};
      for i := 0 to |expired|
        invariant Valid() && removed == expired[..i]
        invariant forall id :: id in gone <==> Mentions(expired[..i], id)
        invariant ledger.leases == leases - gone
        invariant resourceManager.reservations == reservations - Held(leases, gone)
      {
        var outcome := Remove(expired[i].id);
        match outcome {
          case Ok(lease) => removed := removed + [lease];
          // Neither failure occurs unless another task runs in between; see LeaseProtocol.
          case Err(LedgerFailure(_)) => assert false;
          case Err(_) => assert false;
        }
        DropOne(reservations, leases, gone, expired[i].id);
        gone := gone + {expired[i].id};
        assert expired[..i + 1] == expired[..i] + [expired[i]];
        MentionsSnoc(expired[..i], expired[i]);
      }
      assert expired[..|expired|] == expired;
      assert gone == ExpiredIds(leases, now) by {
        forall id | id in ExpiredIds(leases, now) ensures id in gone {
          assert Mentions(expired, id);
        }
      }
      assert removed == expired;
      result := Ok(removed);
    }
  }
}
