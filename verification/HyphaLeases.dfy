/** The generic lease ledger of the `hypha-leases` crate: a timed table of leases. */
module HyphaLeases {
  import opened Wrappers
  import opened HyphaResources

  /** Nanoseconds on the wall clock. */
  type Time = nat

  datatype Lease<T> = Lease(id: Id, leasable: T, timeout: Time)

  datatype LedgerError = LeaseNotFound(id: Id)

  /** Each lease is stored under its own identifier. */
  ghost predicate WellFormed<T>(leases: map<Id, Lease<T>>) {
    forall id :: id in leases ==> leases[id].id == id
  }

  ghost function ExpiredIds<T>(leases: map<Id, Lease<T>>, now: Time): set<Id> {
    set id | id in leases && leases[id].timeout <= now
  }

  ghost predicate Mentions<T>(list: seq<Lease<T>>, id: Id) {
    exists i :: 0 <= i < |list| && list[i].id == id
  }

  lemma MentionsSnoc<T>(list: seq<Lease<T>>, last: Lease<T>)
    ensures forall id :: Mentions(list + [last], id) <==> Mentions(list, id) || id == last.id
  {
    var longer := list + [last];
    assert longer[|list|] == last;
    forall id | Mentions(list, id) ensures Mentions(longer, id) {
      var i :| 0 <= i < |list| && list[i].id == id;
      assert longer[i].id == id;
    }
  }

  /** `list` holds, in some order and once each, the leases stored under `ids`. */
  ghost predicate Lists<T>(list: seq<Lease<T>>, leases: map<Id, Lease<T>>, ids: set<Id>) {
    && (forall i :: 0 <= i < |list| ==> list[i].id in ids && list[i].id in leases && leases[list[i].id] == list[i])
    && (forall i, j :: 0 <= i < j < |list| ==> list[i].id != list[j].id)
    && (forall id :: id in ids ==> Mentions(list, id))
  }

  datatype LedgerOp<T> =
    | InsertOp(id: Id, leasable: T, duration: nat, now: Time)
    | RenewOp(id: Id, duration: nat, now: Time)
    | RemoveOp(id: Id)

  /** The table after one operation. */
  function AfterOp<T>(leases: map<Id, Lease<T>>, op: LedgerOp<T>): map<Id, Lease<T>> {
    match op
    case InsertOp(id, leasable, duration, now) => leases[id := Lease(id, leasable, now + duration)]
    case RenewOp(id, duration, now) =>
      if id in leases then leases[id := leases[id].(timeout := now + duration)] else leases
    case RemoveOp(id) => leases - {id}
  }

  class Ledger<T(==)> {
    var leases: map<Id, Lease<T>>

    constructor ()
      ensures leases == map[]
    {
      leases := map[];
    }

    /** `id` is the fresh identifier of the new lease, `now` the clock reading. */
    method Insert(leasable: T, duration: nat, now: Time, id: Id) returns (lease: Lease<T>)
      requires id !in leases
      modifies this
      ensures lease == Lease(id, leasable, now + duration)
      ensures leases == old(leases)[id := lease] == AfterOp(old(leases), InsertOp(id, leasable, duration, now))
    {
      lease := Lease(id, leasable, now + duration);
      leases := leases[id := lease];
    }

    method Get(id: Id) returns (result: Result<Lease<T>, LedgerError>)
      ensures result == if id in leases then Ok(leases[id]) else Err(LeaseNotFound(id))
    {
      result := if id in leases then Ok(leases[id]) else Err(LeaseNotFound(id));
    }

    method Remove(id: Id) returns (result: Result<Lease<T>, LedgerError>)
      modifies this
      ensures result == if id in old(leases) then Ok(old(leases)[id]) else Err(LeaseNotFound(id))
      ensures leases == old(leases) - {id} == AfterOp(old(leases), RemoveOp(id))
    {
      if id !in leases {
        return Err(LeaseNotFound(id));
      }
      result := Ok(leases[id]);
      leases := leases - {id};
    }

    /** The new timeout counts from `now`; the old one is discarded. */
    method Renew(id: Id, duration: nat, now: Time) returns (result: Result<Lease<T>, LedgerError>)
      modifies this
      ensures id !in old(leases) ==> result == Err(LeaseNotFound(id)) && leases == old(leases)
      ensures id in old(leases) ==>
                && result == Ok(old(leases)[id].(timeout := now + duration))
                && leases == old(leases)[id := result.value]
      ensures leases == AfterOp(old(leases), RenewOp(id, duration, now))
    {
      if id !in leases {
        return Err(LeaseNotFound(id));
      }
      var lease := leases[id].(timeout := now + duration);
      leases := leases[id := lease];
      result := Ok(lease);
    }

    method List() returns (all: seq<Lease<T>>)
      requires WellFormed(leases)
      ensures Lists(all, leases, leases.Keys)
    {
      all := Collect(leases.Keys);
    }

    method ListExpired(now: Time) returns (expired: seq<Lease<T>>)
      requires WellFormed(leases)
      ensures Lists(expired, leases, ExpiredIds(leases, now))
    {
      var ids := set id | id in leases && leases[id].timeout <= now;
      expired := Collect(ids);
    }

    /** Copies the leases stored under `ids`, in the table's arbitrary order. */
    method Collect(ids: set<Id>) returns (list: seq<Lease<T>>)
      requires WellFormed(leases) && ids <= leases.Keys
      ensures Lists(list, leases, ids)
    {
      list := [];
      var rest := ids;
      while rest != {}
        invariant rest <= ids
        invariant Lists(list, leases, ids - rest)
        decreases rest
      {
        var id :| id in rest;
        ghost var done := ids - rest;
        MentionsSnoc(list, leases[id]);
        list, rest := list + [leases[id]], rest - {id};
        assert forall other :: other in ids - rest ==> other == id || other in done;
      }
      assert ids - rest == ids;
    }
  }
}
