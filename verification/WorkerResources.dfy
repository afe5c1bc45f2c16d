/**
 The worker's resource manager: a fixed capacity and a table of reservations,
 changed only under its lock.
 */
module WorkerResources {
  import opened Wrappers
  import opened HyphaResources

  datatype ResourceManagerError = InsufficientResources | UnknownReservation

  /** What the reservations leave of the capacity. */
  ghost function Available(capacity: Resources, reservations: map<Id, Resources>): Resources {
    capacity.Sub(Total(reservations))
  }

  class StaticResourceManager {
    const capacity: Resources
    var reservations: map<Id, Resources>

    constructor (capacity: Resources)
      ensures this.capacity == capacity && reservations == map[]
    {
      this.capacity := capacity;
      reservations := map[];
    }

    method ComputeResources() returns (available: Resources)
      ensures available == Available(capacity, reservations)
    {
      var sum, rest := ZERO, reservations;
      while rest != map[]
        invariant sum.Add(Total(rest)) == Total(reservations)
        decreases |rest|
      {
        var id :| id in rest;
        TotalExtract(rest, id);
        sum, rest := sum.Add(rest[id]), rest - {id};
      }
      available := capacity.Sub(sum);
    }

    /** `id` is the fresh identifier the manager draws when it grants. */
    method Reserve(request: Resources, id: Id) returns (result: Result<Id, ResourceManagerError>)
      requires id !in reservations
      modifies this
      ensures result == if AtMost(request, Available(capacity, old(reservations)))
                        then Ok(id) else Err(InsufficientResources)
      ensures reservations == if result.Ok? then old(reservations)[id := request] else old(reservations)
    {
      var available := ComputeResources();
      ComparisonIsProductOrder(available, request);
      if Geq(available, request) {
        // The write lock is taken here; another task may have reserved in between.
        var currentAvailable := ComputeResources();
        if Geq(currentAvailable, request) {
          reservations := reservations[id := request];
          return Ok(id);
        }
      }
      result := Err(InsufficientResources);
    }

    method Release(id: Id) returns (result: Result<Resources, ResourceManagerError>)
      modifies this
      ensures result == if id in old(reservations) then Ok(old(reservations)[id]) else Err(UnknownReservation)
      ensures reservations == old(reservations) - {id}
    {
      if id in reservations {
        result := Ok(reservations[id]);
        reservations := reservations - {id};
      } else {
        result := Err(UnknownReservation);
      }
    }
  }

  /** What is requested fits what is available exactly if it fits the capacity together with all reservations. */
  lemma FitsExactly(capacity: Resources, reservations: map<Id, Resources>, id: Id, request: Resources)
    requires id !in reservations
    ensures AtMost(request, Available(capacity, reservations)) <==>
      && FieldTotal((r: Resources) => r.gpu, reservations[id := request]) <= capacity.gpu
      && FieldTotal((r: Resources) => r.cpu, reservations[id := request]) <= capacity.cpu
      && FieldTotal((r: Resources) => r.storage, reservations[id := request]) <= capacity.storage
      && FieldTotal((r: Resources) => r.memory, reservations[id := request]) <= capacity.memory
  {
    TotalInsert(reservations, id, request);
    TotalIsFieldwise(reservations[id := request]);
  }

  // ----- Runs of write-locked sections, by any number of callers -----

  datatype TableOp = ReserveOp(id: Id, request: Resources) | ReleaseOp(id: Id)

  ghost function ApplyOp(capacity: Resources, table: map<Id, Resources>, op: TableOp): map<Id, Resources> {
    match op
    case ReserveOp(id, request) =>
      if id !in table && AtMost(request, Available(capacity, table)) then table[id := request] else table
    case ReleaseOp(id) => table - {id}
  }

  ghost function RunOps(capacity: Resources, ops: seq<TableOp>): map<Id, Resources> {
    if ops == [] then map[] else ApplyOp(capacity, RunOps(capacity, ops[..|ops| - 1]), ops[|ops| - 1])
  }

  ghost predicate Within(capacity: Resources, table: map<Id, Resources>) {
    AtMost(Total(table), capacity)
  }

  /** Every request of the run is one that callers may make. */
  ghost predicate Requests(ops: seq<TableOp>, may: Resources -> bool) {
    forall i :: 0 <= i < |ops| && ops[i].ReserveOp? ==> may(ops[i].request)
  }

  ghost predicate AllNonNegative(table: map<Id, Resources>) {
    forall id :: id in table ==> NonNegative(table[id])
  }

  /** Granting a non-negative request, or releasing, keeps the table within capacity. */
  lemma ApplyKeepsWithin(capacity: Resources, table: map<Id, Resources>, op: TableOp)
    requires AllNonNegative(table) && Within(capacity, table)
    requires op.ReserveOp? ==> NonNegative(op.request) || !AtMost(op.request, capacity)
    ensures AllNonNegative(ApplyOp(capacity, table, op)) && Within(capacity, ApplyOp(capacity, table, op))
  {
    TotalNonNegative(table);
    match op
    case ReserveOp(id, request) =>
      if id !in table {
        TotalInsert(table, id, request);
      }
    case ReleaseOp(id) =>
      if id in table {
        TotalExtract(table, id);
      } else {
        assert table - {id} == table;
      }
  }

  lemma {:induction false} RunKeepsWithin(capacity: Resources, ops: seq<TableOp>, may: Resources -> bool)
    requires NonNegative(capacity) && Requests(ops, may)
    requires forall r :: may(r) && AtMost(r, capacity) ==> NonNegative(r)
    ensures AllNonNegative(RunOps(capacity, ops)) && Within(capacity, RunOps(capacity, ops))
  {
    if ops != [] {
      var before := ops[..|ops| - 1];
      RunKeepsWithin(capacity, before, may);
      ApplyKeepsWithin(capacity, RunOps(capacity, before), ops[|ops| - 1]);
    }
  }

  /** A negative request that fits can be reserved, its room given away, and then released. */
  lemma NegativeRequestOvercommits(capacity: Resources, may: Resources -> bool, odd: Resources)
    requires AtMost(odd, capacity) && !NonNegative(odd) && may(odd) && may(capacity.Sub(odd))
    ensures exists ops :: Requests(ops, may) && !Within(capacity, RunOps(capacity, ops))
  {
    var filler := capacity.Sub(odd);
    var op0, op1, op2 := ReserveOp(0, odd), ReserveOp(1, filler), ReleaseOp(0);
    var one, two, three := [op0], [op0, op1], [op0, op1, op2];
    assert one[..0] == [] && two[..1] == one && three[..2] == two;
    var table: map<Id, Resources> := map[];
    TotalInsert(table, 0, odd);
    assert RunOps(capacity, one) == table[0 := odd];
    TotalInsert(table[0 := odd], 1, filler);
    assert RunOps(capacity, two) == table[0 := odd][1 := filler];
    TotalInsert(table, 1, filler);
    assert RunOps(capacity, three) == table[1 := filler];
    assert Requests(three, may) && !Within(capacity, RunOps(capacity, three));
  }

  /**
   Let callers make any non-negative request, and perhaps others. No run over-commits
   the capacity if and only if all the others are too large ever to be granted.
   */
  lemma NoOvercommitExactly(capacity: Resources, may: Resources -> bool)
    requires NonNegative(capacity) && forall r :: NonNegative(r) ==> may(r)
    ensures (forall ops | Requests(ops, may) :: Within(capacity, RunOps(capacity, ops)))
            <==> forall r :: may(r) && AtMost(r, capacity) ==> NonNegative(r)
  {
    if forall r :: may(r) && AtMost(r, capacity) ==> NonNegative(r) {
      forall ops | Requests(ops, may) ensures Within(capacity, RunOps(capacity, ops)) {
        RunKeepsWithin(capacity, ops, may);
      }
    } else {
      var odd :| may(odd) && AtMost(odd, capacity) && !NonNegative(odd);
      assert NonNegative(capacity.Sub(odd));
      NegativeRequestOvercommits(capacity, may, odd);
    }
  }
}
