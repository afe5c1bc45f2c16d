/** What a lookup in the lease ledger finds after any sequence of its operations. */
module LedgerHistory {
  import opened HyphaResources
  import opened HyphaLeases

  function After<T>(ops: seq<LedgerOp<T>>): map<Id, Lease<T>> {
    if ops == [] then map[] else AfterOp(After(ops[..|ops| - 1]), ops[|ops| - 1])
  }

  /** No operation from `from` on concerns the lease. */
  ghost predicate Untouched<T>(ops: seq<LedgerOp<T>>, from: int, id: Id) {
    forall k :: from <= k < |ops| && 0 <= k ==> ops[k].id != id
  }

  /** Insert `i` made the lease, only renewals followed, and operation `j` was the last to set its timeout. */
  ghost predicate Backs<T>(ops: seq<LedgerOp<T>>, lease: Lease<T>, i: int, j: int) {
    && 0 <= i <= j < |ops|
    && MadeBy(ops, lease, i)
    && (j == i || (ops[j].RenewOp? && ops[j].id == lease.id))
    && Untouched(ops, j + 1, lease.id)
    && lease.timeout == ops[j].now + ops[j].duration
  }

  /** Insert `i` made the lease and only renewals followed. */
  ghost predicate MadeBy<T>(ops: seq<LedgerOp<T>>, lease: Lease<T>, i: int) {
    && 0 <= i < |ops| && ops[i].InsertOp? && ops[i].id == lease.id && ops[i].leasable == lease.leasable
    && (forall k :: i < k < |ops| && ops[k].id == lease.id ==> ops[k].RenewOp?)
  }

  /** Whoever made a lease that is still stored, some operation set its timeout last. */
  lemma {:induction false} LastSetting<T>(ops: seq<LedgerOp<T>>, lease: Lease<T>, i: int, j: int) returns (last: int)
    requires MadeBy(ops, lease, i) && i < j <= |ops| && Untouched(ops, j, lease.id)
    ensures i <= last < |ops| && Untouched(ops, last + 1, lease.id)
    ensures last == i || (ops[last].RenewOp? && ops[last].id == lease.id)
    decreases j
  {
    if j - 1 == i || ops[j - 1].id == lease.id {
      last := j - 1;
    } else {
      last := LastSetting(ops, lease, i, j - 1);
    }
  }

  lemma OtherEntry<T>(ops: seq<LedgerOp<T>>, op: LedgerOp<T>, lease: Lease<T>)
    requires op.id != lease.id
    ensures (exists i, j :: Backs(ops + [op], lease, i, j)) <==> exists i, j :: Backs(ops, lease, i, j)
  {
    var longer := ops + [op];
    assert longer[|ops|] == op && forall k :: 0 <= k < |ops| ==> longer[k] == ops[k];
    forall i, j ensures Backs(longer, lease, i, j) <==> Backs(ops, lease, i, j) {
    }
  }

  /** An operation on the lease itself is the last to set its timeout, or ends it. */
  lemma OwnEntry<T>(ops: seq<LedgerOp<T>>, op: LedgerOp<T>, lease: Lease<T>, i: int, j: int)
    requires op.id == lease.id
    ensures Backs(ops + [op], lease, i, j) <==>
      && j == |ops| && !op.RemoveOp? && lease.timeout == op.now + op.duration
      && (if i == j then op.InsertOp? && op.leasable == lease.leasable else op.RenewOp? && MadeBy(ops, lease, i))
  {
    var longer := ops + [op];
    assert longer[|ops|] == op && forall k :: 0 <= k < |ops| ==> longer[k] == ops[k];
  }

  /**
   A lookup finds a lease exactly if it was inserted and not removed or overwritten
   since, with the timeout that the latest insertion or renewal set.
   */
  lemma {:induction false} LookupExactly<T>(ops: seq<LedgerOp<T>>, lease: Lease<T>)
    ensures (lease.id in After(ops) && After(ops)[lease.id] == lease) <==> exists i, j :: Backs(ops, lease, i, j)
    decreases |ops|, 0
  {
    if ops != [] {
      var front, op := ops[..|ops| - 1], ops[|ops| - 1];
      assert ops == front + [op];
      if op.id != lease.id {
        LookupExactly(front, lease);
        OtherEntry(front, op, lease);
      } else {
        forall i, j ensures Backs(ops, lease, i, j) <==>
            && j == |front| && !op.RemoveOp? && lease.timeout == op.now + op.duration
            && if i == j then op.InsertOp? && op.leasable == lease.leasable else op.RenewOp? && MadeBy(front, lease, i)
        {
          OwnEntry(front, op, lease, i, j);
        }
        match op {
          case InsertOp(_, _, _, _) => assert After(ops)[lease.id] == lease ==> Backs(ops, lease, |front|, |front|);
          case RemoveOp(_) =>
          case RenewOp(_, _, _) =>
            RenewedLookup(front, op, lease);
            if i :| MadeBy(front, lease, i) && lease.timeout == op.now + op.duration {
              assert Backs(ops, lease, i, |front|);
            }
        }
      }
    }
  }

  lemma {:induction false} RenewedLookup<T>(front: seq<LedgerOp<T>>, op: LedgerOp<T>, lease: Lease<T>)
    requires op.RenewOp? && op.id == lease.id
    ensures (lease.id in After(front) && After(front)[lease.id].(timeout := op.now + op.duration) == lease) <==>
      lease.timeout == op.now + op.duration && exists i :: MadeBy(front, lease, i)
    decreases |front|, 1
  {
    if lease.id in After(front) {
      var stored := After(front)[lease.id];
      AfterWellFormed(front);
      LookupExactly(front, stored);
      var i, j :| Backs(front, stored, i, j);
      assert stored.leasable == lease.leasable ==> MadeBy(front, lease, i);
    }
    if i :| MadeBy(front, lease, i) {
      var last := LastSetting(front, lease, i, |front|);
      var stored := lease.(timeout := front[last].now + front[last].duration);
      assert Backs(front, stored, i, last);
      LookupExactly(front, stored);
    }
  }

  lemma {:induction false} AfterWellFormed<T>(ops: seq<LedgerOp<T>>)
    ensures WellFormed(After(ops))
  {
    if ops != [] {
      AfterWellFormed(ops[..|ops| - 1]);
    }
  }
}
