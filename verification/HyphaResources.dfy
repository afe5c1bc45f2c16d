/**
 Resource vectors of the `hypha-resources` crate: the fold behind the partial
 order, componentwise arithmetic, and sums over a table of reservations.
 */
module HyphaResources {
  import opened Wrappers

  /** A universally unique identifier; only equality and freshness matter. */
  type Id = nat

  datatype Ordering = Less | Equal | Greater

  datatype Resources = Resources(gpu: real, cpu: real, storage: real, memory: real) {

    function Add(other: Resources): Resources {
      Resources(gpu + other.gpu, cpu + other.cpu, storage + other.storage, memory + other.memory)
    }

    function Sub(other: Resources): Resources {
      Resources(gpu - other.gpu, cpu - other.cpu, storage - other.storage, memory - other.memory)
    }
  }

  const ZERO := Resources(0.0, 0.0, 0.0, 0.0)

  /** The product order, the specification of the comparison operators. */
  predicate AtMost(a: Resources, b: Resources) {
    a.gpu <= b.gpu && a.cpu <= b.cpu && a.storage <= b.storage && a.memory <= b.memory
  }

  predicate NonNegative(r: Resources) {
    AtMost(ZERO, r)
  }

  // ----- The comparison as the code computes it -----

  function CompareField(a: real, b: real): Ordering {
    if a < b then Less else if a > b then Greater else Equal
  }

  /** One step of the fold: None when the fields disagree. */
  function Combine(acc: Ordering, field: Ordering): Option<Ordering> {
    if acc == field then Some(acc)
    else if acc == Equal then Some(field)
    else if field == Equal then Some(acc)
    else None
  }

  function TryFold(acc: Ordering, fields: seq<(real, real)>): Option<Ordering>
    decreases |fields|
  {
    if fields == [] then Some(acc)
    else
      match Combine(acc, CompareField(fields[0].0, fields[0].1))
      case None => None
      case Some(next) => TryFold(next, fields[1..])
  }

  function PartialCmp(a: Resources, b: Resources): Option<Ordering> {
    TryFold(Equal, [(a.cpu, b.cpu), (a.memory, b.memory), (a.gpu, b.gpu), (a.storage, b.storage)])
  }

  /** `a >= b` and `a > b` as the language derives them from the comparison. */
  predicate Geq(a: Resources, b: Resources) {
    PartialCmp(a, b) == Some(Greater) || PartialCmp(a, b) == Some(Equal)
  }

  predicate Gt(a: Resources, b: Resources) {
    PartialCmp(a, b) == Some(Greater)
  }

  /** The fold answers Less, Equal or Greater exactly when all fields agree with that answer. */
  lemma {:induction false} TryFoldExact(acc: Ordering, fields: seq<(real, real)>)
    ensures TryFold(acc, fields) == Some(Equal) <==>
            acc == Equal && forall f :: f in fields ==> f.0 == f.1
    ensures TryFold(acc, fields) == Some(Less) <==>
            && acc != Greater && (forall f :: f in fields ==> f.0 <= f.1)
            && (acc == Less || exists f :: f in fields && f.0 < f.1)
    ensures TryFold(acc, fields) == Some(Greater) <==>
            && acc != Less && (forall f :: f in fields ==> f.0 >= f.1)
            && (acc == Greater || exists f :: f in fields && f.0 > f.1)
    decreases |fields|
  {
    if fields != [] {
      var head, rest := fields[0], fields[1..];
      assert forall f :: f in fields <==> f == head || f in rest;
      var step := Combine(acc, CompareField(head.0, head.1));
      if step.Some? {
        TryFoldExact(step.value, rest);
      } else {
        assert head in fields;
      }
    }
  }

  /** The fold computes the product order, and is undefined exactly on incomparable vectors. */
  lemma ComparisonIsProductOrder(a: Resources, b: Resources)
    ensures Geq(a, b) <==> a.gpu >= b.gpu && a.cpu >= b.cpu && a.storage >= b.storage && a.memory >= b.memory
    ensures Geq(a, b) <==> AtMost(b, a)
    ensures Gt(a, b) <==> AtMost(b, a) && a != b
    ensures PartialCmp(a, b) == Some(Less) <==> AtMost(a, b) && a != b
    ensures PartialCmp(a, b).None? <==> !AtMost(a, b) && !AtMost(b, a)
  {
    var fields := [(a.cpu, b.cpu), (a.memory, b.memory), (a.gpu, b.gpu), (a.storage, b.storage)];
    TryFoldExact(Equal, fields);
    assert fields[0] in fields && fields[1] in fields && fields[2] in fields && fields[3] in fields;
    assert forall f :: f in fields ==> f == fields[0] || f == fields[1] || f == fields[2] || f == fields[3];
    match PartialCmp(a, b)
    case None =>
    case Some(o) => assert o == Less || o == Equal || o == Greater;
  }

  // ----- Sums over a reservation table -----

  ghost function Pick(m: map<Id, Resources>): (k: Id)
    requires m != map[]
    ensures k in m
  {
    var k :| k in m;
    k
  }

  /** The sum of all values of the table. */
  ghost function Total(m: map<Id, Resources>): Resources
    decreases |m|
  {
    if m == map[] then ZERO
    else
      var k := Pick(m);
      m[k].Add(Total(m - {k}))
  }

  /** The sum does not depend on the order in which entries are visited. */
  lemma {:induction false} TotalExtract(m: map<Id, Resources>, k: Id)
    requires k in m
    ensures Total(m) == Total(m - {k}).Add(m[k])
    decreases |m|
  {
    var c := Pick(m);
    if c != k {
      TotalExtract(m - {c}, k);
      TotalExtract(m - {k}, c);
      assert m - {c} - {k} == m - {k} - {c};
    }
  }

  lemma TotalInsert(m: map<Id, Resources>, k: Id, r: Resources)
    requires k !in m
    ensures Total(m[k := r]) == Total(m).Add(r)
  {
    TotalExtract(m[k := r], k);
    assert m[k := r] - {k} == m;
  }

  lemma {:induction false} TotalNonNegative(m: map<Id, Resources>)
    requires forall k :: k in m ==> NonNegative(m[k])
    ensures NonNegative(Total(m))
    decreases |m|
  {
    if m != map[] {
      TotalNonNegative(m - {Pick(m)});
    }
  }

  // ----- Evaluation -----

  /** The weights of the resource evaluator. */
  datatype Weights = Weights(cpu: real, gpu: real, memory: real, storage: real)

  const DEFAULT_WEIGHTS := Weights(1.0, 25.0, 0.1, 0.01)

  /** The price per weighted unit; free of charge where there are no units. */
  function Score(w: Weights, price: real, r: Resources): real {
    var units := w.gpu * r.gpu + w.cpu * r.cpu + w.memory * r.memory + w.storage * r.storage;
    if units > 0.0 then price / units else 0.0
  }

  // ----- Sums, field by field -----

  /** The sum of one field over a table. */
  ghost function FieldTotal(field: Resources -> real, m: map<Id, Resources>): real
    decreases |m|
  {
    if m == map[] then 0.0 else var k := Pick(m); field(m[k]) + FieldTotal(field, m - {k})
  }

  /** The sum of a table has in every field the sum of that field. */
  lemma {:induction false} TotalIsFieldwise(m: map<Id, Resources>)
    ensures Total(m).gpu == FieldTotal((r: Resources) => r.gpu, m)
    ensures Total(m).cpu == FieldTotal((r: Resources) => r.cpu, m)
    ensures Total(m).storage == FieldTotal((r: Resources) => r.storage, m)
    ensures Total(m).memory == FieldTotal((r: Resources) => r.memory, m)
    decreases |m|
  {
    if m != map[] {
      TotalIsFieldwise(m - {Pick(m)});
    }
  }
}
