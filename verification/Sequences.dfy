/** Searching a sequence, and facts about concatenation that the solver needs spelled out. */
module Sequences {
  import opened Wrappers

  /** The index of the first element that satisfies `p`. */
  function FirstIndex<T>(p: T -> bool, s: seq<T>): (found: Option<nat>)
    ensures found.Some? ==> found.value < |s| && p(s[found.value])
    ensures found.Some? ==> forall i :: 0 <= i < found.value ==> !p(s[i])
    ensures found.None? ==> forall i :: 0 <= i < |s| ==> !p(s[i])
  {
    if s == [] then None
    else if p(s[0]) then Some(0)
    else
      match FirstIndex(p, s[1..])
      case None => None
      case Some(i) => Some(i + 1)
  }

  lemma AppendAssociates<T>(a: seq<T>, b: seq<T>, c: seq<T>)
    ensures a + b + c == a + (b + c)
  {
  }

  lemma AppendNothing<T>(s: seq<T>)
    ensures s + [] == s && [] + s == s
  {
  }

  lemma AppendHead<T>(s: seq<T>, t: seq<T>)
    requires t != []
    ensures s + [t[0]] + t[1..] == s + t
  {
  }
}
