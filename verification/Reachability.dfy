/** Reaching one state from another by actions of a certain kind, for any step system. */
module Reachability {

  function RunBy<S, A>(step: (S, A) -> S, s: S, actions: seq<A>): S
    decreases |actions|
  {
    if actions == [] then s else RunBy(step, step(s, actions[0]), actions[1..])
  }

  ghost predicate Reaches<S, A(!new)>(step: (S, A) -> S, calm: A -> bool, s: S, t: S) {
    exists actions: seq<A> :: (forall a :: a in actions ==> calm(a)) && RunBy(step, s, actions) == t
  }

  lemma {:induction false} RunInTwoParts<S, A>(step: (S, A) -> S, s: S, first: seq<A>, later: seq<A>)
    ensures RunBy(step, s, first + later) == RunBy(step, RunBy(step, s, first), later)
    decreases |first|
  {
    if first == [] {
      assert first + later == later;
    } else {
      assert (first + later)[1..] == first[1..] + later;
      RunInTwoParts(step, step(s, first[0]), first[1..], later);
    }
  }

  lemma Here<S, A(!new)>(step: (S, A) -> S, calm: A -> bool, s: S)
    ensures Reaches(step, calm, s, s)
  {
    assert RunBy(step, s, []) == s;
  }

  lemma Then<S, A(!new)>(step: (S, A) -> S, calm: A -> bool, s: S, a: A, t: S)
    requires calm(a) && Reaches(step, calm, step(s, a), t)
    ensures Reaches(step, calm, s, t)
  {
    var later: seq<A> :| (forall b :: b in later ==> calm(b)) && RunBy(step, step(s, a), later) == t;
    assert ([a] + later)[1..] == later && RunBy(step, s, [a] + later) == t;
  }

  lemma Through<S, A(!new)>(step: (S, A) -> S, calm: A -> bool, s: S, t: S, u: S)
    requires Reaches(step, calm, s, t) && Reaches(step, calm, t, u)
    ensures Reaches(step, calm, s, u)
  {
    var first: seq<A> :| (forall b :: b in first ==> calm(b)) && RunBy(step, s, first) == t;
    var later: seq<A> :| (forall b :: b in later ==> calm(b)) && RunBy(step, t, later) == u;
    RunInTwoParts(step, s, first, later);
    assert forall b :: b in first + later ==> calm(b);
  }

  lemma Weaken<S, A(!new)>(step: (S, A) -> S, calm: A -> bool, calmer: A -> bool, s: S, t: S)
    requires Reaches(step, calm, s, t) && forall a :: calm(a) ==> calmer(a)
    ensures Reaches(step, calmer, s, t)
  {
    var actions: seq<A> :| (forall b :: b in actions ==> calm(b)) && RunBy(step, s, actions) == t;
    assert forall b :: b in actions ==> calmer(b);
  }
}
