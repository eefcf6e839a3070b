/**
  Finite runs, oldest entry first, grown at the end.
*/
module Histories {

  datatype History<+A> = Start | Then(before: History<A>, last: A) {

    function Length(): nat {
      match this
      case Start => 0
      case Then(before, _) => before.Length() + 1
    }

    /** The entries, oldest first. */
    function Entries(): (s: seq<A>)
      ensures |s| == Length()
    {
      match this
      case Start => []
      case Then(before, last) => before.Entries() + [last]
    }

    /** Whether p is a prefix of this history (itself included). */
    ghost predicate Extends(p: History<A>) {
      this == p || (Then? && before.Extends(p))
    }
  }

  lemma {:induction false} ExtendsTransitive<A>(h: History<A>, p: History<A>, q: History<A>)
    requires h.Extends(p) && p.Extends(q)
    ensures h.Extends(q)
  {
    if h != p {
      ExtendsTransitive(h.before, p, q);
    }
  }

  lemma {:induction false} ExtendsShorter<A>(h: History<A>, p: History<A>)
    requires h.Extends(p)
    ensures p.Length() <= h.Length()
    ensures p.Length() == h.Length() ==> p == h
  {
    if h != p {
      ExtendsShorter(h.before, p);
    }
  }
}
