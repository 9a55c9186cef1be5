/** Facts about the sizes of finite sets, used to count filled cells and
    matched letters. */
module Cardinality {

  /** If f maps s injectively onto t, then t and s have the same size. */
  lemma {:induction false} InjectiveImage<A, B>(s: set<A>, t: set<B>, f: A -> B)
    requires forall x :: x in s ==> f(x) in t
    requires forall y :: y in t ==> exists x :: x in s && f(x) == y
    requires forall x, y :: x in s && y in s && f(x) == f(y) ==> x == y
    ensures |t| == |s|
  {
    if s != {} {
      var x :| x in s;
      InjectiveImage(s - {x}, t - {f(x)}, f);
    }
  }

  /** If f maps s injectively into t, then s is no larger than t. */
  lemma {:induction false} InjectiveInto<A, B>(s: set<A>, t: set<B>, f: A -> B)
    requires forall x :: x in s ==> f(x) in t
    requires forall x, y :: x in s && y in s && f(x) == f(y) ==> x == y
    ensures |s| <= |t|
  {
    if s != {} {
      var x :| x in s;
      InjectiveInto(s - {x}, t - {f(x)}, f);
    }
  }
}
