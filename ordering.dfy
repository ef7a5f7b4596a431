/** What `java.util.Collections.min` needs from a comparator, and the
    minimum search itself. */
module Ordering {
  import opened Wrappers

  /** The part of the `java.util.Comparator` contract the minimum search
      relies on: "before" is asymmetric and transitive. */
  ghost predicate IsComparator<T(!new)>(cmp: (T, T) -> int) {
    && (forall a, b :: cmp(a, b) < 0 <==> cmp(b, a) > 0)
    && (forall a, b, c :: cmp(a, b) < 0 && cmp(b, c) < 0 ==> cmp(a, c) < 0)
  }

  /** `m` is a member of `s` and no member of `s` comes strictly before it. */
  ghost predicate IsMinimum<T>(m: T, s: set<T>, cmp: (T, T) -> int) {
    m in s && forall x :: x in s ==> cmp(x, m) >= 0
  }

  /** A comparator that answers 0 only on equal values has at most one minimum
      per set, so `Collections.min` does not depend on the iteration order. */
  lemma MinimumIsUnique<T(!new)>(m1: T, m2: T, s: set<T>, cmp: (T, T) -> int)
    requires IsComparator(cmp)
    requires forall a, b :: cmp(a, b) == 0 ==> a == b
    requires IsMinimum(m1, s, cmp) && IsMinimum(m2, s, cmp)
    ensures m1 == m2
  {
    assert cmp(m1, m2) >= 0 && cmp(m2, m1) >= 0;
  }

  /** `Collections.min(s, cmp)`: scan the members, keep the current candidate,
      replace it by any member that comes strictly before it. */
  method MinBy<T(!new)>(s: set<T>, cmp: (T, T) -> int) returns (m: T)
    requires s != {}
    requires IsComparator(cmp)
    ensures IsMinimum(m, s, cmp)
  {
    m :| m in s;
    var rest := s - {m};
    while rest != {}
      invariant rest <= s && m in s && m !in rest
      invariant forall x :: x in s - rest ==> cmp(x, m) >= 0
      decreases rest
    {
      var x :| x in rest;
      if cmp(x, m) < 0 {
        m := x;
      }
      rest := rest - {x};
    }
  }

  /** The values `select` extracts from the members of `s` it accepts. */
  function Selected<A, B(==)>(s: set<A>, select: A -> Option<B>): set<B> {
    set e | e in s && select(e).Some? :: select(e).value
  }

  /** A scan of `s` that keeps the smallest accepted value met so far: the
      loop that finds a named representative among class or data-range
      expressions. None when `select` accepts no member. */
  method MinSelected<A(==), B(==, !new)>(s: set<A>, select: A -> Option<B>, cmp: (B, B) -> int) returns (m: Option<B>)
    requires IsComparator(cmp)
    ensures m.None? <==> Selected(s, select) == {}
    ensures m.Some? ==> IsMinimum(m.value, Selected(s, select), cmp)
  {
    m := None;
    var rest := s;
    while rest != {}
      invariant rest <= s
      invariant m.None? <==> Selected(s - rest, select) == {}
      invariant m.Some? ==> IsMinimum(m.value, Selected(s - rest, select), cmp)
      decreases rest
    {
      var e :| e in rest;
      var v := select(e);
      assert Selected(s - (rest - {e}), select) == Selected(s - rest, select) + (if v.Some? then {v.value} else {});
      if v.Some? && (m.None? || cmp(v.value, m.value) < 0) {
        m := v;
      }
      rest := rest - {e};
    }
  }
}
