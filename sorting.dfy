/**
 * The stable list sort the reprojector relies on (`std::list::sort` with a
 * comparator): keyframes by distance and grid cells by point quality.
 * `before(a, b)` is the comparator: a must come before b.
 */
module Sorting {

  /**
   * The comparator requirements of a sort, on the values in `dom`:
   * irreflexive, asymmetric and negatively transitive.
   */
  ghost predicate StrictWeakOrder<T>(before: (T, T) -> bool, dom: set<T>) {
    (forall a | a in dom :: !before(a, a)) &&
    (forall a, b | a in dom && b in dom :: before(a, b) ==> !before(b, a)) &&
    (forall a, b, c | a in dom && b in dom && c in dom :: !before(a, b) && !before(b, c) ==> !before(a, c))
  }

  /** Every element of s is drawn from dom. */
  ghost predicate Within<T>(s: seq<T>, dom: set<T>) {
    forall i :: 0 <= i < |s| ==> s[i] in dom
  }

  /** No element is required to come before an element placed ahead of it. */
  ghost predicate SortedBy<T>(s: seq<T>, before: (T, T) -> bool) {
    forall i, j :: 0 <= i < j < |s| ==> !before(s[j], s[i])
  }

  /** Neither of a and b must come before the other. */
  predicate Equivalent<T>(before: (T, T) -> bool, a: T, b: T) {
    !before(a, b) && !before(b, a)
  }

  /** The elements of s equivalent to e, in their order in s. */
  function EquivalentTo<T>(s: seq<T>, before: (T, T) -> bool, e: T): seq<T> {
    if s == [] then []
    else if Equivalent(before, s[0], e) then [s[0]] + EquivalentTo(s[1..], before, e)
    else EquivalentTo(s[1..], before, e)
  }

  /** Inserts x in front of the first element that x does not have to follow. */
  function Insert<T>(x: T, s: seq<T>, before: (T, T) -> bool): (r: seq<T>)
    ensures multiset(r) == multiset(s) + multiset{x}
  {
    if s == [] || !before(s[0], x) then [x] + s
    else
      assert s == [s[0]] + s[1..];
      [s[0]] + Insert(x, s[1..], before)
  }

  /** Stable insertion sort of s under the comparator `before`. */
  function SortWith<T>(s: seq<T>, before: (T, T) -> bool): (r: seq<T>)
    ensures multiset(r) == multiset(s)
  {
    if s == [] then []
    else
      assert s == [s[0]] + s[1..];
      Insert(s[0], SortWith(s[1..], before), before)
  }

  lemma {:induction false} InsertSorted<T>(x: T, s: seq<T>, before: (T, T) -> bool, dom: set<T>)
    requires StrictWeakOrder(before, dom) && x in dom && Within(s, dom)
    requires SortedBy(s, before)
    ensures SortedBy(Insert(x, s, before), before)
  {
    if s == [] || !before(s[0], x) {
      var r := [x] + s;
      forall i, j | 0 <= i < j < |r| ensures !before(r[j], r[i]) {
        if i == 0 {
          assert !before(s[j - 1], s[0]);
        }
      }
    } else {
      var t := Insert(x, s[1..], before);
      InsertSorted(x, s[1..], before, dom);
      assert multiset(t) == multiset(s[1..]) + multiset{x};
      var r := [s[0]] + t;
      forall i, j | 0 <= i < j < |r| ensures !before(r[j], r[i]) {
        if i == 0 {
          assert r[j] in multiset(t);
          if r[j] != x {
            assert r[j] in multiset(s[1..]);
            var k :| 0 <= k < |s[1..]| && s[1..][k] == r[j];
            assert s[k + 1] == r[j];
          }
        }
      }
    }
  }

  /** The sort orders its output and keeps every element (as a multiset). */
  lemma {:induction false} SortWithSorted<T>(s: seq<T>, before: (T, T) -> bool, dom: set<T>)
    requires StrictWeakOrder(before, dom) && Within(s, dom)
    ensures SortedBy(SortWith(s, before), before)
    ensures multiset(SortWith(s, before)) == multiset(s)
  {
    if s != [] {
      SortWithSorted(s[1..], before, dom);
      var t := SortWith(s[1..], before);
      forall i | 0 <= i < |t| ensures t[i] in dom {
        assert t[i] in multiset(s[1..]);
      }
      InsertSorted(s[0], t, before, dom);
    }
  }

  lemma {:induction false} InsertStable<T>(x: T, s: seq<T>, before: (T, T) -> bool, e: T, dom: set<T>)
    requires StrictWeakOrder(before, dom) && x in dom && e in dom && Within(s, dom)
    ensures EquivalentTo(Insert(x, s, before), before, e) ==
            (if Equivalent(before, x, e) then [x] else []) + EquivalentTo(s, before, e)
  {
    if s == [] || !before(s[0], x) {
      assert ([x] + s)[1..] == s;
    } else {
      InsertStable(x, s[1..], before, e, dom);
      assert ([s[0]] + Insert(x, s[1..], before))[1..] == Insert(x, s[1..], before);
      if Equivalent(before, x, e) {
        // s[0] must precede x, so it is not equivalent to e
        assert before(s[0], e);
      }
    }
  }

  /** Elements the comparator cannot tell apart keep their relative order. */
  lemma {:induction false} SortWithStable<T>(s: seq<T>, before: (T, T) -> bool, e: T, dom: set<T>)
    requires StrictWeakOrder(before, dom) && e in dom && Within(s, dom)
    ensures EquivalentTo(SortWith(s, before), before, e) == EquivalentTo(s, before, e)
  {
    if s != [] {
      SortWithStable(s[1..], before, e, dom);
      var t := SortWith(s[1..], before);
      forall i | 0 <= i < |t| ensures t[i] in dom {
        assert t[i] in multiset(s[1..]);
      }
      InsertStable(s[0], t, before, e, dom);
    }
  }
}
