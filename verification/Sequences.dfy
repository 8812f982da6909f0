/** Sequences without duplicates, and searching in them. */
module Sequences {
  import opened Wrappers

  predicate Distinct<T(==)>(s: seq<T>) {
    forall i, j :: 0 <= i < j < |s| ==> s[i] != s[j]
  }

  /** The first position of `x`. */
  function Find<T(==)>(s: seq<T>, x: T): (r: Option<nat>)
    ensures r.Some? ==> r.value < |s| && s[r.value] == x && forall i :: 0 <= i < r.value ==> s[i] != x
    ensures r.None? ==> x !in s
  {
    if s == [] then None
    else if s[0] == x then Some(0)
    else match Find(s[1..], x) case None => None case Some(i) => Some(i + 1)
  }

  lemma {:induction false} FirstIsFound<T>(s: seq<T>, x: T, i: nat)
    requires i <= |s| && forall j :: 0 <= j < i ==> s[j] != x
    requires i < |s| ==> s[i] == x
    ensures Find(s, x) == if i < |s| then Some(i) else None
  {
    if i > 0 {
      FirstIsFound(s[1..], x, i - 1);
    }
  }

  lemma {:induction false} FindAppended<T>(s: seq<T>, last: T, x: T)
    ensures Find(s + [last], x) == if x in s then Find(s, x) else if x == last then Some(|s|) else None
  {
    if s != [] {
      assert (s + [last])[1..] == s[1..] + [last];
      FindAppended(s[1..], last, x);
    }
  }

  lemma EraseDistinct<T>(s: seq<T>, i: nat)
    requires Distinct(s) && i < |s|
    ensures Distinct(s[..i] + s[i + 1..])
    ensures forall x :: x in s[..i] + s[i + 1..] <==> x in s && x != s[i]
  {
    var r := s[..i] + s[i + 1..];
    forall x | x in s && x != s[i] ensures x in r {
      var k :| 0 <= k < |s| && s[k] == x;
      assert r[if k < i then k else k - 1] == x;
    }
  }

  /** What is left of a sequence stands in its order. */
  ghost predicate InOrder<T(!new)>(left: seq<T>, q: seq<T>) {
    forall i, j :: 0 <= i < j < |left| ==> Before(q, left[i], left[j])
  }

  ghost predicate Before<T(!new)>(q: seq<T>, x: T, y: T) {
    exists i, j :: 0 <= i < j < |q| && q[i] == x && q[j] == y
  }

  lemma BeforeLater<T(!new)>(q: seq<T>, last: T, x: T, y: T)
    ensures Before(q, x, y) ==> Before(q + [last], x, y)
    ensures x in q ==> Before(q + [last], x, last)
  {
    var longer := q + [last];
    if i, j :| 0 <= i < j < |q| && q[i] == x && q[j] == y {
      assert longer[i] == x && longer[j] == y;
    }
    if k :| 0 <= k < |q| && q[k] == x {
      assert longer[k] == x && longer[|q|] == last;
    }
  }

  lemma OneMoreInOrder<T(!new)>(init: seq<T>, last: T, left: seq<T>)
    requires InOrder(left, init) && forall x :: x in left ==> x in init
    ensures InOrder(left, init + [last]) && InOrder(left + [last], init + [last])
  {
    hide Before;
    var longer := left + [last];
    forall i, j | 0 <= i < j < |longer| ensures Before(init + [last], longer[i], longer[j]) {
      BeforeLater(init, last, longer[i], longer[j]);
    }
    assert forall i :: 0 <= i < |left| ==> longer[i] == left[i];
  }
}
