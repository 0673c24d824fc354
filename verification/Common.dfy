/** Datatypes shared by the component models. */
module Common {

  type byte = x: int | 0 <= x < 256

  /** Tags and names that the program only ever compares; NO_TAG stands for the empty string. */
  type Tag = nat

  const NO_TAG: Tag := 0

  datatype Option<+T> = None | Some(value: T)

  datatype Result<+T, +E> = Ok(value: T) | Err(error: E)

  /** No element of `s` occurs twice. */
  ghost predicate Distinct<T>(s: seq<T>)
  {
    s == [] || (s[|s| - 1] !in s[..|s| - 1] && Distinct(s[..|s| - 1]))
  }

  lemma {:induction false} DistinctIndices<T>(s: seq<T>, i: nat, j: nat)
    requires Distinct(s) && i < j < |s|
    ensures s[i] != s[j]
    decreases |s|
  {
    var front := s[..|s| - 1];
    if j < |front| {
      DistinctIndices(front, i, j);
    } else {
      assert s[i] in front;
    }
  }

  lemma {:induction false} DistinctOfIndices<T>(s: seq<T>)
    requires forall i, j :: 0 <= i < j < |s| ==> s[i] != s[j]
    ensures Distinct(s)
    decreases |s|
  {
    if s != [] {
      DistinctOfIndices(s[..|s| - 1]);
    }
  }

  lemma {:induction false} DistinctPush<T>(s: seq<T>, x: T)
    requires Distinct(s) && x !in s
    ensures Distinct(s + [x])
  {
    assert (s + [x])[..|s|] == s;
  }

  /** A sequence has at least as many places as elements, and as many only if none repeats. */
  lemma {:induction false} ElementCount<T>(s: seq<T>)
    ensures |set x | x in s| <= |s|
    ensures |set x | x in s| == |s| <==> Distinct(s)
    decreases |s|
  {
    if s != [] {
      var front, last := s[..|s| - 1], s[|s| - 1];
      ElementCount(front);
      var rest := set x | x in front;
      assert s == front + [last];
      assert (set x | x in s) == rest + {last};
      assert last in front ==> rest + {last} == rest;
    }
  }

  lemma {:induction false} SubsetCount<T>(a: set<T>, b: set<T>)
    requires a <= b
    ensures |a| <= |b|
    ensures |a| == |b| ==> a == b
  {
    assert b == a + (b - a);
    if |a| == |b| {
      assert |b - a| == 0;
    }
  }

  /** The numbers below `n`. */
  function Range(n: nat): (r: set<nat>)
    ensures |r| == n
    ensures forall i :: i in r <==> 0 <= i < n
  {
    if n == 0 then {} else Range(n - 1) + {n - 1}
  }

  /** Distinct numbers below `n`: no more than `n`, and all of them when there are `n`. */
  lemma {:induction false} DistinctBelow(s: seq<nat>, n: nat)
    requires Distinct(s) && forall i :: i in s ==> i < n
    ensures |s| <= n
    ensures |s| == n ==> forall i :: 0 <= i < n ==> i in s
  {
    ElementCount(s);
    var elements := set i | i in s;
    SubsetCount(elements, Range(n));
    assert |s| == n ==> elements == Range(n);
    assert forall i :: i in elements <==> i in s;
  }

  /** `s` without every occurrence of `x`. */
  function Without<T(==)>(s: seq<T>, x: T): (r: seq<T>)
    ensures forall i :: 0 <= i < |r| ==> r[i] in s && r[i] != x
    ensures forall i :: 0 <= i < |s| && s[i] != x ==> s[i] in r
    ensures x !in s ==> r == s
  {
    if s == [] then []
    else
      var front, last := Without(s[..|s| - 1], x), s[|s| - 1];
      assert s == s[..|s| - 1] + [last];
      if last == x then front else front + [last]
  }

  /** The sum of the weights of all elements: a termination measure for a step relation. */
  function Total<T>(weight: T -> nat, items: seq<T>): (r: nat)
  {
    if items == [] then 0 else Total(weight, items[..|items| - 1]) + weight(items[|items| - 1])
  }

  lemma {:induction false} TotalOfUpdate<T>(weight: T -> nat, items: seq<T>, i: nat, item: T)
    requires i < |items|
    ensures Total(weight, items[i := item]) == Total(weight, items) - weight(items[i]) + weight(item)
    decreases |items|
  {
    var n := |items| - 1;
    if i < n {
      TotalOfUpdate(weight, items[..n], i, item);
      assert items[i := item][..n] == items[..n][i := item];
    } else {
      assert items[i := item][..n] == items[..n];
    }
  }

  lemma {:induction false} TotalBound<T>(weight: T -> nat, items: seq<T>, bound: nat)
    requires forall item :: weight(item) <= bound
    ensures Total(weight, items) <= bound * |items|
    decreases |items|
  {
    if items != [] {
      TotalBound(weight, items[..|items| - 1], bound);
      assert bound * |items| == bound * (|items| - 1) + bound;
    }
  }
}
