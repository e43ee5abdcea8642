/** A stable sort, standing for the standard library's `sort` and `sort_by_key`. */
module Sorting {

  ghost predicate TotalPreorder<T(!new)>(leq: (T, T) -> bool) {
    && (forall x, y :: leq(x, y) || leq(y, x))
    && (forall x, y, z :: leq(x, y) && leq(y, z) ==> leq(x, z))
  }

  ghost predicate Ordered<T>(s: seq<T>, leq: (T, T) -> bool) {
    forall i, j :: 0 <= i < j < |s| ==> leq(s[i], s[j])
  }

  /** `from` lists every index below `n` exactly once. */
  ghost predicate Permutes(from: seq<nat>, n: nat) {
    && |from| == n
    && (forall i :: 0 <= i < n ==> from[i] < n)
    && (forall i, j :: 0 <= i < j < n ==> from[i] != from[j])
    && (forall x :: 0 <= x < n ==> x in from)
  }

  /** Where an element goes: behind everything not above it. */
  function Place<T>(sorted: seq<T>, x: T, leq: (T, T) -> bool): (k: nat)
    ensures k <= |sorted|
    ensures k > 0 ==> leq(sorted[k - 1], x)
    ensures forall i :: k <= i < |sorted| ==> !leq(sorted[i], x)
  {
    if sorted == [] || leq(sorted[|sorted| - 1], x) then |sorted| else Place(sorted[..|sorted| - 1], x, leq)
  }

  function InsertAt<T>(s: seq<T>, k: nat, x: T): seq<T>
    requires k <= |s|
  {
    s[..k] + [x] + s[k..]
  }

  function SortedBy<T>(s: seq<T>, leq: (T, T) -> bool): (r: seq<T>)
    ensures |r| == |s|
  {
    if s == [] then []
    else
      var rest := SortedBy(s[..|s| - 1], leq);
      InsertAt(rest, Place(rest, s[|s| - 1], leq), s[|s| - 1])
  }

  /** `r` is `s` in order, with equals in the order they had; `from` says where each element came from. */
  ghost predicate StableSortOf<T(!new)>(r: seq<T>, s: seq<T>, from: seq<nat>, leq: (T, T) -> bool) {
    && Ordered(r, leq) && |r| == |s| && Permutes(from, |s|)
    && (forall i :: 0 <= i < |s| ==> r[i] == s[from[i]])
    && (forall i, j :: 0 <= i < j < |s| && leq(r[j], r[i]) ==> from[i] < from[j])
  }

  lemma {:induction false} SortIsStable<T(!new)>(s: seq<T>, leq: (T, T) -> bool) returns (from: seq<nat>)
    requires TotalPreorder(leq)
    ensures StableSortOf(SortedBy(s, leq), s, from, leq)
  {
    hide StableSortOf, Place, InsertAt;
    if s == [] {
      from := [];
      EmptyIsSorted(s, leq);
    } else {
      var n := |s| - 1;
      var before := SortIsStable(s[..n], leq);
      var rest := SortedBy(s[..n], leq);
      var k := Place(rest, s[n], leq);
      SortSize(rest, s[..n], before, leq);
      from := InsertAt<nat>(before, k, n);
      InsertIsStable(rest, s[..n], before, s[n], k, leq);
      assert s[..n] + [s[n]] == s;
    }
  }

  lemma EmptyIsSorted<T(!new)>(s: seq<T>, leq: (T, T) -> bool)
    requires s == []
    ensures StableSortOf(s, s, [], leq)
  {
  }

  lemma SortSize<T(!new)>(r: seq<T>, s: seq<T>, from: seq<nat>, leq: (T, T) -> bool)
    requires StableSortOf(r, s, from, leq)
    ensures |r| == |s| == |from|
  {
  }

  lemma InsertIsStable<T(!new)>(r: seq<T>, s: seq<T>, from: seq<nat>, x: T, k: nat, leq: (T, T) -> bool)
    requires TotalPreorder(leq) && StableSortOf(r, s, from, leq) && k <= |r| == |from|
    requires k > 0 ==> leq(r[k - 1], x)
    requires forall i :: k <= i < |r| ==> !leq(r[i], x)
    ensures StableSortOf(InsertAt(r, k, x), s + [x], InsertAt<nat>(from, k, |s|), leq)
  {
    InsertPermutes(from, k, |s|);
    InsertStaysOrdered(r, k, x, leq);
    InsertStaysStable(r, from, k, x, |s|, leq);
    InsertFrom(r, s, from, x, k);
    hide TotalPreorder, Ordered, Permutes;
  }

  lemma InsertFrom<T>(r: seq<T>, s: seq<T>, from: seq<nat>, x: T, k: nat)
    requires |r| == |s| == |from| && k <= |s| && forall i :: 0 <= i < |s| ==> from[i] < |s| && r[i] == s[from[i]]
    ensures
      var f := InsertAt<nat>(from, k, |s|);
      forall i :: 0 <= i <= |s| ==> f[i] <= |s| && InsertAt(r, k, x)[i] == (s + [x])[f[i]]
  {
  }

  method StableSort<T>(s: seq<T>, leq: (T, T) -> bool) returns (sorted: seq<T>)
    ensures sorted == SortedBy(s, leq)
  {
    hide Place, InsertAt;
    sorted := [];
    for n := 0 to |s|
      invariant sorted == SortedBy(s[..n], leq)
    {
      assert s[..n + 1][..n] == s[..n];
      var k := FindPlace(sorted, s[n], leq);
      sorted := InsertAt(sorted, k, s[n]);
    }
    assert s[..|s|] == s;
  }

  method FindPlace<T>(sorted: seq<T>, x: T, leq: (T, T) -> bool) returns (k: nat)
    ensures k == Place(sorted, x, leq)
  {
    k := |sorted|;
    assert sorted[..k] == sorted;
    while k > 0 && !leq(sorted[k - 1], x)
      invariant 0 <= k <= |sorted|
      invariant Place(sorted, x, leq) == Place(sorted[..k], x, leq)
    {
      assert sorted[..k][..k - 1] == sorted[..k - 1];
      k := k - 1;
    }
  }

  lemma InsertPermutes(from: seq<nat>, k: nat, n: nat)
    requires k <= n && Permutes(from, n)
    ensures Permutes(InsertAt(from, k, n), n + 1)
  {
    var f := InsertAt(from, k, n);
    forall x | 0 <= x <= n
      ensures x in f
    {
      if x == n {
        assert f[k] == n;
      } else {
        assert x in from;
        var i :| 0 <= i < n && from[i] == x;
        assert f[if i < k then i else i + 1] == x;
      }
    }
  }

  lemma InsertStaysOrdered<T(!new)>(sorted: seq<T>, k: nat, x: T, leq: (T, T) -> bool)
    requires TotalPreorder(leq) && Ordered(sorted, leq) && k <= |sorted|
    requires k > 0 ==> leq(sorted[k - 1], x)
    requires forall i :: k <= i < |sorted| ==> !leq(sorted[i], x)
    ensures Ordered(InsertAt(sorted, k, x), leq)
  {
    forall i | 0 <= i < k
      ensures leq(sorted[i], x)
    {
      if i < k - 1 {
        assert leq(sorted[i], sorted[k - 1]);
      }
    }
    forall i | k <= i < |sorted|
      ensures leq(x, sorted[i])
    {
      assert !leq(sorted[i], x);
    }
  }

  lemma InsertStaysStable<T>(sorted: seq<T>, from: seq<nat>, k: nat, x: T, n: nat, leq: (T, T) -> bool)
    requires k <= n && |sorted| == n && Permutes(from, n)
    requires forall i, j :: 0 <= i < j < n && leq(sorted[j], sorted[i]) ==> from[i] < from[j]
    requires forall i :: k <= i < n ==> !leq(sorted[i], x)
    ensures
      var r := InsertAt(sorted, k, x);
      var f := InsertAt(from, k, n);
      forall i, j :: 0 <= i < j <= n && leq(r[j], r[i]) ==> f[i] < f[j]
  {
    var r := InsertAt(sorted, k, x);
    var f := InsertAt(from, k, n);
    forall i, j | 0 <= i < j <= n && leq(r[j], r[i])
      ensures f[i] < f[j]
    {
      if i != k && j != k {
        var a := if i < k then i else i - 1;
        var b := if j < k then j else j - 1;
        assert leq(sorted[b], sorted[a]);
      }
    }
  }
}
