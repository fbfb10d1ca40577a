/**
 * Generic sequence operations that the source expresses with the array
 * methods `filter`, `map`, `find` and `reduce`, together with the facts the
 * rest of the model needs about them.
 */
module Seqs {

  datatype Option<T> = None | Some(value: T)

  /** The elements of `s` that satisfy `keep`, in their original order (`Array.prototype.filter`). */
  function Filter<T>(s: seq<T>, keep: T -> bool): (r: seq<T>)
    ensures |r| <= |s|
  {
    if s == [] then []
    else (if keep(s[0]) then [s[0]] else []) + Filter(s[1..], keep)
  }

  /** The filter keeps exactly the elements of `s` that satisfy `keep`. */
  lemma {:induction false} FilterMembers<T(!new)>(s: seq<T>, keep: T -> bool)
    ensures forall x :: x in Filter(s, keep) <==> x in s && keep(x)
  {
    if s != [] {
      FilterMembers(s[1..], keep);
      assert s == [s[0]] + s[1..];
    }
  }

  /** Every element the filter keeps satisfies `keep`, stated by position. */
  lemma {:induction false} FilterKept<T>(s: seq<T>, keep: T -> bool)
    ensures forall i :: 0 <= i < |Filter(s, keep)| ==> keep(Filter(s, keep)[i])
  {
    if s != [] {
      FilterKept(s[1..], keep);
      var head: seq<T> := if keep(s[0]) then [s[0]] else [];
      var r := Filter(s, keep);
      assert r == head + Filter(s[1..], keep);
      forall i | 0 <= i < |r| ensures keep(r[i]) {
        if i >= |head| {
          assert r[i] == Filter(s[1..], keep)[i - |head|];
        }
      }
    }
  }

  /** The filter takes each element at most as often as `s` holds it. */
  lemma {:induction false} FilterSubMultiset<T>(s: seq<T>, keep: T -> bool)
    ensures multiset(Filter(s, keep)) <= multiset(s)
  {
    if s != [] {
      FilterSubMultiset(s[1..], keep);
      assert s == [s[0]] + s[1..];
    }
  }

  /** Filtering distributes over concatenation: the kept elements stay in source order. */
  lemma {:induction false} FilterAppend<T>(a: seq<T>, b: seq<T>, keep: T -> bool)
    ensures Filter(a + b, keep) == Filter(a, keep) + Filter(b, keep)
  {
    if a == [] {
      assert a + b == b;
    } else {
      var head: seq<T> := if keep(a[0]) then [a[0]] else [];
      assert (a + b)[0] == a[0];
      assert (a + b)[1..] == a[1..] + b;
      assert Filter(a + b, keep) == head + Filter(a[1..] + b, keep);
      FilterAppend(a[1..], b, keep);
      assert Filter(a, keep) == head + Filter(a[1..], keep);
    }
  }

  /** A filter that keeps every element is the identity. */
  lemma {:induction false} FilterKeepsAll<T(!new)>(s: seq<T>, keep: T -> bool)
    requires forall x :: x in s ==> keep(x)
    ensures Filter(s, keep) == s
  {
    if s != [] {
      FilterKeepsAll(s[1..], keep);
    }
  }

  /** Elementwise image (`Array.prototype.map`). */
  function Map<T, U>(s: seq<T>, f: T -> U): (r: seq<U>)
    ensures |r| == |s|
    ensures forall i :: 0 <= i < |s| ==> r[i] == f(s[i])
  {
    seq(|s|, i requires 0 <= i < |s| => f(s[i]))
  }

  lemma MapAppend<T, U>(a: seq<T>, b: seq<T>, f: T -> U)
    ensures Map(a + b, f) == Map(a, f) + Map(b, f)
  {
  }

  /**
   * The number of elements satisfying `p`, accumulated left to right as
   * `s.reduce((acc, x) => acc + (p(x) ? 1 : 0), 0)` does.
   */
  function Count<T>(s: seq<T>, p: T -> bool): (n: nat)
    ensures n <= |s|
  {
    if s == [] then 0
    else Count(s[..|s| - 1], p) + (if p(s[|s| - 1]) then 1 else 0)
  }

  /** The positions at which `p` holds. */
  ghost function Hits<T>(s: seq<T>, p: T -> bool): set<nat>
  {
    set i: nat | i < |s| && p(s[i])
  }

  /** The fold counts exactly the positions at which `p` holds. */
  lemma {:induction false} CountIsHits<T>(s: seq<T>, p: T -> bool)
    ensures Count(s, p) == |Hits(s, p)|
  {
    if s == [] {
      assert Hits(s, p) == {};
    } else {
      var n := |s| - 1;
      var front := s[..n];
      CountIsHits(front, p);
      assert forall i :: 0 <= i < n ==> front[i] == s[i];
      if p(s[n]) {
        assert Hits(s, p) == Hits(front, p) + {n};
      } else {
        assert Hits(s, p) == Hits(front, p);
      }
    }
  }

  /** The count reaches the length exactly when every element satisfies `p`. */
  lemma {:induction false} CountFull<T>(s: seq<T>, p: T -> bool)
    ensures Count(s, p) == |s| <==> forall i :: 0 <= i < |s| ==> p(s[i])
  {
    if s != [] {
      var n := |s| - 1;
      CountFull(s[..n], p);
      assert forall i :: 0 <= i < n ==> s[..n][i] == s[i];
    }
  }

  /**
   * The leftmost position in `[from, hi)` at which `hit` holds, if any: the
   * shape of `Array.prototype.find` and of a regular-expression scan that
   * tries each start position in turn.
   */
  function FirstFrom(from: nat, hi: nat, hit: nat -> bool): (r: Option<nat>)
    decreases hi - from
    ensures r.Some? ==> from <= r.value < hi && hit(r.value)
    ensures r.Some? ==> forall j :: from <= j < r.value ==> !hit(j)
    ensures r.None? ==> forall j :: from <= j < hi ==> !hit(j)
  {
    if from >= hi then None
    else if hit(from) then Some(from)
    else FirstFrom(from + 1, hi, hit)
  }

  /** A hit at `i` with no hit before it in the range is what the search finds. */
  lemma FirstFromAt(from: nat, hi: nat, hit: nat -> bool, i: nat)
    requires from <= i < hi && hit(i)
    requires forall j :: from <= j < i ==> !hit(j)
    ensures FirstFrom(from, hi, hit) == Some(i)
  {
  }

  /** The index of the first element of `s` satisfying `p`. */
  function FirstIndex<T>(s: seq<T>, p: T -> bool): (r: Option<nat>)
    ensures r.Some? ==> r.value < |s| && p(s[r.value])
    ensures r.Some? ==> forall j :: 0 <= j < r.value ==> !p(s[j])
    ensures r.None? ==> forall j :: 0 <= j < |s| ==> !p(s[j])
  {
    var hit := (i: nat) => i < |s| && p(s[i]);
    assert forall j :: 0 <= j < |s| ==> (hit(j) <==> p(s[j]));
    FirstFrom(0, |s|, hit)
  }
}
