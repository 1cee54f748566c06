/**
 * Sequence helpers shared by the in-memory store and the SQL handler:
 * order-preserving filtering (`Array.prototype.filter`, `WHERE`), key
 * uniqueness, the random reordering used to pick winners, and JavaScript's
 * `slice(0, end)`.
 */
module Seqs {

  /** Keeps the elements satisfying `keep`, in their original order. */
  function Filter<T(!new)>(s: seq<T>, keep: T -> bool): (r: seq<T>)
    ensures |r| <= |s|
    ensures forall x :: x in r <==> x in s && keep(x)
    ensures (forall i :: 0 <= i < |s| ==> keep(s[i])) ==> r == s
    ensures Distinct(s) ==> Distinct(r)
  {
    if s == [] then []
    else
      var rest := Filter(s[1..], keep);
      assert forall x :: x in s[1..] ==> x in s;
      if keep(s[0]) then [s[0]] + rest else rest
  }

  /** Filtering commutes with concatenation: the relative order of survivors is kept. */
  lemma {:induction false} FilterAppend<T(!new)>(a: seq<T>, b: seq<T>, keep: T -> bool)
    ensures Filter(a + b, keep) == Filter(a, keep) + Filter(b, keep)
  {
    if a == [] {
      assert a + b == b;
    } else {
      assert (a + b)[1..] == a[1..] + b;
      FilterAppend(a[1..], b, keep);
    }
  }

  /** Two filters that agree on every element of `s` give the same result. */
  lemma {:induction false} FilterCongruent<T(!new)>(s: seq<T>, f: T -> bool, g: T -> bool)
    requires forall x :: x in s ==> f(x) == g(x)
    ensures Filter(s, f) == Filter(s, g)
  {
    if s != [] {
      assert forall x :: x in s[1..] ==> x in s;
      FilterCongruent(s[1..], f, g);
    }
  }

  /** No element occurs twice. */
  predicate Distinct<T(==)>(s: seq<T>)
  {
    forall i, j :: 0 <= i < j < |s| ==> s[i] != s[j]
  }

  /** No two positions carry the same key (a primary key, or a composite key). */
  predicate UniqueKeys<T, K(==)>(s: seq<T>, key: T -> K)
  {
    forall i, j :: 0 <= i < j < |s| ==> key(s[i]) != key(s[j])
  }

  /** Elements with pairwise distinct keys are pairwise distinct. */
  lemma UniqueKeysDistinct<T, K>(s: seq<T>, key: T -> K)
    requires UniqueKeys(s, key)
    ensures Distinct(s)
  {
  }

  /**
   * Distinct elements drawn from a sequence whose keys are unique have
   * unique keys themselves: each comes from its own position.
   */
  lemma DistinctFromUniqueKeys<T, K>(r: seq<T>, s: seq<T>, key: T -> K)
    requires Distinct(r)
    requires forall x :: x in r ==> x in s
    requires UniqueKeys(s, key)
    ensures UniqueKeys(r, key)
  {
    forall i, j | 0 <= i < j < |r|
      ensures key(r[i]) != key(r[j])
    {
      assert r[i] in s && r[j] in s;
      var p :| 0 <= p < |s| && s[p] == r[i];
      var q :| 0 <= q < |s| && s[q] == r[j];
      assert p != q;
    }
  }

  /** `s` without its element at index `i`. */
  function RemoveAt<T>(s: seq<T>, i: nat): (r: seq<T>)
    requires i < |s|
    ensures |r| == |s| - 1
    ensures multiset(r) + multiset{s[i]} == multiset(s)
    ensures Distinct(s) ==> Distinct(r) && s[i] !in r
  {
    var r := s[..i] + s[i + 1..];
    assert s == s[..i] + [s[i]] + s[i + 1..];
    assert forall k :: 0 <= k < |r| ==> r[k] == s[if k < i then k else k + 1];
    r
  }

  /** Putting an element in front of a sequence that lacks it keeps it distinct. */
  lemma DistinctCons<T>(x: T, s: seq<T>)
    requires x !in s && Distinct(s)
    ensures Distinct([x] + s)
  {
    forall i, j | 0 <= i < j < |[x] + s| ensures ([x] + s)[i] != ([x] + s)[j] {
      if i > 0 {
        assert ([x] + s)[i] == s[i - 1];
      }
    }
  }

  /**
   * A reordering of `s` driven by the random values `rolls`: the element at
   * index `rolls[0] % |s|` goes first and the rest is reordered from
   * `rolls[1..]` (missing rolls count as 0). Every ordering of `s` is the
   * result of some `rolls`; no distribution is modelled.
   */
  function Shuffle<T>(s: seq<T>, rolls: seq<nat>): (r: seq<T>)
    ensures |r| == |s|
    ensures multiset(r) == multiset(s)
    ensures Distinct(s) ==> Distinct(r)
    decreases |s|
  {
    if s == [] then []
    else
      var i := (if rolls == [] then 0 else rolls[0]) % |s|;
      var rest := RemoveAt(s, i);
      var tail := Shuffle(rest, if rolls == [] then [] else rolls[1..]);
      assert Distinct(s) ==> Distinct([s[i]] + tail) by {
        if Distinct(s) {
          assert s[i] !in multiset(tail);
          DistinctCons(s[i], tail);
        }
      }
      [s[i]] + tail
  }

  /** JavaScript's `s.slice(0, end)`: a negative `end` counts back from the end of `s`. */
  function JsSlice<T>(s: seq<T>, end: int): (r: seq<T>)
    ensures 0 <= end <= |s| ==> r == s[..end]
    ensures end < 0 ==> |r| == if |s| + end < 0 then 0 else |s| + end
    ensures |s| < end ==> r == s
    ensures r == s[..|r|]
  {
    if end < 0 then (if |s| + end < 0 then [] else s[..|s| + end])
    else if end < |s| then s[..end]
    else s
  }
}
