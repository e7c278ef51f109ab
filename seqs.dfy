/** Sequence helpers shared by the table models: filtering, first match, in-place update. */
module Seqs {
  import opened Wrappers

  /** The elements of `s` that satisfy `p`, in their original order (a `SELECT ... WHERE`). */
  function Filter<T>(s: seq<T>, p: T -> bool): (r: seq<T>)
    ensures |r| <= |s|
    ensures forall i :: 0 <= i < |r| ==> r[i] in s && p(r[i])
    ensures forall i :: 0 <= i < |s| && p(s[i]) ==> s[i] in r
    decreases |s|
  {
    if s == [] then []
    else
      var rest := Filter(s[1..], p);
      assert s == [s[0]] + s[1..];
      if p(s[0]) then [s[0]] + rest else rest
  }

  /** When every element passes, filtering changes nothing. */
  lemma {:induction false} FilterKeepsAll<T>(s: seq<T>, p: T -> bool)
    requires forall i :: 0 <= i < |s| ==> p(s[i])
    ensures Filter(s, p) == s
    decreases |s|
  {
    if s != [] {
      FilterKeepsAll(s[1..], p);
    }
  }

  /** Filtering by two pointwise-equal predicates gives the same sequence. */
  lemma {:induction false} FilterSamePredicate<T>(s: seq<T>, p: T -> bool, q: T -> bool)
    requires forall i :: 0 <= i < |s| ==> p(s[i]) == q(s[i])
    ensures Filter(s, p) == Filter(s, q)
    decreases |s|
  {
    if s != [] {
      FilterSamePredicate(s[1..], p, q);
    }
  }

  /** Filtering distributes over concatenation, so it keeps the input order. */
  lemma {:induction false} FilterAppend<T>(a: seq<T>, b: seq<T>, p: T -> bool)
    ensures Filter(a + b, p) == Filter(a, p) + Filter(b, p)
    decreases |a|
  {
    if a == [] {
      assert a + b == b;
    } else {
      assert (a + b)[1..] == a[1..] + b;
      FilterAppend(a[1..], b, p);
    }
  }

  /** Keys strictly increasing along the sequence (an auto-increment primary key in scan order). */
  ghost predicate Increasing<T>(s: seq<T>, key: T -> int) {
    forall i, j :: 0 <= i < j < |s| ==> key(s[i]) < key(s[j])
  }

  /**
   * Appending a row under the next auto-increment key keeps the keys increasing and below the
   * advanced counter.
   */
  lemma AppendNextKey<T>(s: seq<T>, x: T, key: T -> int, next: int)
    requires Increasing(s, key) && forall i :: 0 <= i < |s| ==> 1 <= key(s[i]) < next
    requires key(x) == next && next >= 1
    ensures Increasing(s + [x], key) && forall i :: 0 <= i < |s + [x]| ==> 1 <= key((s + [x])[i]) < next + 1
  {
    var t := s + [x];
    forall i, j | 0 <= i < j < |t| ensures key(t[i]) < key(t[j]) {
      assert t[i] == s[i];
      if j < |s| {
        assert t[j] == s[j];
      }
    }
    forall i | 0 <= i < |t| ensures 1 <= key(t[i]) < next + 1 {
      if i < |s| {
        assert t[i] == s[i];
      } else {
        assert t[i] == x;
      }
    }
  }

  /** Deleting rows keeps the primary key increasing. */
  lemma {:induction false} FilterKeepsIncreasing<T>(s: seq<T>, p: T -> bool, key: T -> int)
    requires Increasing(s, key)
    ensures Increasing(Filter(s, p), key)
    decreases |s|
  {
    if s != [] {
      TailIncreasing(s, key);
      FilterKeepsIncreasing(s[1..], p, key);
      if p(s[0]) {
        HeadBelowFiltered(s, p, key);
        ConsIncreasing(s[0], Filter(s[1..], p), key);
      }
    }
  }

  /** Dropping the first row keeps the keys increasing. */
  lemma TailIncreasing<T>(s: seq<T>, key: T -> int)
    requires s != [] && Increasing(s, key)
    ensures Increasing(s[1..], key)
  {
    var tail := s[1..];
    forall i, j | 0 <= i < j < |tail| ensures key(tail[i]) < key(tail[j]) {
      assert tail[i] == s[i + 1] && tail[j] == s[j + 1];
    }
  }

  /** The first key is below every key the rest of the rows still hold after a filter. */
  lemma HeadBelowFiltered<T>(s: seq<T>, p: T -> bool, key: T -> int)
    requires s != [] && Increasing(s, key)
    ensures forall x :: x in Filter(s[1..], p) ==> key(s[0]) < key(x)
  {
    var tail := s[1..];
    forall x | x in Filter(tail, p) ensures key(s[0]) < key(x) {
      var k :| 0 <= k < |tail| && tail[k] == x;
      assert s[k + 1] == x;
    }
  }

  /** A key below every later key can go in front. */
  lemma ConsIncreasing<T>(x: T, rest: seq<T>, key: T -> int)
    requires Increasing(rest, key) && forall y :: y in rest ==> key(x) < key(y)
    ensures Increasing([x] + rest, key)
  {
    var r := [x] + rest;
    forall i, j | 0 <= i < j < |r| ensures key(r[i]) < key(r[j]) {
      assert r[j] == rest[j - 1];
      if i > 0 {
        assert r[i] == rest[i - 1];
      }
    }
  }

  /** The first element of `s` that satisfies `p` (`rows[0]` of a `SELECT ... WHERE`), if any. */
  function First<T>(s: seq<T>, p: T -> bool): (r: Option<T>)
    ensures r.None? <==> forall i :: 0 <= i < |s| ==> !p(s[i])
    ensures r.Some? ==> exists i :: 0 <= i < |s| && s[i] == r.value && p(s[i]) && forall j :: 0 <= j < i ==> !p(s[j])
    decreases |s|
  {
    if s == [] then None
    else if p(s[0]) then Some(s[0])
    else
      var r := First(s[1..], p);
      assert r.Some? ==> exists i :: 1 <= i < |s| && s[i] == r.value && p(s[i]) && forall j :: 0 <= j < i ==> !p(s[j]) by {
        if r.Some? {
          var i :| 0 <= i < |s[1..]| && s[1..][i] == r.value && p(s[1..][i]) && forall j :: 0 <= j < i ==> !p(s[1..][j]);
          assert s[i + 1] == r.value;
          assert forall j :: 0 <= j < i + 1 ==> !p(s[j]) by {
            forall j | 0 <= j < i + 1 ensures !p(s[j]) {
              if j > 0 { assert s[j] == s[1..][j - 1]; }
            }
          }
        }
      }
      r
  }

  /** `i` is the index of the first element of `s` that satisfies `p`. */
  ghost predicate IsFirst<T>(s: seq<T>, p: T -> bool, i: int) {
    0 <= i < |s| && p(s[i]) && forall j :: 0 <= j < i ==> !p(s[j])
  }

  /** `First` finds an element exactly when there is a first index, and then the element at it. */
  lemma FirstAtFirstIndex<T>(s: seq<T>, p: T -> bool)
    ensures First(s, p).Some? <==> exists i :: IsFirst(s, p, i)
    ensures forall i :: IsFirst(s, p, i) ==> First(s, p) == Some(s[i])
  {
    var r := First(s, p);
    if r.Some? {
      var m :| 0 <= m < |s| && s[m] == r.value && p(s[m]) && forall j :: 0 <= j < m ==> !p(s[j]);
      assert IsFirst(s, p, m);
      forall i | IsFirst(s, p, i) ensures r == Some(s[i]) {
        assert i == m;
      }
    }
  }

  /** With a unique key, the first element matching a test that only that key's element passes is that element. */
  lemma {:induction false} FirstOfUnique<T>(s: seq<T>, key: T -> int, p: T -> bool, i: int)
    requires Increasing(s, key)
    requires 0 <= i < |s| && p(s[i])
    requires forall j :: 0 <= j < |s| && p(s[j]) ==> key(s[j]) == key(s[i])
    ensures First(s, p) == Some(s[i])
  {
    var r := First(s, p);
    var m :| 0 <= m < |s| && s[m] == r.value && p(s[m]) && forall j :: 0 <= j < m ==> !p(s[j]);
    assert m == i;
  }

  /** Filtering twice by the same test is filtering once (a repeated `DELETE` changes nothing). */
  lemma FilterIdempotent<T>(s: seq<T>, p: T -> bool)
    ensures Filter(Filter(s, p), p) == Filter(s, p)
  {
    FilterKeepsAll(Filter(s, p), p);
  }

  /** `s` with `f` applied to the elements that satisfy `p` (an `UPDATE ... WHERE`). */
  function UpdateWhere<T>(s: seq<T>, p: T -> bool, f: T -> T): (r: seq<T>)
    ensures |r| == |s|
  {
    seq(|s|, i requires 0 <= i < |s| => if p(s[i]) then f(s[i]) else s[i])
  }

  /** `xs.map(f)`. */
  function Map<A, B>(xs: seq<A>, f: A --> B): (ys: seq<B>)
    requires forall i :: 0 <= i < |xs| ==> f.requires(xs[i])
    ensures |ys| == |xs|
    ensures forall i :: 0 <= i < |xs| ==> ys[i] == f(xs[i])
  {
    seq(|xs|, i requires 0 <= i < |xs| => f(xs[i]))
  }

  /** Mapping one more element appends its image. */
  lemma MapAppend<A, B>(xs: seq<A>, x: A, f: A --> B)
    requires forall i :: 0 <= i < |xs| ==> f.requires(xs[i])
    requires f.requires(x)
    ensures Map(xs + [x], f) == Map(xs, f) + [f(x)]
  {
    var longer := xs + [x];
    forall i | 0 <= i < |xs|
      ensures Map(longer, f)[i] == Map(xs, f)[i]
    {
      assert longer[i] == xs[i];
    }
  }
}
