/** The list operations the handlers and components build their queries
    from: `filter`, `find`/`findIndex`, ordering by a key (the database's
    `orderBy`), `take`, and removal of repeated keys. */
module Seqs {
  import opened Common

  /** `a` is an order-preserving subsequence of `b`. */
  ghost predicate Subseq<T>(a: seq<T>, b: seq<T>)
    decreases |b|
  {
    a == [] || (b != [] && ((a[0] == b[0] && Subseq(a[1..], b[1..])) || Subseq(a, b[1..])))
  }

  lemma {:induction false} SubseqExtend<T>(a: seq<T>, b: seq<T>, x: T)
    requires Subseq(a, b)
    ensures Subseq(a, b + [x])
    ensures Subseq(a + [x], b + [x])
    decreases |b|
  {
    if b == [] {
      assert a == [];
      assert ([x] + [])[1..] == [];
    } else {
      assert (b + [x])[1..] == b[1..] + [x];
      if a == [] {
        SubseqEmptyLeft(b + [x]);
        SubseqAloneLast(b, x);
        assert a + [x] == [x];
      } else if a[0] == b[0] && Subseq(a[1..], b[1..]) {
        SubseqExtend(a[1..], b[1..], x);
        assert (a + [x])[1..] == a[1..] + [x];
      } else {
        SubseqExtend(a, b[1..], x);
      }
    }
  }

  lemma SubseqEmptyLeft<T>(b: seq<T>)
    ensures Subseq([], b)
  {
  }

  lemma {:induction false} SubseqAloneLast<T>(b: seq<T>, x: T)
    ensures Subseq([x], b + [x])
    decreases |b|
  {
    if b == [] {
      assert [x][1..] == [];
    } else {
      assert (b + [x])[1..] == b[1..] + [x];
      SubseqAloneLast(b[1..], x);
    }
  }

  /** A subsequence is no longer than the sequence it is taken from. */
  lemma {:induction false} SubseqLength<T>(a: seq<T>, b: seq<T>)
    requires Subseq(a, b)
    ensures |a| <= |b|
    decreases |b|
  {
    if a != [] {
      if a[0] == b[0] && Subseq(a[1..], b[1..]) {
        SubseqLength(a[1..], b[1..]);
      } else {
        SubseqLength(a, b[1..]);
      }
    }
  }

  /** `s.filter(p)`: the elements satisfying `p`, in their original order. */
  function Filter<T(!new)>(s: seq<T>, p: T -> bool): (r: seq<T>)
    ensures |r| <= |s|
    ensures forall x :: x in r <==> x in s && p(x)
    ensures forall i :: 0 <= i < |r| ==> p(r[i])
    decreases |s|
  {
    if s == [] then []
    else
      assert s == [s[0]] + s[1..];
      var rest := Filter(s[1..], p);
      if p(s[0]) then [s[0]] + rest else rest
  }

  /** `Filter` keeps each element satisfying `p` as often as it occurs. */
  lemma {:induction false} FilterMultiset<T(!new)>(s: seq<T>, p: T -> bool)
    ensures forall x :: multiset(Filter(s, p))[x] == if p(x) then multiset(s)[x] else 0
    decreases |s|
  {
    if s != [] {
      FilterMultiset(s[1..], p);
      assert s == [s[0]] + s[1..];
      assert multiset(s) == multiset{s[0]} + multiset(s[1..]);
    }
  }

  /** `Filter` gives an order-preserving subsequence. */
  lemma {:induction false} FilterSubseq<T(!new)>(s: seq<T>, p: T -> bool)
    ensures Subseq(Filter(s, p), s)
    decreases |s|
  {
    if s == [] {
    } else {
      FilterSubseq(s[1..], p);
      var rest := Filter(s[1..], p);
      if p(s[0]) {
        assert ([s[0]] + rest)[1..] == rest;
      } else if rest != [] {
        assert Subseq(rest, s[1..]);
      }
    }
  }

  /** `s` is ordered by `key`, smallest first. */
  ghost predicate SortedBy<T>(s: seq<T>, key: T -> int)
  {
    forall i, j :: 0 <= i < j < |s| ==> key(s[i]) <= key(s[j])
  }

  function InsertBy<T>(x: T, s: seq<T>, key: T -> int): (r: seq<T>)
    requires SortedBy(s, key)
    ensures |r| == |s| + 1
    ensures SortedBy(r, key)
    ensures multiset(r) == multiset(s) + multiset{x}
    decreases |s|
  {
    if s == [] then [x]
    else if key(x) <= key(s[0]) then [x] + s
    else
      assert s == [s[0]] + s[1..];
      var rest := InsertBy(x, s[1..], key);
      LowerBound(s[0], rest, s[1..], x, key);
      [s[0]] + rest
  }

  lemma LowerBound<T>(y: T, rest: seq<T>, tail: seq<T>, x: T, key: T -> int)
    requires multiset(rest) == multiset(tail) + multiset{x}
    requires key(y) <= key(x)
    requires forall j :: 0 <= j < |tail| ==> key(y) <= key(tail[j])
    requires SortedBy(rest, key)
    ensures SortedBy([y] + rest, key)
  {
    forall j | 0 <= j < |rest| ensures key(y) <= key(rest[j]) {
      assert rest[j] in multiset(rest);
      if rest[j] != x {
        assert rest[j] in multiset(tail);
        assert rest[j] in tail;
      }
    }
  }

  /** The stable ordering of `s` by `key`, smallest first. */
  function SortBy<T>(s: seq<T>, key: T -> int): (r: seq<T>)
    ensures |r| == |s|
    ensures SortedBy(r, key)
    ensures multiset(r) == multiset(s)
    decreases |s|
  {
    if s == [] then []
    else
      assert s == [s[0]] + s[1..];
      InsertBy(s[0], SortBy(s[1..], key), key)
  }

  /** `take: n`: the first `n` elements, or all of them if there are fewer. */
  function Take<T>(s: seq<T>, n: nat): (r: seq<T>)
    ensures |r| == if n < |s| then n else |s|
    ensures r == s[..|r|]
  {
    if n < |s| then s[..n] else s
  }

  /** `s.find(p)` as a position: the first element satisfying `p`. */
  function FindFirst<T>(s: seq<T>, p: T -> bool): (r: Option<nat>)
    ensures r.Some? ==> r.value < |s| && p(s[r.value])
    ensures r.Some? ==> forall j :: 0 <= j < r.value ==> !p(s[j])
    ensures r.None? <==> forall j :: 0 <= j < |s| ==> !p(s[j])
    decreases |s|
  {
    if s == [] then None
    else if p(s[0]) then Some(0)
    else
      var r := FindFirst(s[1..], p);
      if r.None? then None else Some(r.value + 1)
  }

  // ----- removal of repeated keys -----

  /** `s.findIndex(y => key(y) === k)`, with |s| standing for "not found". */
  function FirstIndex<T, K(==)>(s: seq<T>, key: T -> K, k: K): (i: nat)
    ensures i <= |s|
    ensures i < |s| ==> key(s[i]) == k
    ensures forall j :: 0 <= j < i ==> key(s[j]) != k
    decreases |s|
  {
    if s == [] then 0
    else if key(s[0]) == k then 0
    else 1 + FirstIndex(s[1..], key, k)
  }

  /** The set of keys of the elements of `s`. */
  ghost function Keys<T, K>(s: seq<T>, key: T -> K): set<K>
  {
    set x | x in s :: key(x)
  }

  ghost predicate DistinctKeys<T, K>(s: seq<T>, key: T -> K)
  {
    forall i, j :: 0 <= i < j < |s| ==> key(s[i]) != key(s[j])
  }

  lemma KeysAppend<T, K>(s: seq<T>, x: T, key: T -> K)
    ensures Keys(s + [x], key) == Keys(s, key) + {key(x)}
  {
    assert forall y :: y in s + [x] <==> y in s || y == x;
  }

  /** `s.filter((x, i, self) => i === self.findIndex(y => key(y) === key(x)))`:
      the first element of each key, in order. */
  function DedupBy<T, K(==)>(s: seq<T>, key: T -> K): (r: seq<T>)
    ensures DistinctKeys(r, key)
    ensures Keys(r, key) == Keys(s, key)
    ensures Subseq(r, s)
    ensures forall i :: 0 <= i < |s| && FirstIndex(s, key, key(s[i])) == i ==> s[i] in r
    ensures forall x :: x in r ==> x in s
  {
    assert s[..|s|] == s;
    KeepFirsts(s, key, |s|)
  }

  /** `r` is what `DedupBy` keeps of `s[..n]`: distinct keys, every key of
      the prefix, in order, and every first occurrence. */
  ghost predicate FirstsOf<T, K>(s: seq<T>, key: T -> K, n: nat, r: seq<T>)
    requires n <= |s|
  {
    DistinctKeys(r, key) &&
    Keys(r, key) == Keys(s[..n], key) &&
    Subseq(r, s[..n]) &&
    (forall i {:trigger FirstIndex(s, key, key(s[i]))} :: 0 <= i < n && FirstIndex(s, key, key(s[i])) == i ==> s[i] in r) &&
    (forall x :: x in r ==> x in s[..n])
  }

  /** The elements of `s[..n]` kept by `DedupBy`. */
  function KeepFirsts<T, K(==)>(s: seq<T>, key: T -> K, n: nat): (r: seq<T>)
    requires n <= |s|
    ensures FirstsOf(s, key, n, r)
    decreases n
  {
    if n == 0 then
      SubseqEmptyLeft(s[..0]);
      []
    else
      var prev := KeepFirsts(s, key, n - 1);
      if FirstIndex(s, key, key(s[n - 1])) == n - 1 then
        KeepFirstAdds(s, key, n, prev);
        prev + [s[n - 1]]
      else
        KeepLaterSkips(s, key, n, prev);
        prev
  }

  /** A first occurrence extends what is kept of the prefix before it. */
  lemma KeepFirstAdds<T, K>(s: seq<T>, key: T -> K, n: nat, prev: seq<T>)
    requires 0 < n <= |s|
    requires FirstIndex(s, key, key(s[n - 1])) == n - 1
    requires FirstsOf(s, key, n - 1, prev)
    ensures FirstsOf(s, key, n, prev + [s[n - 1]])
  {
    var x := s[n - 1];
    var r := prev + [x];
    assert s[..n] == s[..n - 1] + [x];
    assert DistinctKeys(r, key) by {
      KeptIsNew(s, key, n, prev);
    }
    assert Keys(r, key) == Keys(s[..n], key) by {
      KeysAppend(s[..n - 1], x, key);
      KeysAppend(prev, x, key);
    }
    assert Subseq(r, s[..n]) by {
      SubseqExtend(prev, s[..n - 1], x);
    }
    forall i | 0 <= i < n && FirstIndex(s, key, key(s[i])) == i ensures s[i] in r {
      if i < n - 1 {
        assert s[i] in prev;
      }
    }
    forall y | y in r ensures y in s[..n] {
      if y != x {
        assert y in prev;
        assert y in s[..n - 1];
      }
    }
  }

  /** A later occurrence adds nothing to what is kept. */
  lemma KeepLaterSkips<T, K>(s: seq<T>, key: T -> K, n: nat, prev: seq<T>)
    requires 0 < n <= |s|
    requires FirstIndex(s, key, key(s[n - 1])) != n - 1
    requires FirstsOf(s, key, n - 1, prev)
    ensures FirstsOf(s, key, n, prev)
  {
    var x := s[n - 1];
    assert Keys(s[..n], key) == Keys(s[..n - 1], key) by {
      assert s[..n] == s[..n - 1] + [x];
      KeysAppend(s[..n - 1], x, key);
      var f := FirstIndex(s, key, key(x));
      assert f < n - 1 && key(s[f]) == key(x);
      assert s[..n - 1][f] == s[f];
      assert key(x) in Keys(s[..n - 1], key);
    }
    assert Subseq(prev, s[..n]) by {
      assert s[..n] == s[..n - 1] + [x];
      SubseqExtend(prev, s[..n - 1], x);
    }
    forall i | 0 <= i < n && FirstIndex(s, key, key(s[i])) == i ensures s[i] in prev {
      assert i < n - 1;
    }
    forall y | y in prev ensures y in s[..n] {
      var m :| 0 <= m < n - 1 && s[..n - 1][m] == y;
      assert s[..n][m] == y;
    }
  }

  lemma KeptIsNew<T, K>(s: seq<T>, key: T -> K, n: nat, prev: seq<T>)
    requires 0 < n <= |s|
    requires FirstIndex(s, key, key(s[n - 1])) == n - 1
    requires DistinctKeys(prev, key)
    requires Keys(prev, key) == Keys(s[..n - 1], key)
    ensures DistinctKeys(prev + [s[n - 1]], key)
  {
    var x := s[n - 1];
    var r := prev + [x];
    forall i, j | 0 <= i < j < |r| ensures key(r[i]) != key(r[j]) {
      if j == |r| - 1 {
        assert r[i] in prev;
        assert key(r[i]) in Keys(s[..n - 1], key);
        var y :| y in s[..n - 1] && key(y) == key(r[i]);
        var m :| 0 <= m < n - 1 && s[..n - 1][m] == y;
        assert key(s[m]) != key(x);
      } else {
        assert r[i] == prev[i] && r[j] == prev[j];
      }
    }
  }

  /** `DedupBy` keeps nothing but first occurrences: each element it keeps
      is the first element of `s` with that key. */
  lemma DedupKeepsOnlyFirsts<T, K>(s: seq<T>, key: T -> K, x: T)
    requires x in DedupBy(s, key)
    ensures FirstIndex(s, key, key(x)) < |s| && x == s[FirstIndex(s, key, key(x))]
  {
    var r := DedupBy(s, key);
    var i := FirstIndex(s, key, key(x));
    assert x in s;
    var m :| 0 <= m < |s| && s[m] == x;
    assert i <= m;
    assert FirstIndex(s, key, key(s[i])) == i;
    assert s[i] in r;
    var a :| 0 <= a < |r| && r[a] == x;
    var b :| 0 <= b < |r| && r[b] == s[i];
    if a < b {
      assert key(r[a]) != key(r[b]);
    } else if b < a {
      assert key(r[b]) != key(r[a]);
    }
  }

  /** A sequence without repeated keys has as many elements as keys. */
  lemma {:induction false} DistinctKeysCount<T, K>(s: seq<T>, key: T -> K)
    requires DistinctKeys(s, key)
    ensures |Keys(s, key)| == |s|
    decreases |s|
  {
    if s != [] {
      var init := s[..|s| - 1];
      var x := s[|s| - 1];
      assert s == init + [x];
      KeysAppend(init, x, key);
      assert DistinctKeys(init, key);
      DistinctKeysCount(init, key);
    }
  }

  // ----- queries: `findMany({ where, orderBy })`, `count({ where })` -----

  /** Sorting by `key` keeps a filtered sequence sorted. */
  lemma {:induction false} FilterSorted<T(!new)>(s: seq<T>, p: T -> bool, key: T -> int)
    requires SortedBy(s, key)
    ensures SortedBy(Filter(s, p), key)
    decreases |s|
  {
    if s != [] {
      var rest := Filter(s[1..], p);
      assert SortedBy(s[1..], key) by {
        forall i, j | 0 <= i < j < |s| - 1 ensures key(s[1..][i]) <= key(s[1..][j]) {
          assert s[1..][i] == s[i + 1] && s[1..][j] == s[j + 1];
        }
      }
      FilterSorted(s[1..], p, key);
      if p(s[0]) {
        assert Filter(s, p) == [s[0]] + rest;
        forall j | 0 <= j < |rest| ensures key(s[0]) <= key(rest[j]) {
          assert rest[j] in s[1..];
          var m :| 0 <= m < |s[1..]| && s[1..][m] == rest[j];
          assert s[m + 1] == rest[j];
        }
        SortedCons(s[0], rest, key);
      } else {
        assert Filter(s, p) == rest;
      }
    }
  }

  lemma SortedCons<T>(x: T, s: seq<T>, key: T -> int)
    requires SortedBy(s, key)
    requires forall j :: 0 <= j < |s| ==> key(x) <= key(s[j])
    ensures SortedBy([x] + s, key)
  {
    var r := [x] + s;
    forall i, j | 0 <= i < j < |r| ensures key(r[i]) <= key(r[j]) {
      assert r[j] == s[j - 1];
      if i > 0 {
        assert r[i] == s[i - 1];
      }
    }
  }

  /** `findMany({ where: p, orderBy: key })`: the rows satisfying `p`, each
      as often as in the table, ordered by `key` (the order of rows with
      equal keys is the database's, here that of the table). */
  function Query<T(!new)>(s: seq<T>, p: T -> bool, key: T -> int): (r: seq<T>)
    ensures SortedBy(r, key)
    ensures forall x :: multiset(r)[x] == if p(x) then multiset(s)[x] else 0
    ensures forall x :: x in r <==> x in s && p(x)
    ensures |r| == CountWhere(s, p)
  {
    var f := Filter(s, p);
    FilterMultiset(s, p);
    FilterLength(s, p);
    var r := SortBy(f, key);
    assert forall x :: x in r <==> x in multiset(r);
    assert forall x :: x in f <==> x in multiset(f);
    r
  }

  /** The number of elements of `s` satisfying `p`: a `count({ where: p })`. */
  function CountWhere<T>(s: seq<T>, p: T -> bool): (n: nat)
    ensures n <= |s|
    ensures n == 0 <==> forall x :: x in s ==> !p(x)
    ensures n == |s| <==> forall x :: x in s ==> p(x)
    decreases |s|
  {
    if s == [] then 0
    else
      var init := s[..|s| - 1];
      var last := s[|s| - 1];
      assert s == init + [last];
      CountWhere(init, p) + (if p(last) then 1 else 0)
  }

  lemma CountWhereAppend<T>(s: seq<T>, x: T, p: T -> bool)
    ensures CountWhere(s + [x], p) == CountWhere(s, p) + (if p(x) then 1 else 0)
  {
    assert (s + [x])[..|s|] == s;
  }

  lemma {:induction false} FilterAppend<T(!new)>(s: seq<T>, x: T, p: T -> bool)
    ensures Filter(s + [x], p) == Filter(s, p) + (if p(x) then [x] else [])
    decreases |s|
  {
    if s == [] {
      assert [x][1..] == [];
      assert s + [x] == [x];
    } else {
      var sx := s + [x];
      assert sx[0] == s[0];
      assert sx[1..] == s[1..] + [x];
      FilterAppend(s[1..], x, p);
      var tail := Filter(s[1..], p);
      var extra: seq<T> := if p(x) then [x] else [];
      if p(s[0]) {
        assert Filter(sx, p) == [s[0]] + Filter(sx[1..], p);
        assert Filter(s, p) == [s[0]] + tail;
        assert [s[0]] + (tail + extra) == ([s[0]] + tail) + extra;
      } else {
        assert Filter(sx, p) == Filter(sx[1..], p);
        assert Filter(s, p) == tail;
      }
    }
  }

  /** Two sequences that agree, position by position, on `p` have equal counts. */
  lemma {:induction false} CountWhereAgrees<T>(xs: seq<T>, ys: seq<T>, p: T -> bool)
    requires |xs| == |ys|
    requires forall i :: 0 <= i < |xs| ==> p(xs[i]) == p(ys[i])
    ensures CountWhere(xs, p) == CountWhere(ys, p)
    decreases |xs|
  {
    if xs != [] {
      var n := |xs| - 1;
      assert xs == xs[..n] + [xs[n]] && ys == ys[..n] + [ys[n]];
      CountWhereAgrees(xs[..n], ys[..n], p);
      CountWhereAppend(xs[..n], xs[n], p);
      CountWhereAppend(ys[..n], ys[n], p);
    }
  }

  /** `s.filter(p).length` is the number of elements satisfying `p`. */
  lemma {:induction false} FilterLength<T(!new)>(s: seq<T>, p: T -> bool)
    ensures |Filter(s, p)| == CountWhere(s, p)
    decreases |s|
  {
    if s != [] {
      var init := s[..|s| - 1];
      var last := s[|s| - 1];
      assert s == init + [last];
      FilterLength(init, p);
      FilterAppend(init, last, p);
      CountWhereAppend(init, last, p);
    }
  }

  /** Counts only depend on the multiset of elements. */
  lemma {:induction false} CountWhereMultiset<T>(s: seq<T>, t: seq<T>, p: T -> bool)
    requires multiset(s) == multiset(t)
    ensures CountWhere(s, p) == CountWhere(t, p)
    decreases |s|
  {
    if s != [] {
      var init := s[..|s| - 1];
      var last := s[|s| - 1];
      assert s == init + [last];
      assert last in multiset(t);
      var k :| 0 <= k < |t| && t[k] == last;
      assert t == t[..k] + [last] + t[k + 1..];
      var rest := t[..k] + t[k + 1..];
      assert multiset(s) == multiset(init) + multiset{last};
      assert multiset(t) == multiset(t[..k]) + multiset{last} + multiset(t[k + 1..]);
      assert multiset(rest) == multiset(t[..k]) + multiset(t[k + 1..]);
      assert multiset(init) + multiset{last} == multiset(rest) + multiset{last};
      assert multiset(init) == multiset(init) + multiset{last} - multiset{last};
      assert multiset(init) == multiset(rest);
      CountWhereMultiset(init, rest, p);
      CountWhereSplit(t[..k], last, t[k + 1..], p);
      CountWhereAppend(init, last, p);
    }
  }

  lemma {:induction false} CountWhereSplit<T>(a: seq<T>, x: T, b: seq<T>, p: T -> bool)
    ensures CountWhere(a + [x] + b, p) == CountWhere(a + b, p) + (if p(x) then 1 else 0)
    decreases |b|
  {
    if b == [] {
      assert a + [x] + b == a + [x];
      assert a + b == a;
      CountWhereAppend(a, x, p);
    } else {
      var bi := b[..|b| - 1];
      var bl := b[|b| - 1];
      assert b == bi + [bl];
      assert a + [x] + b == (a + [x] + bi) + [bl];
      assert a + b == (a + bi) + [bl];
      CountWhereSplit(a, x, bi, p);
      CountWhereAppend(a + [x] + bi, bl, p);
      CountWhereAppend(a + bi, bl, p);
    }
  }
}
