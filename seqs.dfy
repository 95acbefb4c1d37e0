/** Sequence operations the dashboard performs through pandas: boolean-mask
    filtering, `drop_duplicates(keep='first')` and column sums, stated once
    for any row type. */
module Seqs {

  /** `sub` is obtained from `s` by deleting elements; the order is kept. */
  predicate IsSubsequence<T(==)>(sub: seq<T>, s: seq<T>)
    decreases |s|
  {
    if s == [] then sub == []
    else
      (sub != [] && sub[|sub| - 1] == s[|s| - 1] && IsSubsequence(sub[..|sub| - 1], s[..|s| - 1]))
      || IsSubsequence(sub, s[..|s| - 1])
  }

  lemma {:induction false} SubsequenceTransitive<T>(a: seq<T>, b: seq<T>, c: seq<T>)
    requires IsSubsequence(a, b) && IsSubsequence(b, c)
    ensures IsSubsequence(a, c)
    decreases |c|
  {
    if c == [] {
    } else if IsSubsequence(b, c[..|c| - 1]) {
      SubsequenceTransitive(a, b, c[..|c| - 1]);
    } else {
      // b's last element is matched with c's last element
      if a != [] && a[|a| - 1] == b[|b| - 1] && IsSubsequence(a[..|a| - 1], b[..|b| - 1]) {
        SubsequenceTransitive(a[..|a| - 1], b[..|b| - 1], c[..|c| - 1]);
      } else {
        SubsequenceTransitive(a, b[..|b| - 1], c[..|c| - 1]);
      }
    }
  }

  /** Keeps, in order, the elements of `s` that satisfy `p` (a boolean mask). */
  function Filter<T(==)>(s: seq<T>, p: T -> bool): (r: seq<T>)
    ensures |r| <= |s|
    ensures forall x :: x in r ==> x in s && p(x)
    ensures forall x :: x in s && p(x) ==> x in r
    decreases |s|
  {
    if s == [] then []
    else
      var init := Filter(s[..|s| - 1], p);
      assert s == s[..|s| - 1] + [s[|s| - 1]];
      init + (if p(s[|s| - 1]) then [s[|s| - 1]] else [])
  }

  lemma {:induction false} FilterIsSubsequence<T>(s: seq<T>, p: T -> bool)
    ensures IsSubsequence(Filter(s, p), s)
    decreases |s|
  {
    if s == [] {
    } else {
      var init := s[..|s| - 1];
      FilterIsSubsequence(init, p);
      var r := Filter(s, p);
      if p(s[|s| - 1]) {
        assert r[..|r| - 1] == Filter(init, p);
      } else {
        assert r == Filter(init, p);
      }
    }
  }

  lemma {:induction false} FilterAppend<T>(a: seq<T>, b: seq<T>, p: T -> bool)
    ensures Filter(a + b, p) == Filter(a, p) + Filter(b, p)
    decreases |b|
  {
    if b == [] {
      assert a + b == a;
    } else {
      var b' := b[..|b| - 1];
      assert (a + b)[..|a + b| - 1] == a + b';
      FilterAppend(a, b', p);
    }
  }

  /** Filtering rows that all pass keeps them all. */
  lemma {:induction false} FilterAll<T>(s: seq<T>, p: T -> bool)
    requires forall x :: x in s ==> p(x)
    ensures Filter(s, p) == s
    decreases |s|
  {
    if s != [] {
      assert s == s[..|s| - 1] + [s[|s| - 1]];
      FilterAll(s[..|s| - 1], p);
    }
  }

  /** A predicate and its negation split `s`: the two selections together
      are as long as `s`. */
  lemma {:induction false} FilterComplement<T>(s: seq<T>, p: T -> bool, q: T -> bool)
    requires forall x :: q(x) == !p(x)
    ensures |Filter(s, p)| + |Filter(s, q)| == |s|
    decreases |s|
  {
    if s != [] {
      FilterComplement(s[..|s| - 1], p, q);
    }
  }

  /** The keys that occur in `s`. */
  function KeysOf<T(==), K(==)>(s: seq<T>, key: T -> K): set<K>
  {
    set x | x in s :: key(x)
  }

  lemma KeysOfAppend<T, K>(s: seq<T>, x: T, key: T -> K)
    ensures KeysOf(s + [x], key) == KeysOf(s, key) + {key(x)}
  {
    assert forall y :: y in s + [x] <==> y in s || y == x;
  }

  /** No two elements of `s` share a key. */
  predicate DistinctKeys<T(==), K(==)>(s: seq<T>, key: T -> K)
  {
    forall i, j :: 0 <= i < j < |s| ==> key(s[i]) != key(s[j])
  }

  /** Position `j` holds the first occurrence of its key in `s`. */
  predicate FirstOccurrence<T(==), K(==)>(s: seq<T>, key: T -> K, j: int)
    requires 0 <= j < |s|
  {
    key(s[j]) !in KeysOf(s[..j], key)
  }

  /** pandas `drop_duplicates(subset=[key], keep='first')`: an element is kept
      exactly when no earlier element has the same key. */
  function DedupBy<T(==), K(==)>(s: seq<T>, key: T -> K): (r: seq<T>)
    ensures |r| <= |s|
    ensures forall x :: x in r ==> x in s
    decreases |s|
  {
    if s == [] then []
    else
      var init := s[..|s| - 1];
      var last := s[|s| - 1];
      assert s == init + [last];
      DedupBy(init, key) + (if key(last) in KeysOf(init, key) then [] else [last])
  }

  lemma {:induction false} DedupByKeys<T, K>(s: seq<T>, key: T -> K)
    ensures KeysOf(DedupBy(s, key), key) == KeysOf(s, key)
    decreases |s|
  {
    if s != [] {
      var init := s[..|s| - 1];
      var last := s[|s| - 1];
      assert s == init + [last];
      DedupByKeys(init, key);
      KeysOfAppend(init, last, key);
      var r := DedupBy(s, key);
      if key(last) in KeysOf(init, key) {
        assert r == DedupBy(init, key);
      } else {
        KeysOfAppend(DedupBy(init, key), last, key);
      }
    }
  }

  lemma {:induction false} DedupByDistinct<T, K>(s: seq<T>, key: T -> K)
    ensures DistinctKeys(DedupBy(s, key), key)
    decreases |s|
  {
    if s != [] {
      var init := s[..|s| - 1];
      var last := s[|s| - 1];
      DedupByDistinct(init, key);
      DedupByKeys(init, key);
      var p := DedupBy(init, key);
      if key(last) !in KeysOf(init, key) {
        var r := p + [last];
        forall i, j | 0 <= i < j < |r| ensures key(r[i]) != key(r[j]) {
          if j == |p| {
            assert r[i] in p;
          }
        }
      }
    }
  }

  lemma {:induction false} DedupByIsSubsequence<T, K>(s: seq<T>, key: T -> K)
    ensures IsSubsequence(DedupBy(s, key), s)
    decreases |s|
  {
    if s != [] {
      var init := s[..|s| - 1];
      var last := s[|s| - 1];
      DedupByIsSubsequence(init, key);
      var r := DedupBy(s, key);
      if key(last) in KeysOf(init, key) {
        assert r == DedupBy(init, key);
      } else {
        assert r[..|r| - 1] == DedupBy(init, key);
      }
    }
  }

  /** The element kept for each key is the first occurrence of that key. */
  lemma {:induction false} DedupByKeepsFirst<T, K>(s: seq<T>, key: T -> K, j: int)
    requires 0 <= j < |s| && FirstOccurrence(s, key, j)
    ensures s[j] in DedupBy(s, key)
    decreases |s|
  {
    var init := s[..|s| - 1];
    var last := s[|s| - 1];
    if j < |s| - 1 {
      assert init[..j] == s[..j];
      DedupByKeepsFirst(init, key, j);
    } else {
      assert init == s[..j];
    }
  }

  /** Deduplicating a sequence whose keys are already distinct changes nothing. */
  lemma {:induction false} DedupByDistinctIsIdentity<T, K>(s: seq<T>, key: T -> K)
    requires DistinctKeys(s, key)
    ensures DedupBy(s, key) == s
    decreases |s|
  {
    if s != [] {
      var init := s[..|s| - 1];
      var last := s[|s| - 1];
      assert s == init + [last];
      DedupByDistinctIsIdentity(init, key);
    }
  }

  /** Sum of `f` over the elements of `s` (a pandas column `.sum()`). */
  function Sum<T(==)>(s: seq<T>, f: T -> int): int
    decreases |s|
  {
    if s == [] then 0 else Sum(s[..|s| - 1], f) + f(s[|s| - 1])
  }

  /** Real-valued sum, for distances. */
  function RealSum<T(==)>(s: seq<T>, f: T -> real): real
    decreases |s|
  {
    if s == [] then 0.0 else RealSum(s[..|s| - 1], f) + f(s[|s| - 1])
  }

  /** The blocks of `ss` one after another. */
  function Flatten<T>(ss: seq<seq<T>>): seq<T>
    decreases |ss|
  {
    if ss == [] then [] else Flatten(ss[..|ss| - 1]) + ss[|ss| - 1]
  }

  /** Flattening one more block of a prefix appends that block. */
  lemma FlattenPrefix<T>(ss: seq<seq<T>>, k: nat)
    requires k < |ss|
    ensures Flatten(ss[..k + 1]) == Flatten(ss[..k]) + ss[k]
  {
    assert ss[..k + 1][..k] == ss[..k];
  }

  /** An element of the flattening is an element of one of the blocks. */
  lemma {:induction false} FlattenMember<T>(ss: seq<seq<T>>, x: T)
    ensures x in Flatten(ss) <==> exists k :: 0 <= k < |ss| && x in ss[k]
    decreases |ss|
  {
    if ss != [] {
      var n := |ss| - 1;
      var init := ss[..n];
      FlattenMember(init, x);
      assert x in Flatten(ss) <==> x in Flatten(init) || x in ss[n];
      if x in Flatten(init) {
        var k :| 0 <= k < n && x in init[k];
        assert x in ss[k];
      }
      if exists k :: 0 <= k < |ss| && x in ss[k] {
        var k :| 0 <= k < |ss| && x in ss[k];
        if k < n {
          assert x in init[k];
        }
      }
    }
  }

  /** Blocks that are each ordered by `f`, and ordered among each other,
      flatten to a sequence ordered by `f`. */
  lemma {:induction false} FlattenOrdered<T>(ss: seq<seq<T>>, f: T -> int)
    requires forall k, i, j :: 0 <= k < |ss| && 0 <= i < j < |ss[k]| ==> f(ss[k][i]) <= f(ss[k][j])
    requires forall k, l, x, y :: 0 <= k < l < |ss| && x in ss[k] && y in ss[l] ==> f(x) <= f(y)
    ensures forall i, j :: 0 <= i < j < |Flatten(ss)| ==> f(Flatten(ss)[i]) <= f(Flatten(ss)[j])
    decreases |ss|
  {
    if ss != [] {
      var init := ss[..|ss| - 1];
      var last := ss[|ss| - 1];
      assert forall k :: 0 <= k < |init| ==> init[k] == ss[k];
      FlattenOrdered(init, f);
      var a := Flatten(init);
      var r := a + last;
      forall i, j | 0 <= i < j < |r| ensures f(r[i]) <= f(r[j]) {
        if j >= |a| {
          if i >= |a| {
            assert r[i] == last[i - |a|] && r[j] == last[j - |a|];
          } else {
            assert r[i] in a && r[j] in last;
            FlattenMember(init, r[i]);
          }
        }
      }
    }
  }
}
