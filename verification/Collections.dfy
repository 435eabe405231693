/** Small facts about sequences, sets and maps that several models share. */
module Collections {

  datatype Option<+T> = None | Some(value: T)

  function ToSet<T>(s: seq<T>): set<T> {
    set x | x in s
  }

  predicate Distinct<T(==)>(s: seq<T>) {
    forall i, j :: 0 <= i < j < |s| ==> s[i] != s[j]
  }

  /** A sequence has as many elements as its set exactly when it repeats none. */
  lemma {:induction false} DistinctCardinality<T>(s: seq<T>)
    ensures |ToSet(s)| <= |s|
    ensures |ToSet(s)| == |s| <==> Distinct(s)
  {
    if s == [] {
    } else {
      var n := |s| - 1;
      var front := s[..n];
      DistinctCardinality(front);
      assert s == front + [s[n]];
      assert ToSet(s) == ToSet(front) + {s[n]};
      if s[n] in front {
        var i :| 0 <= i < n && front[i] == s[n];
        assert ToSet(s) == ToSet(front);
        assert s[i] == s[n];
      } else {
        assert Distinct(front) ==> Distinct(s);
        assert Distinct(s) ==> forall i, j :: 0 <= i < j < n ==> front[i] != front[j];
      }
    }
  }

  lemma SubsetCardinality<T>(a: set<T>, b: set<T>)
    requires a <= b
    ensures |a| <= |b|
  {
    assert b == a + (b - a);
  }

  ghost function Tagged<T, U>(tag: T, s: set<U>): set<(T, U)> {
    set x | x in s :: (tag, x)
  }

  /** Pairing every element with a fixed tag keeps the number of elements. */
  lemma {:induction false} TaggedCardinality<T, U>(tag: T, s: set<U>)
    ensures |Tagged(tag, s)| == |s|
  {
    if s != {} {
      var y :| y in s;
      var rest := s - {y};
      TaggedCardinality(tag, rest);
      assert Tagged(tag, s) == Tagged(tag, rest) + {(tag, y)};
    }
  }

  /** The sum of all values of a finite map. */
  ghost function Sum<K>(m: map<K, int>): int
    decreases m.Keys
  {
    if m.Keys == {} then 0
    else
      var k :| k in m.Keys;
      assert (m - {k}).Keys == m.Keys - {k};
      m[k] + Sum(m - {k})
  }

  lemma {:induction false} SumRemove<K>(m: map<K, int>, k: K)
    requires k in m
    ensures Sum(m) == m[k] + Sum(m - {k})
    decreases m.Keys
  {
    var j :| j in m.Keys && Sum(m) == m[j] + Sum(m - {j});
    if j != k {
      assert (m - {j}).Keys == m.Keys - {j};
      SumRemove(m - {j}, k);
      assert (m - {k}).Keys == m.Keys - {k};
      SumRemove(m - {k}, j);
      assert m - {j} - {k} == m - {k} - {j};
    }
  }

  /** Writing one entry moves the sum by the change of that entry. */
  lemma {:induction false} SumUpdate<K>(m: map<K, int>, k: K, v: int)
    ensures Sum(m[k := v]) == Sum(m) - (if k in m then m[k] else 0) + v
  {
    var n := m[k := v];
    SumRemove(n, k);
    if k in m {
      SumRemove(m, k);
      assert n - {k} == m - {k};
    } else {
      assert n - {k} == m;
    }
  }

  /** Sizes after moving `k` from `h` to `a` and `e` from `l` to `r`. */
  lemma MoveSizes<T>(a: set<T>, h: set<T>, k: set<T>, r: set<T>, l: set<T>, e: set<T>)
    requires k <= h && a !! h && e <= l && r !! l && k !! e
    ensures |a + k| == |a| + |k| && |h - k| == |h| - |k|
    ensures |r + e| == |r| + |e| && |l - e| == |l| - |e|
    ensures |k + e| == |k| + |e|
  {
  }

  lemma ThreeAndTwo<T>(a: set<T>, h: set<T>, s: set<T>, l: set<T>, r: set<T>)
    requires a !! h && (a + h) !! s && l !! r && (a + h + s) !! (l + r)
    ensures |(a + h + s) + (l + r)| == |a| + |h| + |s| + |l| + |r|
  {
  }

  lemma {:induction false} SumNonNegative<K>(m: map<K, int>)
    requires forall x :: x in m ==> m[x] >= 0
    ensures Sum(m) >= 0
    decreases m.Keys
  {
    if m.Keys != {} {
      var k :| k in m.Keys;
      SumRemove(m, k);
      assert (m - {k}).Keys == m.Keys - {k};
      SumNonNegative(m - {k});
    }
  }

  // ---- Inserting into and removing from the middle of a sequence

  function Splice<T>(s: seq<T>, k: nat, x: T): (r: seq<T>)
    requires k <= |s|
    ensures |r| == |s| + 1 && r[k] == x
    ensures forall i :: 0 <= i < k ==> r[i] == s[i]
    ensures forall i :: k < i < |r| ==> r[i] == s[i - 1]
  {
    s[..k] + [x] + s[k..]
  }

  function Cut<T>(s: seq<T>, k: nat): (r: seq<T>)
    requires k < |s|
    ensures |r| == |s| - 1
    ensures forall i :: 0 <= i < k ==> r[i] == s[i]
    ensures forall i :: k <= i < |r| ==> r[i] == s[i + 1]
  {
    s[..k] + s[k + 1..]
  }

  lemma FrontAndLast<T>(s: seq<T>)
    requires s != []
    ensures s == s[..|s| - 1] + [s[|s| - 1]]
  {
  }

  lemma SpliceMultiset<T>(s: seq<T>, k: nat, x: T)
    requires k <= |s|
    ensures multiset(Splice(s, k, x)) == multiset(s) + multiset{x}
  {
    assert s == s[..k] + s[k..];
  }

  lemma CutMultiset<T>(s: seq<T>, k: nat)
    requires k < |s|
    ensures multiset(Cut(s, k)) == multiset(s) - multiset{s[k]}
  {
    assert s == s[..k] + [s[k]] + s[k + 1..];
  }

  lemma CutIncluded<T>(s: seq<T>, k: nat)
    requires k < |s|
    ensures forall x :: x in Cut(s, k) ==> x in s
  {
    hide Cut;
  }

  lemma SpliceDistinct<T>(s: seq<T>, k: nat, x: T)
    requires k <= |s| && Distinct(s) && x !in s
    ensures Distinct(Splice(s, k, x))
  {
    hide Splice;
  }

  lemma CutDistinct<T>(s: seq<T>, k: nat)
    requires k < |s| && Distinct(s)
    ensures Distinct(Cut(s, k)) && s[k] !in Cut(s, k)
  {
    hide Cut;
  }
}
