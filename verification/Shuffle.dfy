/**
 The Fisher-Yates shuffle of the waiting pool. The random draws are an argument: `draws[i]` is the
 position drawn for index `i`, between 0 and `i`.
 */
module Shuffle {
  import opened Collections

  /** One draw for every index; only those above 0 are used, so `draws[0]` can only be 0. */
  predicate Draws(draws: seq<nat>, n: nat) {
    |draws| == n && forall i :: 0 <= i < n ==> draws[i] <= i
  }

  function Swapped<T>(s: seq<T>, i: nat, j: nat): (r: seq<T>)
    requires i < |s| && j < |s|
    ensures |r| == |s| && r[i] == s[j] && r[j] == s[i]
    ensures forall k :: 0 <= k < |s| && k != i && k != j ==> r[k] == s[k]
  {
    s[i := s[j]][j := s[i]]
  }

  /** The last element is drawn and the rest shuffled in front of it. */
  function Shuffled<T>(s: seq<T>, draws: seq<nat>): (r: seq<T>)
    requires Draws(draws, |s|)
    ensures |r| == |s|
    decreases |s|
  {
    if |s| == 0 then []
    else
      var n := |s| - 1;
      var t := Swapped(s, n, draws[n]);
      Shuffled(t[..n], draws[..n]) + [t[n]]
  }

  /** What one round of the loop does: it settles position `i`. */
  lemma ShuffleRound<T>(prefix: seq<T>, suffix: seq<T>, draws: seq<nat>)
    requires |prefix| > 0 && Draws(draws, |prefix|)
    ensures var i := |prefix| - 1;
            var t := Swapped(prefix, i, draws[i]);
            Shuffled(prefix, draws) + suffix == Shuffled(t[..i], draws[..i]) + ([t[i]] + suffix)
  {
  }

  lemma ShuffleOne<T>(s: seq<T>, draws: seq<nat>)
    requires |s| == 1 && Draws(draws, 1)
    ensures Shuffled(s, draws) == s
  {
    assert Shuffled(Swapped(s, 0, 0)[..0], draws[..0]) == [];
  }

  method ShuffleInPlace<T>(a: array<T>, draws: seq<nat>)
    requires Draws(draws, a.Length)
    modifies a
    ensures a[..] == Shuffled(old(a[..]), draws)
  {
    hide Shuffled, Swapped;
    ghost var was := a[..];
    var i := a.Length - 1;
    if i < 0 { return; }
    assert a[..i + 1] == a[..] && a[i + 1..] == [] && draws[..i + 1] == draws;
    while i > 0
      invariant 0 <= i < a.Length
      invariant Shuffled(was, draws) == Shuffled(a[..i + 1], draws[..i + 1]) + a[i + 1..]
    {
      var j := draws[i];
      ghost var prefix, suffix := a[..i + 1], a[i + 1..];
      ShuffleRound(prefix, suffix, draws[..i + 1]);
      assert draws[..i + 1][..i] == draws[..i];
      var tmp := a[i];
      a[i] := a[j];
      a[j] := tmp;
      assert a[..i + 1] == Swapped(prefix, i, j);
      assert a[..i] == Swapped(prefix, i, j)[..i];
      assert a[i..] == [Swapped(prefix, i, j)[i]] + suffix;
      i := i - 1;
    }
    ShuffleOne(a[..1], draws[..1]);
    assert a[..] == a[..1] + a[1..];
  }

  lemma SwappedPermutes<T>(s: seq<T>, i: nat, j: nat)
    requires i < |s| && j < |s|
    ensures multiset(Swapped(s, i, j)) == multiset(s)
  {
  }

  lemma AppendMultiset<T>(a: seq<T>, b: seq<T>, x: T)
    requires multiset(a) == multiset(b)
    ensures multiset(a + [x]) == multiset(b + [x])
  {
  }

  /** The result is a permutation of the input. */
  lemma {:induction false} ShuffledPermutes<T>(s: seq<T>, draws: seq<nat>)
    requires Draws(draws, |s|)
    ensures multiset(Shuffled(s, draws)) == multiset(s)
    decreases |s|
  {
    if |s| > 0 {
      var n := |s| - 1;
      var t := Swapped(s, n, draws[n]);
      var rest := Shuffled(t[..n], draws[..n]);
      assert Shuffled(s, draws) == rest + [t[n]];
      SwappedPermutes(s, n, draws[n]);
      ShuffledPermutes(t[..n], draws[..n]);
      hide Swapped, Shuffled;
      AppendMultiset(rest, t[..n], t[n]);
      FrontAndLast(t);
    }
  }

  lemma OnceWhenDistinct<T>(s: seq<T>, x: T)
    requires Distinct(s) && x in s
    ensures multiset(s)[x] == 1
  {
    var i :| 0 <= i < |s| && s[i] == x;
    assert s == s[..i] + [x] + s[i + 1..];
    assert x !in s[..i] && x !in s[i + 1..];
    assert multiset(s) == multiset(s[..i]) + multiset{x} + multiset(s[i + 1..]);
  }

  lemma TwiceWhenRepeated<T>(s: seq<T>, i: nat, j: nat)
    requires i < j < |s| && s[i] == s[j]
    ensures multiset(s)[s[i]] >= 2
  {
    assert s == s[..j] + [s[j]] + s[j + 1..];
    assert multiset(s) == multiset(s[..j]) + multiset{s[j]} + multiset(s[j + 1..]);
    assert s[..j][i] == s[i];
  }

  lemma PermutationDistinct<T>(s: seq<T>, p: seq<T>)
    requires multiset(s) == multiset(p) && Distinct(s)
    ensures Distinct(p) && |p| == |s|
  {
    assert |multiset(s)| == |s| && |multiset(p)| == |p|;
    forall i, j | 0 <= i < j < |p|
      ensures p[i] != p[j]
    {
      if p[i] == p[j] {
        TwiceWhenRepeated(p, i, j);
        assert p[i] in multiset(s);
        OnceWhenDistinct(s, p[i]);
      }
    }
  }

  /** Only one draw fills the last position, and the rest of the draws shuffles the rest. */
  lemma LastDraw<T>(s: seq<T>, d: seq<nat>, e: seq<nat>) returns (front: seq<T>)
    requires |s| > 0 && Draws(d, |s|) && Draws(e, |s|) && Distinct(s)
    requires Shuffled(s, d) == Shuffled(s, e)
    ensures var n := |s| - 1;
            && |front| == n && Distinct(front) && d[n] == e[n]
            && Draws(d[..n], n) && Draws(e[..n], n) && Shuffled(front, d[..n]) == Shuffled(front, e[..n])
  {
    var n := |s| - 1;
    ShuffledEnds(s, d);
    ShuffledEnds(s, e);
    hide Shuffled, Swapped;
    assert s[d[n]] == s[e[n]];
    assert d[n] == e[n];
    front := Swapped(s, n, d[n])[..n];
    FrontDistinct(s, d[n]);
  }

  lemma ShuffledEnds<T>(s: seq<T>, d: seq<nat>)
    requires |s| > 0 && Draws(d, |s|)
    ensures var n := |s| - 1;
            && d[n] <= n && Draws(d[..n], n)
            && Shuffled(s, d)[n] == s[d[n]] && Shuffled(s, d)[..n] == Shuffled(Swapped(s, n, d[n])[..n], d[..n])
  {
  }

  lemma FrontDistinct<T>(s: seq<T>, j: nat)
    requires j < |s| && Distinct(s)
    ensures Distinct(Swapped(s, |s| - 1, j)[..|s| - 1])
  {
  }

  /** For distinct elements, different draws give different orders. */
  lemma {:induction false} DrawsAreDetermined<T>(s: seq<T>, d: seq<nat>, e: seq<nat>)
    requires Draws(d, |s|) && Draws(e, |s|) && Distinct(s)
    requires Shuffled(s, d) == Shuffled(s, e)
    ensures d == e
    decreases |s|
  {
    assert |d| == |s| == |e|;
    hide Swapped, Shuffled, Distinct, Draws;
    if |s| > 0 {
      var front := LastDraw(s, d, e);
      DrawsAreDetermined(front, d[..|s| - 1], e[..|s| - 1]);
      SameEnds(d, e);
    }
  }

  lemma SameEnds(d: seq<nat>, e: seq<nat>)
    requires |d| == |e| > 0 && d[..|d| - 1] == e[..|e| - 1] && d[|d| - 1] == e[|e| - 1]
    ensures d == e
  {
    assert d == d[..|d| - 1] + [d[|d| - 1]];
    assert e == e[..|e| - 1] + [e[|e| - 1]];
  }

  lemma FrontPermutes<T>(s: seq<T>, p: seq<T>)
    requires |s| > 0 && |s| == |p| && multiset(s) == multiset(p) && s[|s| - 1] == p[|p| - 1]
    ensures multiset(s[..|s| - 1]) == multiset(p[..|p| - 1])
  {
    var n := |s| - 1;
    FrontAndLast(s);
    FrontAndLast(p);
    assert multiset(s[..n]) == multiset(s) - multiset{s[n]};
    assert multiset(p[..n]) == multiset(p) - multiset{p[n]};
  }

  /** The draws that produce the order `p` of the elements of `s`. */
  function DrawsFor<T(==)>(s: seq<T>, p: seq<T>): (d: seq<nat>)
    requires |s| == |p| && multiset(s) == multiset(p)
    ensures Draws(d, |s|)
    decreases |s|
  {
    if |s| == 0 then []
    else
      var n := |s| - 1;
      assert p[n] in multiset(p);
      var j := IndexOf(s, p[n]);
      var t := Swapped(s, n, j);
      SwappedPermutes(s, n, j);
      FrontPermutes(t, p);
      DrawsFor(t[..n], p[..n]) + [j]
  }

  /** The last draw brings the last element of `p` to the end and leaves the others to the other draws. */
  lemma LastChoice<T>(s: seq<T>, p: seq<T>) returns (j: nat, front: seq<T>)
    requires |s| > 0 && |s| == |p| && multiset(s) == multiset(p)
    ensures var n := |s| - 1;
            && j < |s| && Swapped(s, n, j) == front + [p[n]]
            && p == p[..n] + [p[n]] && |front| == n && multiset(front) == multiset(p[..n])
            && DrawsFor(s, p) == DrawsFor(front, p[..n]) + [j]
  {
    var n := |s| - 1;
    assert p[n] in multiset(p);
    j := IndexOf(s, p[n]);
    var t := Swapped(s, n, j);
    front := t[..n];
    SwappedPermutes(s, n, j);
    FrontPermutes(t, p);
  }

  lemma ShuffledLast<T>(s: seq<T>, d: seq<nat>, j: nat)
    requires |s| > 0 && j < |s| && Draws(d, |s| - 1)
    ensures Draws(d + [j], |s|)
    ensures forall front, last ::
      Swapped(s, |s| - 1, j) == front + [last] ==> Shuffled(s, d + [j]) == Shuffled(front, d) + [last]
  {
    assert (d + [j])[..|s| - 1] == d;
  }

  /** Every permutation is the result of some draws. */
  lemma {:induction false} DrawsForProduce<T>(s: seq<T>, p: seq<T>)
    requires |s| == |p| && multiset(s) == multiset(p)
    ensures Shuffled(s, DrawsFor(s, p)) == p
    decreases |s|
  {
    if |s| > 0 {
      var n := |s| - 1;
      hide DrawsFor, Swapped, Shuffled, Draws;
      var j, front := LastChoice(s, p);
      DrawsForProduce(front, p[..n]);
      ShuffledLast(s, DrawsFor(front, p[..n]), j);
    }
  }

  function IndexOf<T(==)>(s: seq<T>, x: T): (i: nat)
    requires x in s
    ensures i < |s| && s[i] == x
    decreases |s|
  {
    if s[|s| - 1] == x then |s| - 1
    else
      assert s == s[..|s| - 1] + [s[|s| - 1]];
      IndexOf(s[..|s| - 1], x)
  }

  /**
   The shuffle is a bijection between draws and orders: for distinct elements every permutation is
   the result of exactly one vector of draws.
   */
  lemma ShuffleIsBijective<T>(s: seq<T>, p: seq<T>)
    requires Distinct(s) && multiset(s) == multiset(p)
    ensures exists d :: Draws(d, |s|) && Shuffled(s, d) == p && forall e ::
      Draws(e, |s|) && Shuffled(s, e) == p ==> e == d
  {
    PermutationDistinct(s, p);
    var d := DrawsFor(s, p);
    DrawsForProduce(s, p);
    forall e | Draws(e, |s|) && Shuffled(s, e) == p
      ensures e == d
    {
      DrawsAreDetermined(s, e, d);
    }
  }
}
