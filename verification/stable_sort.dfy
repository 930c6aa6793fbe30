/** Python's `sorted(range(n), key=...)` on integer keys: a stable sort.
    Stability is stated as ordering by (key, original position), which is
    exactly the order a stable sort produces. */
module StableSort {

  /** Position `i` comes before position `j`: smaller key first, and among
      equal keys the earlier position first. */
  predicate Precedes(keys: seq<int>, i: nat, j: nat)
    requires i < |keys| && j < |keys|
  {
    keys[i] < keys[j] || (keys[i] == keys[j] && i < j)
  }

  predicate InRange(keys: seq<int>, xs: seq<nat>) {
    forall a :: 0 <= a < |xs| ==> xs[a] < |keys|
  }

  /** `xs` lists positions of `keys` in stable ascending key order. */
  predicate Ordered(keys: seq<int>, xs: seq<nat>) {
    InRange(keys, xs) &&
    forall a, b :: 0 <= a < b < |xs| ==> Precedes(keys, xs[a], xs[b])
  }

  /** The positions 0, 1, ..., n-1. */
  function Positions(n: nat): (r: seq<nat>)
    ensures |r| == n
    ensures forall i :: 0 <= i < n ==> r[i] == i
  {
    seq(n, i => i)
  }

  function Insert(keys: seq<int>, x: nat, xs: seq<nat>): (r: seq<nat>)
    requires x < |keys| && Ordered(keys, xs) && x !in xs
    ensures multiset(r) == multiset(xs) + multiset{x}
    ensures Ordered(keys, r)
  {
    if |xs| == 0 then [x]
    else if Precedes(keys, x, xs[0]) then
      ConsOrdered(keys, x, xs);
      [x] + xs
    else
      assert xs == [xs[0]] + xs[1..];
      var rest := Insert(keys, x, xs[1..]);
      InsertTailOrdered(keys, x, xs, rest);
      [xs[0]] + rest
  }

  lemma ConsOrdered(keys: seq<int>, x: nat, xs: seq<nat>)
    requires x < |keys| && Ordered(keys, xs) && |xs| > 0 && Precedes(keys, x, xs[0])
    ensures Ordered(keys, [x] + xs)
  {
    var r := [x] + xs;
    forall a, b | 0 <= a < b < |r| ensures Precedes(keys, r[a], r[b]) {
      if a > 0 {
        assert r[a] == xs[a - 1] && r[b] == xs[b - 1];
      } else if b > 1 {
        assert Precedes(keys, xs[0], xs[b - 1]);
      }
    }
  }

  lemma InsertTailOrdered(keys: seq<int>, x: nat, xs: seq<nat>, rest: seq<nat>)
    requires x < |keys| && Ordered(keys, xs) && |xs| > 0 && x !in xs
    requires !Precedes(keys, x, xs[0])
    requires Ordered(keys, rest) && multiset(rest) == multiset(xs[1..]) + multiset{x}
    ensures Ordered(keys, [xs[0]] + rest)
  {
    assert xs == [xs[0]] + xs[1..];
    var r := [xs[0]] + rest;
    forall b | 0 <= b < |rest| ensures Precedes(keys, xs[0], rest[b]) {
      assert rest[b] in multiset(rest);
      if rest[b] != x {
        assert rest[b] in xs[1..];
        var c :| 0 <= c < |xs[1..]| && xs[1..][c] == rest[b];
        assert xs[c + 1] == rest[b];
      }
    }
    forall a, b | 0 <= a < b < |r| ensures Precedes(keys, r[a], r[b]) {
      if a > 0 {
        assert r[a] == rest[a - 1] && r[b] == rest[b - 1];
      } else {
        assert r[b] == rest[b - 1];
      }
    }
  }

  lemma PositionsStep(n: nat)
    ensures multiset(Positions(n + 1)) == multiset(Positions(n)) + multiset{n}
  {
    assert Positions(n + 1) == Positions(n) + [n];
  }

  /** Elements drawn from `xs` and `x` stay below a bound all of them meet. */
  lemma BelowBound(r: seq<nat>, xs: seq<nat>, x: nat, n: nat)
    requires multiset(r) == multiset(xs) + multiset{x}
    requires x < n && forall a :: 0 <= a < |xs| ==> xs[a] < n
    ensures forall a :: 0 <= a < |r| ==> r[a] < n
  {
    forall a | 0 <= a < |r| ensures r[a] < n {
      assert r[a] in multiset(r);
      if r[a] != x {
        assert r[a] in multiset(xs);
      }
    }
  }

  /** Stable insertion sort of the first `n` positions. */
  function SortPrefix(keys: seq<int>, n: nat): (r: seq<nat>)
    requires n <= |keys|
    ensures Ordered(keys, r)
    ensures multiset(r) == multiset(Positions(n))
    ensures forall a :: 0 <= a < |r| ==> r[a] < n
  {
    if n == 0 then []
    else
      var prev := SortPrefix(keys, n - 1);
      PositionsStep(n - 1);
      assert (n - 1) !in prev;
      var r := Insert(keys, n - 1, prev);
      BelowBound(r, prev, n - 1, n);
      r
  }

  /** The positions of `keys` in the order a stable ascending sort visits them. */
  function Order(keys: seq<int>): (r: seq<nat>)
    ensures |r| == |keys|
    ensures Ordered(keys, r)
    ensures multiset(r) == multiset(Positions(|keys|))
  {
    var r := SortPrefix(keys, |keys|);
    assert |r| == |multiset(r)|;
    r
  }

  /** Every position appears in the order exactly once. */
  lemma OrderIsPermutation(keys: seq<int>, i: nat)
    requires i < |keys|
    ensures multiset(Order(keys))[i] == 1
  {
    var p := Positions(|keys|);
    assert p == p[..i] + [i] + p[i + 1..];
    assert i !in p[..i];
    assert i !in p[i + 1..];
    assert multiset(p)[i] == multiset(p[..i])[i] + 1 + multiset(p[i + 1..])[i];
  }

  /** Equal keys keep their input order: the stability guarantee of Python's sort. */
  lemma OrderIsStable(keys: seq<int>, a: nat, b: nat)
    requires a < b < |keys|
    requires keys[Order(keys)[a]] == keys[Order(keys)[b]]
    ensures Order(keys)[a] < Order(keys)[b]
  {
  }
}
