/** Feeding a register symbol by symbol, for any register and symbol type. */
module Serial {

  /** The register after the first `n` symbols. */
  function Run<S, T>(feed: (S, T) -> S, init: S, text: seq<T>, n: nat): S
    requires n <= |text|
  {
    if n == 0 then init else feed(Run(feed, init, text, n - 1), text[n - 1])
  }

  lemma {:induction false} RunPrefix<S, T>(feed: (S, T) -> S, init: S, u: seq<T>, v: seq<T>, n: nat)
    requires n <= |u| && n <= |v| && forall i :: 0 <= i < n ==> u[i] == v[i]
    ensures Run(feed, init, u, n) == Run(feed, init, v, n)
  {
    if n > 0 {
      RunPrefix(feed, init, u, v, n - 1);
    }
  }

  /** Running on from the register reached after `a`. */
  lemma {:induction false} RunAppend<S, T>(feed: (S, T) -> S, init: S, a: seq<T>, b: seq<T>, n: nat)
    requires n <= |b|
    ensures Run(feed, init, a + b, |a| + n) == Run(feed, Run(feed, init, a, |a|), b, n)
  {
    if n > 0 {
      RunAppend(feed, init, a, b, n - 1);
      assert (a + b)[|a| + n - 1] == b[n - 1];
    } else {
      RunPrefix(feed, init, a + b, a, |a|);
    }
  }

  /** A map that turns one feed into another carries over to whole texts. */
  lemma {:induction false} RunMaps<S, R, T>(feed: (S, T) -> S, init: S, to: (R, T) -> R, view: S -> R,
                                            text: seq<T>, n: nat)
    requires n <= |text| && forall c, t :: view(feed(c, t)) == to(view(c), t)
    ensures view(Run(feed, init, text, n)) == Run(to, view(init), text, n)
  {
    if n > 0 {
      RunMaps(feed, init, to, view, text, n - 1);
    }
  }

  /** Equal symbols never hide a difference. */
  lemma {:induction false} SuffixInjective<S, T>(feed: (S, T) -> S, init: S, u: seq<T>, v: seq<T>, m: nat, n: nat)
    requires forall a, b, t :: feed(a, t) == feed(b, t) ==> a == b
    requires m <= n <= |u| == |v| && forall i :: m <= i < n ==> u[i] == v[i]
    requires Run(feed, init, u, n) == Run(feed, init, v, n)
    ensures Run(feed, init, u, m) == Run(feed, init, v, m)
  {
    if m < n {
      SuffixInjective(feed, init, u, v, m, n - 1);
    }
  }

  /** `agree(a, b, k)` is full agreement for `k == 0`, and undoing one symbol loses one level of agreement. */
  ghost predicate Undoes<S(!new), T(!new)>(feed: (S, T) -> S, agree: (S, S, nat) -> bool, depth: nat) {
    && (forall a :: agree(a, a, 0))
    && (forall a, b, s, t, k: nat :: k < depth && agree(feed(a, s), feed(b, t), k) ==>
          agree(a, b, k + 1) && (a == b ==> s == t))
  }

  lemma {:induction false} WindowBack<S(!new), T(!new)>(feed: (S, T) -> S, agree: (S, S, nat) -> bool, depth: nat,
                                                        init: S, u: seq<T>, v: seq<T>, n: nat, k: nat, level: nat)
    requires Undoes(feed, agree, depth) && k <= n <= |u| == |v| && level + k <= depth
    requires agree(Run(feed, init, u, n), Run(feed, init, v, n), level)
    ensures agree(Run(feed, init, u, n - k), Run(feed, init, v, n - k), level + k)
  {
    if k > 0 {
      WindowBack(feed, agree, depth, init, u, v, n, k - 1, level);
      var m := n - k;
      assert Run(feed, init, u, m + 1) == feed(Run(feed, init, u, m), u[m]);
      assert Run(feed, init, v, m + 1) == feed(Run(feed, init, v, m), v[m]);
    }
  }

  lemma FirstDifference<T>(u: seq<T>, v: seq<T>) returns (first: nat)
    requires |u| == |v| && u != v
    ensures first < |u| && u[first] != v[first] && forall i :: 0 <= i < first ==> u[i] == v[i]
  {
    first := 0;
    while first < |u| && u[first] == v[first]
      invariant first <= |u| && forall i :: 0 <= i < first ==> u[i] == v[i]
    {
      first := first + 1;
    }
  }

  /** Texts that differ only in their last symbols leave registers that do not agree, not even to the level that is out
      of reach of the difference. */
  lemma TailBurst<S(!new), T(!new)>(feed: (S, T) -> S, agree: (S, S, nat) -> bool, depth: nat, init: S,
                                    u: seq<T>, v: seq<T>, n: nat, from: nat, level: nat)
    requires Undoes(feed, agree, depth) && from <= n <= |u| == |v| && n - from + level <= depth
    requires u[..n] != v[..n] && forall i :: 0 <= i < from ==> u[i] == v[i]
    ensures !agree(Run(feed, init, u, n), Run(feed, init, v, n), level)
  {
    var first := FirstDifference(u[..n], v[..n]);
    assert u[..n][first] == u[first] && v[..n][first] == v[first];
    forall i | 0 <= i < first ensures u[i] == v[i] {
      assert u[..n][i] == u[i] && v[..n][i] == v[i];
    }
    RunPrefix(feed, init, u, v, first);
    assert Run(feed, init, u, first + 1) == feed(Run(feed, init, u, first), u[first]);
    assert Run(feed, init, v, first + 1) == feed(Run(feed, init, v, first), v[first]);
    if agree(Run(feed, init, u, n), Run(feed, init, v, n), level) {
      WindowBack(feed, agree, depth, init, u, v, n, n - (first + 1), level);
    }
  }

  /** Texts that differ only inside a window of `depth` symbols leave different registers. */
  lemma BurstDetected<S(!new), T(!new)>(feed: (S, T) -> S, agree: (S, S, nat) -> bool, depth: nat,
                                        init: S, u: seq<T>, v: seq<T>, from: nat)
    requires Undoes(feed, agree, depth)
    requires forall a, b, t :: feed(a, t) == feed(b, t) ==> a == b
    requires |u| == |v| && u != v
    requires forall i :: 0 <= i < |u| && !(from <= i < from + depth) ==> u[i] == v[i]
    ensures Run(feed, init, u, |u|) != Run(feed, init, v, |v|)
  {
    var first := FirstDifference(u, v);
    var end := if from + depth < |u| then from + depth else |u|;
    assert u[..end][first] != v[..end][first];
    TailBurst(feed, agree, depth, init, u, v, end, from, 0);
    if Run(feed, init, u, |u|) == Run(feed, init, v, |v|) {
      SuffixInjective(feed, init, u, v, end, |u|);
    }
  }

  // ---------- Spelling a block as symbols ----------

  /** The first `n` symbols of `b`. */
  function Spell<B, T>(first: B -> T, rest: B -> B, b: B, n: nat): (text: seq<T>)
    ensures |text| == n
    decreases n
  {
    if n == 0 then [] else [first(b)] + Spell(first, rest, rest(b), n - 1)
  }

  /** What is left of `b` after its first `n` symbols. */
  function Left<B>(rest: B -> B, b: B, n: nat): B
    decreases n
  {
    if n == 0 then b else Left(rest, rest(b), n - 1)
  }

  lemma {:induction false} SpellInjective<B, T>(first: B -> T, rest: B -> B, b: B, c: B, n: nat)
    requires forall x, y :: first(x) == first(y) && rest(x) == rest(y) ==> x == y
    requires Spell(first, rest, b, n) == Spell(first, rest, c, n) && Left(rest, b, n) == Left(rest, c, n)
    ensures b == c
    decreases n
  {
    if n > 0 {
      var u, v := Spell(first, rest, b, n), Spell(first, rest, c, n);
      assert u[0] == v[0];
      assert u[1..] == Spell(first, rest, rest(b), n - 1) && v[1..] == Spell(first, rest, rest(c), n - 1);
      SpellInjective(first, rest, rest(b), rest(c), n - 1);
    }
  }

  /** Holding the unread symbols inside the register (`hold`) is the same as feeding them one by one. */
  lemma {:induction false} HoldIsFeed<S, T, B>(feed: (S, T) -> S, shift: S -> S, hold: (S, B) -> S,
                                               first: B -> T, rest: B -> B, c: S, b: B, n: nat)
    requires forall x, y :: shift(hold(x, y)) == hold(feed(x, first(y)), rest(y))
    ensures Left(shift, hold(c, b), n) == hold(Run(feed, c, Spell(first, rest, b, n), n), Left(rest, b, n))
    decreases n
  {
    if n > 0 {
      HoldIsFeed(feed, shift, hold, first, rest, feed(c, first(b)), rest(b), n - 1);
      var tail := Spell(first, rest, rest(b), n - 1);
      RunAppend(feed, c, [first(b)], tail, n - 1);
      assert Run(feed, c, [first(b)], 1) == feed(Run(feed, c, [first(b)], 0), first(b));
      assert 1 + (n - 1) == n;
    }
  }

  /** The blocks of `data`, spelled one after the other. */
  function Text<B, T>(spell: B -> seq<T>, data: seq<B>): seq<T> {
    if data == [] then [] else Text(spell, data[..|data| - 1]) + spell(data[|data| - 1])
  }

  lemma TextAppend<B, T>(spell: B -> seq<T>, data: seq<B>, b: B)
    ensures Text(spell, data + [b]) == Text(spell, data) + spell(b)
  {
    assert (data + [b])[..|data|] == data;
  }

  /** Texts of equally long blocks agree wherever the blocks agree, and determine the blocks. */
  lemma {:induction false} TextAgrees<B, T>(spell: B -> seq<T>, a: seq<B>, b: seq<B>, i: nat)
    requires (forall x :: |spell(x)| == 8) && |a| == |b|
    ensures |Text(spell, a)| == |Text(spell, b)| == 8 * |a|
    ensures i < 8 * |a| && a[i / 8] == b[i / 8] ==> Text(spell, a)[i] == Text(spell, b)[i]
  {
    if a != [] {
      TextAgrees(spell, a[..|a| - 1], b[..|b| - 1], i);
    }
  }

  lemma {:induction false} TextInjective<B, T>(spell: B -> seq<T>, a: seq<B>, b: seq<B>)
    requires (forall x :: |spell(x)| == 8) && (forall x, y :: spell(x) == spell(y) ==> x == y)
    requires |a| == |b| && Text(spell, a) == Text(spell, b)
    ensures a == b
  {
    if a != [] {
      var n := |a| - 1;
      TextAgrees(spell, a[..n], b[..n], 0);
      var s, t := Text(spell, a), Text(spell, b);
      assert s[..8 * n] == Text(spell, a[..n]) && t[..8 * n] == Text(spell, b[..n]);
      assert s[8 * n..] == spell(a[n]) && t[8 * n..] == spell(b[n]);
      TextInjective(spell, a[..n], b[..n]);
      assert a == a[..n] + [a[n]] && b == b[..n] + [b[n]];
    }
  }
}
