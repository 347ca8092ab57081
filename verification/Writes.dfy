// Writes that take effect one after another, until the other side takes no more.
module Writes {

  /** What a sequence of writes leaves, given what one does. */
  function Execute<S, W>(apply: (S, W) -> S, s: S, writes: seq<W>): S {
    if writes == [] then s else apply(Execute(apply, s, writes[..|writes| - 1]), writes[|writes| - 1])
  }

  /** The first n writes, when only so many are taken. */
  function Cut<W>(writes: seq<W>, n: nat): seq<W> {
    if n <= |writes| then writes[..n] else writes
  }

  lemma CutAll<W>(writes: seq<W>, n: nat)
    requires n >= |writes|
    ensures Cut(writes, n) == writes
  {
  }

  lemma CutOfCut<W>(writes: seq<W>, n: nat, m: nat)
    ensures Cut(Cut(writes, n), m) == Cut(writes, if m <= n then m else n)
  {
  }

  lemma ExecuteNothing<S, W>(apply: (S, W) -> S, s: S)
    ensures Execute(apply, s, []) == s
  {
  }

  lemma NoWrites<S, W>(apply: (S, W) -> S, s: S, n: nat)
    ensures Execute(apply, s, Cut([], n)) == s
  {
  }

  lemma NoneTaken<S, W>(apply: (S, W) -> S, s: S, writes: seq<W>)
    ensures Execute(apply, s, Cut(writes, 0)) == s
  {
  }

  lemma ExecuteOne<S, W>(apply: (S, W) -> S, s: S, w: W)
    ensures Execute(apply, s, []) == s && Execute(apply, s, [w]) == apply(s, w)
  {
    assert [w][..0] == [];
  }

  /** One write more. */
  lemma NextWrite<S, W>(apply: (S, W) -> S, s: S, writes: seq<W>, n: nat)
    requires n < |writes|
    ensures Execute(apply, s, Cut(writes, 0)) == s
    ensures Execute(apply, s, Cut(writes, n + 1)) == apply(Execute(apply, s, Cut(writes, n)), writes[n])
  {
    assert writes[..n + 1][..n] == writes[..n];
  }

  lemma {:induction false} ExecuteAppend<S, W>(apply: (S, W) -> S, s: S, a: seq<W>, b: seq<W>)
    ensures Execute(apply, s, a + b) == Execute(apply, Execute(apply, s, a), b)
  {
    if b == [] {
      assert a + b == a;
    } else {
      ExecuteAppend(apply, s, a, b[..|b| - 1]);
      assert (a + b)[..|a + b| - 1] == a + b[..|b| - 1];
    }
  }

  /** A cut falls in the first part, or after it. */
  lemma ExecuteCut<S, W>(apply: (S, W) -> S, s: S, a: seq<W>, b: seq<W>, n: nat)
    ensures n < |a| ==> Execute(apply, s, Cut(a + b, n)) == Execute(apply, s, Cut(a, n))
    ensures n >= |a| ==> Execute(apply, s, Cut(a + b, n)) == Execute(apply, Execute(apply, s, a), Cut(b, n - |a|))
  {
    hide Execute;
    if n >= |a| {
      assert Cut(a + b, n) == a + Cut(b, n - |a|);
      ExecuteAppend(apply, s, a, Cut(b, n - |a|));
    } else {
      assert Cut(a + b, n) == Cut(a, n);
    }
  }
}
