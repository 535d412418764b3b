/** Lists of steps carried out in order, for any step function. */
module Paths {

  /** The state reached, and everything emitted on the way. */
  function Play<F, A, O>(step: (F, A) -> (F, seq<O>), f: F, acts: seq<A>): (F, seq<O>) {
    if acts == [] then (f, [])
    else
      var (m, ops) := Play(step, f, acts[..|acts| - 1]);
      var (f', more) := step(m, acts[|acts| - 1]);
      (f', ops + more)
  }

  /** Each step is allowed where it is taken. */
  ghost predicate Guarded<F, A, O>(step: (F, A) -> (F, seq<O>), ok: (F, A) -> bool, f: F, acts: seq<A>) {
    if acts == [] then true
    else
      && Guarded(step, ok, f, acts[..|acts| - 1])
      && ok(Play(step, f, acts[..|acts| - 1]).0, acts[|acts| - 1])
  }

  lemma {:induction false} PlayConcat<F, A, O>(step: (F, A) -> (F, seq<O>), f: F, a: seq<A>, b: seq<A>)
    ensures var (m, ops1) := Play(step, f, a);
            var (f', ops2) := Play(step, m, b);
            Play(step, f, a + b).0 == f' && Play(step, f, a + b).1 == ops1 + ops2
  {
    if b == [] {
      assert a + b == a;
    } else {
      var n := |b| - 1;
      PlayConcat(step, f, a, b[..n]);
      assert (a + b)[..|a + b| - 1] == a + b[..n];
      assert (a + b)[|a + b| - 1] == b[n];
      var (m, ops1) := Play(step, f, a);
      var (m1, ops2) := Play(step, m, b[..n]);
      var more := step(m1, b[n]).1;
      assert ops1 + ops2 + more == ops1 + (ops2 + more);
    }
  }

  lemma {:induction false} GuardedConcat<F, A, O>(step: (F, A) -> (F, seq<O>), ok: (F, A) -> bool, f: F, a: seq<A>, b: seq<A>)
    requires Guarded(step, ok, f, a) && Guarded(step, ok, Play(step, f, a).0, b)
    ensures Guarded(step, ok, f, a + b)
  {
    if b == [] {
      assert a + b == a;
    } else {
      var n := |b| - 1;
      GuardedConcat(step, ok, f, a, b[..n]);
      PlayConcat(step, f, a, b[..n]);
      assert (a + b)[..|a + b| - 1] == a + b[..n];
    }
  }
}
