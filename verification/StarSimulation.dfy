/** Simulation between two deterministic machines, where one step of the first is several of the second. */
module StarSimulation {
  function Iterate<S>(step: S -> S, s: S, n: nat): S
    decreases n
  {
    if n == 0 then s else Iterate(step, step(s), n - 1)
  }

  lemma {:induction false} IterateAdds<S>(step: S -> S, s: S, m: nat, n: nat)
    ensures Iterate(step, s, m + n) == Iterate(step, Iterate(step, s, m), n)
    decreases m
  {
    if m > 0 {
      IterateAdds(step, step(s), m - 1, n);
    }
  }

  lemma {:induction false} Rests<S>(step: S -> S, s: S, n: nat)
    requires step(s) == s
    ensures Iterate(step, s, n) == s
    decreases n
  {
    if n > 0 {
      Rests(step, s, n - 1);
    }
  }

  /** The machines, the relation between their states, when each is over, and what a silent step lowers. */
  datatype Pair<!A, !B> = Pair(
    first: A -> A,
    second: B -> B,
    related: (A, B) -> bool,
    over: A -> bool,
    done: B -> bool,
    measure: A -> nat)

  ghost predicate Answered<A, B>(p: Pair<A, B>, a: A, b: B, j: nat) {
    && p.related(p.first(a), Iterate(p.second, b, j))
    && (j == 0 && !p.over(a) ==> p.measure(p.first(a)) < p.measure(a))
  }

  /** A related pair: the first machine's step is answered, both are over together, and then the second rests. */
  ghost predicate Matched<A, B>(p: Pair<A, B>, a: A, b: B) {
    p.related(a, b) ==>
      && (exists j :: Answered(p, a, b, j))
      && (p.over(a) <==> p.done(b))
      && (p.done(b) ==> p.second(b) == b)
  }

  /** Every first step is answered by second steps, silently only finitely long; both end together and then rest. */
  ghost predicate Simulates<A(!new), B(!new)>(p: Pair<A, B>) {
    forall a, b {:trigger Matched(p, a, b)} :: Matched(p, a, b)
  }

  /** However far the first machine runs, the second reaches a related state. */
  lemma {:induction false} Follows<A(!new), B(!new)>(p: Pair<A, B>, a: A, b: B, n: nat) returns (k: nat)
    requires Simulates(p) && p.related(a, b)
    ensures p.related(Iterate(p.first, a, n), Iterate(p.second, b, k))
    decreases n
  {
    if n == 0 {
      k := 0;
    } else {
      assert Matched(p, a, b);
      var j: nat :| Answered(p, a, b, j);
      var rest := Follows(p, p.first(a), Iterate(p.second, b, j), n - 1);
      IterateAdds(p.second, b, j, rest);
      k := j + rest;
    }
  }

  /** However far the second machine runs, the first has a state related to one at or past that point. */
  lemma {:induction false} CatchesUp<A(!new), B(!new)>(p: Pair<A, B>, a: A, b: B, k: nat) returns (n: nat, m: nat)
    requires Simulates(p) && p.related(a, b)
    ensures k <= m && p.related(Iterate(p.first, a, n), Iterate(p.second, b, m))
    decreases k, p.measure(a)
  {
    if k == 0 {
      n, m := 0, 0;
    } else if p.over(a) {
      n, m := 0, k;
      assert Matched(p, a, b);
      Rests(p.second, b, k);
    } else {
      assert Matched(p, a, b);
      var j: nat :| Answered(p, a, b, j);
      var left := if j < k then k - j else 0;
      n, m := CatchesUp(p, p.first(a), Iterate(p.second, b, j), left);
      IterateAdds(p.second, b, j, m);
      n, m := n + 1, j + m;
    }
  }

  /** Wherever the second machine is done, the first has a state related to that one. */
  lemma EndsWhereFirstDoes<A(!new), B(!new)>(p: Pair<A, B>, a: A, b: B, k: nat) returns (n: nat)
    requires Simulates(p) && p.related(a, b)
    requires forall t {:trigger p.done(t)} :: p.done(t) ==> p.second(t) == t
    requires p.done(Iterate(p.second, b, k))
    ensures p.related(Iterate(p.first, a, n), Iterate(p.second, b, k))
  {
    var m: nat;
    n, m := CatchesUp(p, a, b, k);
    IterateAdds(p.second, b, k, m - k);
    Rests(p.second, Iterate(p.second, b, k), m - k);
  }
}
