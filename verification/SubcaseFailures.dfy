/** Trees with repeated sibling signatures on which the subcase engine goes wrong. */
module SubcaseFailures {
  import opened Wrappers
  import opened Subcases
  import opened SubcaseEngine

  // ----- what goes wrong with repeated siblings -----

  lemma {:induction false} ExecPair(s: State, c: Subcase, d: Subcase)
    requires Sound(s)
    ensures Exec(s, [c, d]) == var r := ExecOne(s, c); if r.None? then None else ExecOne(r.value, d)
  {
    assert [c, d][1..] == [d];
    if ExecOne(s, c).Some? {
      ExecSingle(ExecOne(s, c).value, d);
    }
  }

  lemma {:induction false} ExecSingle(s: State, c: Subcase)
    requires Sound(s)
    ensures Exec(s, [c]) == ExecOne(s, c)
  {
    assert [c][1..] == [];
  }

  /** Two subcases of the same signature, each with a subcase of its own. */
  function Twins(a: Signature, b: Signature, c: Signature): seq<Subcase> {
    [Subcase(a, [Subcase(b, [])]), Subcase(a, [Subcase(c, [])])]
  }

  /** Of `a { b }, a { c }` the leaf `c` never runs: the second run looks for it in the first `a`, takes
      that for a leaf, and in the second `a` reads the stack behind its end. */
  lemma {:induction false} TwinsGoOutOfRange(a: Signature, b: Signature, c: Signature)
    requires b != c
    ensures After(Twins(a, b, c), 1).Running? && After(Twins(a, b, c), 1).runs == [[a, b]]
    ensures After(Twins(a, b, c), 2) == OutOfRange
  {
    var body := Twins(a, b, c);
    assert After(body, 0) == Running(START, []);
    var s1 := TwinsFirstRun(a, b, c);
    assert After(body, 1) == Running(s1, [[a, b]]);
    TwinsSecondRun(a, b, c, s1);
  }

  lemma {:induction false} TwinsFirstRun(a: Signature, b: Signature, c: Signature) returns (r: State)
    requires b != c
    ensures Exec(Reset(START), Twins(a, b, c)) == Some(r) && r.stack == [a, b] && r.next == [a, c]
  {
    var x, y, s := Subcase(b, []), Subcase(c, []), Reset(START);
    var s1 := State([a], [], false, 1, {}, [[a]]);
    assert [] + [a] == [a] && [] + [[a]] == [[a]] && [a] + [b] == [a, b];
    assert EnterStep(s, a) == Some((s1, true));
    ExecSingle(s1, x);
    var s2 := State([a, b], [], true, 0, {[a, b]}, [[a]] + [[a, b]]);
    assert {} + {[a, b]} == {[a, b]} && {[a, b]} + {[a, b]} == {[a, b]};
    assert ExecOne(s1, x) == Some(s2.(depth := 1));
    assert ExecOne(s, Subcase(a, [x])) == Some(s2);
    var s3 := s2.(depth := 1, started := s2.started + [[a, b][..1]]);
    assert [a, b][..1] == [a] && [a] + [c] == [a, c];
    ExecSingle(s3, y);
    r := s3.(next := [a, c], depth := 0);
    assert [a, c][1] != [a, b][1];
    assert ExecOne(s2, Subcase(a, [y])) == Some(r);
    ExecPair(s, Subcase(a, [x]), Subcase(a, [y]));
  }

  lemma {:induction false} TwinsSecondRun(a: Signature, b: Signature, c: Signature, s0: State)
    requires b != c && s0.next == [a, c]
    ensures Exec(Reset(s0), Twins(a, b, c)) == None
  {
    var x, y, s := Subcase(b, []), Subcase(c, []), Reset(s0);
    assert [] + [a] == [a];
    var s1 := s.(stack := [a], depth := 1, started := s.started + [[a]]);
    ExecSingle(s1, x);
    var s2 := State([a], [], true, 0, s.finished + {[a]}, s1.started);
    assert ExecOne(s, Subcase(a, [x])) == Some(s2);
    ExecSingle(s2.(depth := 1, started := s2.started + [[a][..1]]), y);
    ExecPair(s, Subcase(a, [x]), Subcase(a, [y]));
  }

  /** `a { b }` met twice, as in a loop, is executed twice in one run, and reported twice from `a` down. */
  lemma {:induction false} TwiceIsReportedTwice(a: Signature, b: Signature)
    ensures After([Nest(a, b), Nest(a, b)], 1) == Ended([[a, b]], [[a], [a, b], [a], [a, b]])
  {
    var body, s := [Nest(a, b), Nest(a, b)], Reset(START);
    assert After(body, 0) == Running(START, []);
    var r := TwiceRuns(a, b);
    ReportsAreEntered(s, body, []);
    TwiceEntered(a, b);
    assert Exec(s, body).value.started == [] + [[a], [a, b], [a], [a, b]];
    assert After(body, 1) == OneRun(body, START, []);
    assert [] + [[a, b]] == [[a, b]];
  }

  lemma {:induction false} TwiceRuns(a: Signature, b: Signature) returns (r: State)
    ensures ExecOne(Reset(START), Nest(a, b)) == Some(r) && r.reachedLeaf && r.stack == [a, b] && r.depth == 0
    ensures var e := Exec(Reset(START), [Nest(a, b), Nest(a, b)]); e.Some? && e.value.stack == [a, b] && e.value.next == []
  {
    var s := Reset(START);
    DescendNest(s, a, b);
    r := ExecOne(s, Nest(a, b)).value;
    assert s.stack + [a, b] == [a, b];
    assert r == Silent(r).(started := r.started);
    assert r.stack[r.depth..] == [a, b];
    ReenterNest(r, a, b);
    ExecPair(s, Nest(a, b), Nest(a, b));
    var e := ExecOne(r, Nest(a, b)).value;
    assert e == Silent(e).(started := e.started);
  }

  lemma {:induction false} TwiceEntered(a: Signature, b: Signature)
    ensures EnteredIn(Reset(START), [Nest(a, b), Nest(a, b)], []) == [[a], [a, b], [a], [a, b]]
  {
    var s := Reset(START);
    var r := TwiceRuns(a, b);
    NestEntered(s, a, b);
    NestEntered(r, a, b);
    var rest := [Nest(a, b), Nest(a, b)][1..];
    assert rest == [Nest(a, b)] && rest[1..] == [];
    assert EnteredIn(r, rest, []) == [[a], [a, b]];
    assert EnteredIn(s, [Nest(a, b), Nest(a, b)], []) == [[a], [a, b]] + [[a], [a, b]];
  }

  lemma {:induction false} NestEntered(s: State, a: Signature, b: Signature)
    requires Sound(s) && s.depth == 0 && (if s.reachedLeaf then s.stack == [a, b] else s.next == [])
    ensures EnteredAt(s, Nest(a, b), []) == [[a], [a, b]]
  {
    var e := EnterStep(s, a).value;
    var top: Path := [];
    assert top + [a] == [a] && [a] + [b] == [a, b];
    var leaf := Subcase(b, []);
    assert [leaf][1..] == [];
    assert EnteredAt(e.0, leaf, [a]) == [[a, b]];
    assert EnteredIn(e.0, [leaf], [a]) == [[a, b]];
  }

  function Nest(p: Signature, q: Signature): Subcase {
    Subcase(p, [Subcase(q, [])])
  }

  function Silent(s: State): State {
    s.(started := [])
  }

  /** Going down into a subcase with one subcase of its own. */
  lemma {:induction false} DescendNest(s: State, p: Signature, q: Signature)
    requires Sound(s) && !s.reachedLeaf && |s.next| <= |s.stack| + 1 && (|s.next| == |s.stack| + 1 ==> s.next[|s.stack|] == p)
    ensures var r := ExecOne(s, Nest(p, q)); var stack := s.stack + [p, q];
            r.Some? && Silent(r.value) == State(stack, [], true, s.depth, s.finished + {stack}, [])
  {
    var s1 := EnterStep(s, p).value.0;
    ExecSingle(s1, Subcase(q, []));
    assert s.stack + [p] + [q] == s.stack + [p, q];
  }

  /** Meeting the subcases on the stack again. */
  lemma {:induction false} ReenterNest(s: State, p: Signature, q: Signature)
    requires Sound(s) && s.reachedLeaf && |s.stack| == s.depth + 2 && s.stack[s.depth..] == [p, q]
    ensures var r := ExecOne(s, Nest(p, q));
            r.Some? && Silent(r.value) == Silent(s.(finished := if s.next == [] then s.finished + {s.stack} else s.finished))
  {
    assert s.stack[s.depth] == s.stack[s.depth..][0] && s.stack[s.depth + 1] == s.stack[s.depth..][1];
    ExecSingle(EnterStep(s, p).value.0, Subcase(q, []));
  }

  lemma {:induction false} PassNest(s: State, p: Signature, q: Signature)
    requires Sound(s) && s.reachedLeaf && s.depth < |s.stack| && s.stack[s.depth] != p
    ensures var path := s.stack[..s.depth] + [p];
            ExecOne(s, Nest(p, q)) == Some(if |s.next| <= s.depth && path !in s.finished then s.(next := path) else s)
  {
  }

  /** The same subcase twice, with two subcases that have one of their own. */
  function Doubled(a: Signature, b: Signature, x: Signature, c: Signature, y: Signature): seq<Subcase> {
    var twin := Subcase(a, [Nest(b, x), Nest(c, y)]);
    [twin, twin]
  }

  /** Where a run over such a body leaves the engine: below `taken`, sent to `[a, other]`. */
  ghost predicate SentTo(r: Option<State>, finished: set<Path>, taken: Path, next: Path) {
    r.Some? && r.value.next == next && r.value.stack == taken && r.value.finished == finished + {taken}
  }

  lemma {:induction false} DoubledTakesFirst(a: Signature, b: Signature, x: Signature, c: Signature, y: Signature, s: State)
    requires b != c && (s.next == [] || s.next == [a, b]) && [a, c] !in s.finished
    ensures SentTo(Exec(Reset(s), Doubled(a, b, x, c, y)), s.finished, [a, b, x], [a, c])
  {
    var inner, s0, taken := [Nest(b, x), Nest(c, y)], Reset(s), [a, b, x];
    var s1 := EnterStep(s0, a).value.0;
    assert s1.stack == [a] && [a] + [b, x] == taken;
    DescendNest(s1, b, x);
    var s2 := ExecOne(s1, Nest(b, x)).value;
    assert s2.stack[..1] + [c] == [a, c] && s2.stack[1] == b;
    PassNest(s2, c, y);
    ExecPair(s1, Nest(b, x), Nest(c, y));
    var s3 := ExecOne(s0, Subcase(a, inner)).value;
    assert Silent(s3) == State(taken, [a, c], true, 0, s.finished + {taken}, []);
    var s4 := EnterStep(s3, a).value.0;
    assert s4.stack[1..] == [b, x];
    ReenterNest(s4, b, x);
    var s5 := ExecOne(s4, Nest(b, x)).value;
    PassNest(s5, c, y);
    ExecPair(s4, Nest(b, x), Nest(c, y));
    ExecPair(s0, Subcase(a, inner), Subcase(a, inner));
  }

  lemma {:induction false} DoubledTakesSecond(a: Signature, b: Signature, x: Signature, c: Signature, y: Signature, s: State)
    requires b != c && s.next == [a, c] && [a, b] !in s.finished
    ensures SentTo(Exec(Reset(s), Doubled(a, b, x, c, y)), s.finished, [a, c, y], [a, b])
  {
    var inner, s0, taken := [Nest(b, x), Nest(c, y)], Reset(s), [a, c, y];
    var s1 := EnterStep(s0, a).value.0;
    assert s1.stack == [a] && [a] + [c, y] == taken;
    assert ExecOne(s1, Nest(b, x)) == Some(s1);
    DescendNest(s1, c, y);
    ExecPair(s1, Nest(b, x), Nest(c, y));
    var s3 := ExecOne(s0, Subcase(a, inner)).value;
    assert Silent(s3) == State(taken, [], true, 0, s.finished + {taken}, []);
    var s4 := EnterStep(s3, a).value.0;
    assert s4.stack[..1] + [b] == [a, b] && s4.stack[1] == c;
    PassNest(s4, b, x);
    var s5 := ExecOne(s4, Nest(b, x)).value;
    assert s5.stack[1..] == [c, y];
    ReenterNest(s5, c, y);
    ExecPair(s4, Nest(b, x), Nest(c, y));
    ExecPair(s0, Subcase(a, inner), Subcase(a, inner));
  }

  /** `a { b { x } c { y } }` written twice never ends: inner subcases are never marked as finished, so
      behind the leaf below one of them the second `a` always sends the next run to the other. */
  lemma {:induction false} DoubledNeverEnds(a: Signature, b: Signature, x: Signature, c: Signature, y: Signature, n: nat)
    requires b != c
    ensures var p := After(Doubled(a, b, x, c, y), n);
            && p.Running? && [a, b] !in p.state.finished && [a, c] !in p.state.finished
            && (p.state.next == [] || p.state.next == [a, b] || p.state.next == [a, c])
  {
    var body := Doubled(a, b, x, c, y);
    if n > 0 {
      DoubledNeverEnds(a, b, x, c, y, n - 1);
      var s := After(body, n - 1).state;
      if s.next == [a, c] {
        DoubledTakesSecond(a, b, x, c, y, s);
      } else {
        DoubledTakesFirst(a, b, x, c, y, s);
      }
    }
  }
}
