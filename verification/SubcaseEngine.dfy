/** The engine that runs the subcases of a test: what constructors and destructors record while a run
    passes through them, what that makes of the next run, and on which trees every leaf runs once. */
module SubcaseEngine {
  import opened Wrappers
  import opened Subcases

  // ----- what the engine does -----

  /** The part of the runner's context that steers subcases, and the `subcase_start` reports, each as
      the path that was entered. Paths stand for their hashes. */
  datatype State = State(stack: Path, next: Path, reachedLeaf: bool, depth: nat, finished: set<Path>, started: seq<Path>)

  const START := State([], [], false, 0, {}, [])

  predicate Sound(s: State) {
    if s.reachedLeaf then s.depth <= |s.stack| else s.depth == |s.stack|
  }

  /** The constructor of a subcase, and whether the subcase is entered; `None` when it reads the stack
      behind its end. */
  function EnterStep(s: State, sig: Signature): (r: Option<(State, bool)>)
    requires Sound(s)
    ensures r.Some? ==> Sound(r.value.0) && r.value.0.depth == s.depth + if r.value.1 then 1 else 0
  {
    if !s.reachedLeaf then
      if |s.next| <= |s.stack| || s.next[|s.stack|] == sig then
        var stack := s.stack + [sig];
        Some((s.(stack := stack, depth := s.depth + 1, started := s.started + [stack]), true))
      else Some((s, false))
    else if s.depth == |s.stack| then None
    else if s.stack[s.depth] == sig then
      Some((s.(depth := s.depth + 1, started := s.started + [s.stack[..s.depth + 1]]), true))
    else if |s.next| <= s.depth && s.stack[..s.depth] + [sig] !in s.finished then
      Some((s.(next := s.stack[..s.depth] + [sig]), false))
    else Some((s, false))
  }

  /** The destructor of an entered subcase. */
  function LeaveStep(s: State): (r: State)
    requires Sound(s) && s.depth > 0
    ensures Sound(r) && r.depth == s.depth - 1
  {
    var finished := if !s.reachedLeaf || s.next == [] then s.finished + {s.stack} else s.finished;
    State(s.stack, if s.reachedLeaf then s.next else [], true, s.depth - 1, finished, s.started)
  }

  /** One subcase, from its constructor to the end of its scope. */
  function ExecOne(s: State, c: Subcase): (r: Option<State>)
    requires Sound(s)
    ensures r.Some? ==> Sound(r.value) && r.value.depth == s.depth
    decreases c
  {
    var e := EnterStep(s, c.sig);
    if e.None? then None
    else if !e.value.1 then Some(e.value.0)
    else
      var r := Exec(e.value.0, c.body);
      if r.None? then None else Some(LeaveStep(r.value))
  }

  /** A test body, or what is left of it. */
  function Exec(s: State, body: seq<Subcase>): (r: Option<State>)
    requires Sound(s)
    ensures r.Some? ==> Sound(r.value) && r.value.depth == s.depth
    decreases body
  {
    if body == [] then Some(s)
    else
      var r := ExecOne(s, body[0]);
      if r.None? then None else Exec(r.value, body[1..])
  }

  /** Where the loop over one test case stands after some runs, each given by the stack it ends with. */
  datatype Progress =
    | Running(state: State, runs: seq<Path>)
    | Ended(runs: seq<Path>, started: seq<Path>)
    | OutOfRange

  function Reset(s: State): State {
    s.(stack := [], reachedLeaf := false, depth := 0)
  }

  function OneRun(body: seq<Subcase>, s: State, runs: seq<Path>): Progress {
    var r := Exec(Reset(s), body);
    if r.None? then OutOfRange
    else if r.value.next == [] then Ended(runs + [r.value.stack], r.value.started)
    else Running(r.value, runs + [r.value.stack])
  }

  function After(body: seq<Subcase>, n: nat): Progress {
    if n == 0 then Running(START, [])
    else
      var before := After(body, n - 1);
      if before.Running? then OneRun(body, before.state, before.runs) else before
  }

  /** The runs the loop is there to make: one for each leaf, or a single one when there are none. */
  function AllRuns(body: seq<Subcase>): seq<Path> {
    if body == [] then [[]] else Leaves(body)
  }

  /** The loop ends, having made exactly these runs, in order, and reported nothing but the way down
      to their leaves. */
  ghost predicate RunsEachLeafOnce(body: seq<Subcase>) {
    exists n: nat :: After(body, n) == Ended(AllRuns(body), Reports(AllRuns(body)))
  }

  // ----- what is reported -----

  /** The ways down to the subcases whose bodies are executed, in order: `at` is the signatures of the
      scopes around the body, whatever the stack says. */
  ghost function EnteredIn(s: State, body: seq<Subcase>, at: Path): seq<Path>
    requires Sound(s)
    decreases body
  {
    if body == [] then []
    else
      var r := ExecOne(s, body[0]);
      EnteredAt(s, body[0], at) + if r.None? then [] else EnteredIn(r.value, body[1..], at)
  }

  ghost function EnteredAt(s: State, c: Subcase, at: Path): seq<Path>
    requires Sound(s)
    decreases c
  {
    var e := EnterStep(s, c.sig);
    if e.None? || !e.value.1 then [] else [at + [c.sig]] + EnteredIn(e.value.0, c.body, at + [c.sig])
  }

  /** The scopes around what is executed are the part of the stack down to the current depth. */
  ghost predicate Around(s: State, at: Path) {
    Sound(s) && |at| == s.depth && s.stack[..s.depth] == at
  }

  /** The reports are exactly the ways down to the subcases entered, on the way to a leaf and behind it,
      with repeated siblings and without. */
  lemma {:induction false} ReportsAreEntered(s: State, body: seq<Subcase>, at: Path)
    requires Around(s, at)
    ensures var e := Exec(s, body); e.Some? ==> Around(e.value, at) && e.value.started == s.started + EnteredIn(s, body, at)
    decreases body, 1
  {
    if body != [] && ExecOne(s, body[0]).Some? {
      var r := ExecOne(s, body[0]).value;
      ReportedOne(s, body[0], at);
      ReportsAreEntered(r, body[1..], at);
      assert (s.started + EnteredAt(s, body[0], at)) + EnteredIn(r, body[1..], at) ==
             s.started + (EnteredAt(s, body[0], at) + EnteredIn(r, body[1..], at));
    }
  }

  lemma {:induction false} ReportedOne(s: State, c: Subcase, at: Path)
    requires Around(s, at) && ExecOne(s, c).Some?
    ensures Around(ExecOne(s, c).value, at)
    ensures ExecOne(s, c).value.started == s.started + EnteredAt(s, c, at)
    decreases c, 0
  {
    var e := EnterStep(s, c.sig).value;
    if e.1 {
      var deeper := at + [c.sig];
      assert e.0.stack[..e.0.depth] == deeper;
      assert !s.reachedLeaf ==> s.stack[..s.depth] == s.stack;
      assert s.reachedLeaf ==> s.stack[..s.depth + 1] == deeper;
      assert e.0.started == s.started + [deeper];
      ReportsAreEntered(e.0, c.body, deeper);
      var inner := Exec(e.0, c.body).value;
      assert inner.stack[..s.depth] == deeper[..s.depth] == at;
      assert (s.started + [deeper]) + EnteredIn(e.0, c.body, deeper) == s.started + ([deeper] + EnteredIn(e.0, c.body, deeper));
    }
  }

  /** So it is for every run of a test. */
  lemma {:induction false} RunReportsEntered(body: seq<Subcase>, s: State, runs: seq<Path>)
    ensures var p := OneRun(body, s, runs);
            !p.OutOfRange? ==> (if p.Running? then p.state.started else p.started) == s.started + EnteredIn(Reset(s), body, [])
  {
    if Exec(Reset(s), body).Some? {
      ReportsAreEntered(Reset(s), body, []);
    }
  }

  // ----- distinct siblings -----

  /** What a run still has to find below the current path. */
  function Want(s: State): Path {
    WantAt(s.next, s.depth)
  }

  /** The engine descends: nothing has been reached yet and the current path is the whole stack. */
  ghost predicate Descending(s: State, body: seq<Subcase>) {
    !s.reachedLeaf && s.depth == |s.stack| && DescendsInto(body, s.stack, s.next, s.finished)
  }

  /** The engine has run its leaf and passes the subcases behind it. */
  ghost predicate Passing(s: State, body: seq<Subcase>) {
    s.reachedLeaf && Passes(body, s.stack, s.depth, s.next, s.finished)
  }

  /** The state after a run has gone down to a target leaf and picked up its successor. */
  function Found(s: State, target: Path, next: Path, depth: nat): State {
    State(s.stack + target, if next == [] then [] else s.stack + next, true, depth,
          s.finished + {s.stack + target}, s.started + Prefixes(s.stack, target))
  }

  /** Executing a body, or what is left of it. Descending, it enters exactly the subcases on the way to
      the target leaf and leaves the successor of that leaf for the next run; passing, it only picks
      up the first subcase it meets, and only if nothing is picked up yet. */
  lemma {:induction false} ExecBody(s: State, body: seq<Subcase>)
    requires Sound(s) && DistinctSiblings(body) && (Descending(s, body) || Passing(s, body))
    ensures Passing(s, body) ==>
              Exec(s, body) == Some(if s.next == [] && body != [] then s.(next := s.stack[..s.depth] + [body[0].sig]) else s)
    ensures Descending(s, body) && body != [] ==>
              Exec(s, body) == Some(Found(s, Target(body, Want(s)), Successor(body, Want(s)), s.depth))
    decreases body, 1
  {
    if body != [] {
      DistinctParts(body);
      if Passing(s, body) {
        PassOne(s, body);
        ExecBody(ExecOne(s, body[0]).value, body[1..]);
      } else if Want(s) != [] && Want(s)[0] != body[0].sig {
        ExecBody(s, body[1..]);
      } else {
        DescendOne(s, body);
        var s1 := ExecOne(s, body[0]).value;
        ExecBody(s1, body[1..]);
        assert s1.stack[..s1.depth] == s.stack;
        if |body| > 1 { assert body[1..][0] == body[1]; }
      }
    }
  }

  lemma {:induction false} PassOne(s: State, body: seq<Subcase>)
    requires Sound(s) && body != [] && Passing(s, body)
    ensures ExecOne(s, body[0]) == Some(if s.next == [] then s.(next := s.stack[..s.depth] + [body[0].sig]) else s)
    ensures Passing(ExecOne(s, body[0]).value, body[1..])
  {
    PassFirst(body, s.stack, s.depth, s.next, s.finished);
  }

  /** One subcase of a body that is entered on the way down. */
  lemma {:induction false} DescendOne(s: State, body: seq<Subcase>)
    requires Sound(s) && body != [] && DistinctSiblings(body) && Descending(s, body)
    requires Want(s) == [] || Want(s)[0] == body[0].sig
    ensures var inner := Successor(body[0].body, if Want(s) == [] then [] else Want(s)[1..]);
            ExecOne(s, body[0]) == Some(Found(s, Target(body, Want(s)), if inner == [] then [] else [body[0].sig] + inner, s.depth))
    ensures Passing(ExecOne(s, body[0]).value, body[1..])
    decreases body, 0
  {
    var c := body[0];
    DistinctParts(body);
    DescendFirst(body, s.stack, s.next, s.finished);
    var entered := EnterStep(s, c.sig).value.0;
    ExecEntered(entered, c);
    var w := if Want(s) == [] then [] else Want(s)[1..];
    assert Want(entered) == w;
    FoundBelow(s, entered, body, Target(c.body, w), Successor(c.body, w));
    var left := ExecOne(s, c).value;
    PassBehind(body, s.stack, Target(body, Want(s)), left.next, s.finished);
  }

  /** Finding a leaf below an entered subcase is finding it from above. */
  lemma {:induction false} FoundBelow(s: State, entered: State, body: seq<Subcase>, target: Path, next: Path)
    requires body != [] && (Want(s) == [] || Want(s)[0] == body[0].sig)
    requires target == Target(body[0].body, if Want(s) == [] then [] else Want(s)[1..])
    requires entered == s.(stack := s.stack + [body[0].sig], depth := s.depth + 1, started := s.started + [s.stack + [body[0].sig]])
    ensures Target(body, Want(s)) != [] && Target(body, Want(s))[0] == body[0].sig
    ensures Found(entered, target, next, s.depth) ==
            Found(s, Target(body, Want(s)), if next == [] then [] else [body[0].sig] + next, s.depth)
  {
    var sig := body[0].sig;
    var full := TargetStep(body, s.stack, Want(s), s.started);
    var up := if next == [] then [] else [sig] + next;
    assert (s.stack + [sig]) + next == s.stack + ([sig] + next);
    var below, above := Found(entered, target, next, s.depth), Found(s, full, up, s.depth);
    assert below.stack == above.stack && below.started == above.started;
    assert below.finished == above.finished;
    assert below.next == above.next;
  }

  /** The body of an entered subcase and its destructor. */
  lemma {:induction false} ExecEntered(s: State, c: Subcase)
    requires Sound(s) && DistinctSiblings(c.body) && s.depth > 0 && Descending(s, c.body)
    ensures var r := Exec(s, c.body);
            r.Some? && LeaveStep(r.value) == Found(s, Target(c.body, Want(s)), Successor(c.body, Want(s)), s.depth - 1)
    decreases c.body, 2
  {
    ExecBody(s, c.body);
    if c.body == [] {
      assert s.stack + [] == s.stack && s.started + [] == s.started;
    }
  }

  /** Between two runs: the leaves still to run are those not before the path to be taken next. */
  ghost predicate InLoop(body: seq<Subcase>, s: State, runs: seq<Path>) {
    && s.started == Reports(runs)
    && runs + Remaining(body, s.next) == Leaves(body)
    && Leads(body, s.next) && UntouchedFrom(body, [], s.next, s.finished)
  }

  lemma {:induction false} LoopStep(body: seq<Subcase>, s: State, runs: seq<Path>)
    requires DistinctSiblings(body) && body != [] && InLoop(body, s, runs)
    ensures var p := OneRun(body, s, runs);
            if p.Running? then InLoop(body, p.state, p.runs) && |Remaining(body, p.state.next)| < |Remaining(body, s.next)|
            else p == Ended(AllRuns(body), Reports(AllRuns(body)))
  {
    var s0 := Reset(s);
    assert Want(s0) == s.next;
    ExecBody(s0, body);
    NextRun(body, s.next, s.finished);
    Advance(runs, Remaining(body, s.next));
    ReportRun([], runs, Target(body, s.next));
    assert [] + Reports(runs) == Reports(runs);
    assert [] + Reports(runs + [Target(body, s.next)]) == Reports(runs + [Target(body, s.next)]);
  }

  lemma {:induction false} LoopEnds(body: seq<Subcase>, n: nat)
    requires DistinctSiblings(body) && body != []
    requires After(body, n).Running? && InLoop(body, After(body, n).state, After(body, n).runs)
    ensures RunsEachLeafOnce(body)
    decreases |Remaining(body, After(body, n).state.next)|
  {
    var p := After(body, n);
    LoopStep(body, p.state, p.runs);
    assert After(body, n + 1) == OneRun(body, p.state, p.runs);
    if After(body, n + 1).Running? {
      LoopEnds(body, n + 1);
    }
  }

  lemma {:induction false} DistinctRunsEachLeaf(body: seq<Subcase>)
    requires DistinctSiblings(body)
    ensures RunsEachLeafOnce(body)
  {
    assert After(body, 0) == Running(START, []);
    if body == [] {
      assert After(body, 1) == OneRun(body, START, []) == Ended([[]], []);
      ReportsAppend([], []);
      assert [] + [[]] == AllRuns(body);
    } else {
      assert [] + Leaves(body) == Leaves(body);
      LoopEnds(body, 0);
    }
  }

  // ----- repeated siblings -----

  /** Following the path down, always into the first subcase of the right signature, meets a subcase
      with a later sibling of the same signature. */
  ghost predicate MeetsRepeat(body: seq<Subcase>, path: Path)
    decreases body
  {
    path != [] && body != [] &&
    if body[0].sig == path[0] then Repeated(body[1..], path[0]) || MeetsRepeat(body[0].body, path[1..])
    else MeetsRepeat(body[1..], path)
  }

  ghost predicate Repeated(rest: seq<Subcase>, sig: Signature) {
    exists j :: 0 <= j < |rest| && rest[j].sig == sig
  }

  /** The leaf reached, the stack never changes, and reports are only added. */
  lemma {:induction false} ExecBehind(s: State, body: seq<Subcase>)
    requires Sound(s) && s.reachedLeaf && Exec(s, body).Some?
    ensures var r := Exec(s, body).value; r.reachedLeaf && r.stack == s.stack && |r.started| >= |s.started|
    decreases body, 1
  {
    if body != [] {
      ExecOneBehind(s, body[0]);
      ExecBehind(ExecOne(s, body[0]).value, body[1..]);
    }
  }

  lemma {:induction false} ExecOneBehind(s: State, c: Subcase)
    requires Sound(s) && s.reachedLeaf && ExecOne(s, c).Some?
    ensures var r := ExecOne(s, c).value; r.reachedLeaf && r.stack == s.stack && |r.started| >= |s.started|
    ensures s.depth < |s.stack| && (s.stack[s.depth] == c.sig ==> |ExecOne(s, c).value.started| > |s.started|)
    decreases c, 0
  {
    var e := EnterStep(s, c.sig).value;
    if e.1 {
      ExecBehind(e.0, c.body);
    }
  }

  /** A sibling with the signature on the stack is taken for the same subcase met again. */
  lemma {:induction false} Reenters(s: State, body: seq<Subcase>)
    requires Sound(s) && s.reachedLeaf && s.depth < |s.stack| && Repeated(body, s.stack[s.depth]) && Exec(s, body).Some?
    ensures |Exec(s, body).value.started| > |s.started|
    decreases body
  {
    var r := ExecOne(s, body[0]).value;
    ExecOneBehind(s, body[0]);
    ExecBehind(r, body[1..]);
    if body[0].sig != s.stack[s.depth] {
      assert Repeated(body[1..], s.stack[s.depth]) by {
        var j :| 0 <= j < |body| && body[j].sig == s.stack[s.depth];
        assert body[1..][j - 1] == body[j];
      }
      Reenters(r, body[1..]);
    }
  }

  /** What a run reports: at least the way down, and more when the way down meets a repeat. */
  ghost predicate Reported(s: State, r: State, body: seq<Subcase>) {
    && s.stack <= r.stack && |r.started| - |s.started| >= |r.stack| - |s.stack|
    && (!r.reachedLeaf ==> r == s)
    && (r.stack != s.stack && |s.next| > |s.stack| ==> r.stack[|s.stack|] == s.next[|s.stack|])
    && (MeetsRepeat(body, r.stack[|s.stack|..]) ==> |r.started| - |s.started| > |r.stack| - |s.stack|)
  }

  lemma {:induction false} ExecReports(s: State, body: seq<Subcase>)
    requires Sound(s) && !s.reachedLeaf && Exec(s, body).Some?
    ensures Reported(s, Exec(s, body).value, body)
    decreases body
  {
    var r := Exec(s, body).value;
    if body == [] {
    } else if EnterStep(s, body[0].sig).value.1 {
      EnteredReports(s, body);
    } else {
      assert ExecOne(s, body[0]) == Some(s);
      ExecReports(s, body[1..]);
      var path := r.stack[|s.stack|..];
      if path != [] { assert path[0] == r.stack[|s.stack|] != body[0].sig; }
    }
  }

  lemma {:induction false} EnteredReports(s: State, body: seq<Subcase>)
    requires Sound(s) && !s.reachedLeaf && body != [] && Exec(s, body).Some? && EnterStep(s, body[0].sig).value.1
    ensures Reported(s, Exec(s, body).value, body)
    decreases body, 0
  {
    var c, rest, r := body[0], body[1..], Exec(s, body).value;
    var s1 := EnterStep(s, c.sig).value.0;
    var s2 := Exec(s1, c.body).value;
    ExecReports(s1, c.body);
    var s3 := LeaveStep(s2);
    assert ExecOne(s, c) == Some(s3) && Exec(s3, rest) == Some(r);
    ExecBehind(s3, rest);
    assert s1.stack[|s.stack|] == c.sig && s1.stack <= r.stack;
    assert r.stack[|s.stack|] == c.sig;
    var path := r.stack[|s.stack|..];
    assert path[0] == c.sig && path[1..] == r.stack[|s1.stack|..];
    if Repeated(rest, c.sig) {
      Reenters(s3, rest);
    }
  }

  lemma {:induction false} PrefixesCount(at: Path, path: Path)
    ensures |Prefixes(at, path)| == |path|
    decreases path
  {
    if path != [] {
      PrefixesCount(at + path[..1], path[1..]);
    }
  }

  /** Reports are not fewer than the way down to the leaves, and more once a run meets a repeat. */
  ghost predicate Overreported(body: seq<Subcase>, runs: seq<Path>, started: seq<Path>) {
    && |started| >= |Reports(runs)|
    && ((exists p :: p in runs && MeetsRepeat(body, p)) ==> |started| > |Reports(runs)|)
  }

  lemma {:induction false} RunReports(body: seq<Subcase>, s: State, runs: seq<Path>)
    requires Overreported(body, runs, s.started)
    ensures var p := OneRun(body, s, runs);
            !p.OutOfRange? ==> Overreported(body, p.runs, if p.Running? then p.state.started else p.started)
  {
    var s0 := Reset(s);
    if Exec(s0, body).Some? {
      var r := Exec(s0, body).value;
      ExecReports(s0, body);
      assert r.stack[|s0.stack|..] == r.stack;
      ReportsAppend(runs, r.stack);
      PrefixesCount([], r.stack);
    }
  }

  lemma {:induction false} LoopReports(body: seq<Subcase>, n: nat)
    ensures var p := After(body, n);
            !p.OutOfRange? ==> Overreported(body, p.runs, if p.Running? then p.state.started else p.started)
  {
    if n > 0 {
      LoopReports(body, n - 1);
      var p := After(body, n - 1);
      if p.Running? {
        RunReports(body, p.state, p.runs);
      }
    }
  }

  lemma {:induction false} DistinctFromParts(body: seq<Subcase>)
    requires body != [] && DistinctSiblings(body[0].body) && DistinctSiblings(body[1..]) && !Repeated(body[1..], body[0].sig)
    ensures DistinctSiblings(body)
  {
    assert forall i :: 1 <= i < |body| ==> body[i] == body[1..][i - 1];
  }

  /** In a tree with a repeated signature, the way to some leaf meets it. */
  lemma {:induction false} SomeLeafMeetsRepeat(body: seq<Subcase>) returns (path: Path)
    requires !DistinctSiblings(body)
    ensures path in Leaves(body) && path != [] && Repeated(body, path[0]) && MeetsRepeat(body, path)
    decreases body
  {
    assert body != [];
    var c, rest := body[0], body[1..];
    var here := Under(c.sig, LeavesAt(c));
    assert Leaves(body) == here + Leaves(rest) && rest == body[1..];
    if Repeated(rest, c.sig) {
      LeavesNotEmpty(c);
      path := here[0];
      assert path in here && body[0].sig == path[0];
    } else if !DistinctSiblings(c.body) {
      var below := SomeLeafMeetsRepeat(c.body);
      path := [c.sig] + below;
      var k :| 0 <= k < |Leaves(c.body)| && Leaves(c.body)[k] == below;
      assert here[k] == path && path in here && path[1..] == below && body[0].sig == path[0];
    } else {
      if DistinctSiblings(rest) { DistinctFromParts(body); }
      path := SomeLeafMeetsRepeat(rest);
      var j :| 0 <= j < |rest| && rest[j].sig == path[0];
      assert body[j + 1].sig == path[0];
    }
  }

  /** The engine does what it is there for exactly on the trees with distinct sibling signatures. */
  lemma {:induction false} EachLeafOnceIffDistinct(body: seq<Subcase>)
    ensures RunsEachLeafOnce(body) <==> DistinctSiblings(body)
  {
    if DistinctSiblings(body) {
      DistinctRunsEachLeaf(body);
    } else if RunsEachLeafOnce(body) {
      var n: nat :| After(body, n) == Ended(AllRuns(body), Reports(AllRuns(body)));
      var path := SomeLeafMeetsRepeat(body);
      assert path in AllRuns(body);
      LoopReports(body, n);
    }
  }

  /** Once the loop has ended it stays so. */
  lemma {:induction false} EndIsUnique(body: seq<Subcase>, m: nat, n: nat)
    requires m <= n && !After(body, m).Running?
    ensures After(body, n) == After(body, m)
    decreases n
  {
    if m < n {
      EndIsUnique(body, m, n - 1);
    }
  }

  /** The loop has ended after as many runs as it has made. */
  lemma {:induction false} EndsInTime(body: seq<Subcase>, n: nat)
    ensures var p := After(body, n);
            && (p.Running? ==> |p.runs| == n)
            && (p.Ended? ==> |p.runs| <= n && After(body, |p.runs|) == p)
  {
    if n > 0 {
      EndsInTime(body, n - 1);
    }
  }

  // ----- the engine as it is coded -----

  /** The fields of the runner's context that steer subcases, and the reports of the current test. */
  class Context {
    var subcaseStack: Path
    var nextSubcaseStack: Path
    var reachedLeaf: bool
    var currentSubcaseDepth: nat
    var fullyTraversedSubcases: set<Path>
    var started: seq<Path>

    constructor ()
      ensures Snapshot() == START
    {
      subcaseStack, nextSubcaseStack, reachedLeaf, currentSubcaseDepth := [], [], false, 0;
      fullyTraversedSubcases, started := {}, [];
    }

    function Snapshot(): State
      reads this
    {
      State(subcaseStack, nextSubcaseStack, reachedLeaf, currentSubcaseDepth, fullyTraversedSubcases, started)
    }

    /** The constructor of a subcase; `ok` is false when it would read behind the end of the stack. */
    method Enter(sig: Signature) returns (ok: bool, entered: bool)
      requires Sound(Snapshot())
      modifies this
      ensures ok <==> EnterStep(old(Snapshot()), sig).Some?
      ensures ok ==> EnterStep(old(Snapshot()), sig) == Some((Snapshot(), entered))
    {
      ok, entered := true, false;
      if !reachedLeaf {
        if |nextSubcaseStack| <= |subcaseStack| || nextSubcaseStack[|subcaseStack|] == sig {
          subcaseStack := subcaseStack + [sig];
          currentSubcaseDepth := currentSubcaseDepth + 1;
          entered := true;
          started := started + [subcaseStack];
        }
      } else if currentSubcaseDepth == |subcaseStack| {
        ok := false;
      } else if subcaseStack[currentSubcaseDepth] == sig {
        currentSubcaseDepth := currentSubcaseDepth + 1;
        entered := true;
        started := started + [subcaseStack[..currentSubcaseDepth]];
      } else if |nextSubcaseStack| <= currentSubcaseDepth
                && subcaseStack[..currentSubcaseDepth] + [sig] !in fullyTraversedSubcases {
        nextSubcaseStack := [];
        nextSubcaseStack := nextSubcaseStack + subcaseStack[..currentSubcaseDepth];
        nextSubcaseStack := nextSubcaseStack + [sig];
        assert nextSubcaseStack == subcaseStack[..currentSubcaseDepth] + [sig];
      }
    }

    /** The destructor of an entered subcase. */
    method Leave()
      requires Sound(Snapshot()) && currentSubcaseDepth > 0
      modifies this
      ensures Snapshot() == LeaveStep(old(Snapshot()))
    {
      currentSubcaseDepth := currentSubcaseDepth - 1;
      if !reachedLeaf {
        fullyTraversedSubcases := fullyTraversedSubcases + {subcaseStack};
        nextSubcaseStack := [];
        reachedLeaf := true;
      } else if nextSubcaseStack == [] {
        fullyTraversedSubcases := fullyTraversedSubcases + {subcaseStack};
      }
    }

    /** Executing a test body: each subcase in turn, with its own body inside its scope. */
    method RunBody(body: seq<Subcase>) returns (ok: bool)
      requires Sound(Snapshot())
      modifies this
      ensures ok <==> Exec(old(Snapshot()), body).Some?
      ensures ok ==> Exec(old(Snapshot()), body) == Some(Snapshot())
      decreases body
    {
      ok := true;
      var i := 0;
      while i < |body|
        invariant 0 <= i <= |body| && Sound(Snapshot())
        invariant Exec(old(Snapshot()), body) == Exec(Snapshot(), body[i..])
      {
        assert body[i..][0] == body[i] && body[i..][1..] == body[i + 1..];
        ok := RunSubcase(body[i]);
        if !ok {
          return;
        }
        i := i + 1;
      }
    }

    method RunSubcase(c: Subcase) returns (ok: bool)
      requires Sound(Snapshot())
      modifies this
      ensures ok <==> ExecOne(old(Snapshot()), c).Some?
      ensures ok ==> ExecOne(old(Snapshot()), c) == Some(Snapshot())
      decreases c
    {
      var entered;
      ok, entered := Enter(c.sig);
      if ok && entered {
        ok := RunBody(c.body);
        if ok {
          Leave();
        }
      }
    }

    /** The `do ... while` loop over one test case, watched for as many runs as one likes: watched for one
        run per leaf, it has ended with the leaves as its runs, once each and in order, exactly for trees
        with distinct siblings. */
    method RunTest(body: seq<Subcase>, limit: nat) returns (outcome: Progress)
      requires nextSubcaseStack == []
      modifies this
      ensures outcome == After(body, limit)
      ensures outcome.Ended? ==> nextSubcaseStack == [] && started == outcome.started
      ensures limit >= |AllRuns(body)| ==>
                (outcome == Ended(AllRuns(body), Reports(AllRuns(body))) <==> DistinctSiblings(body))
    {
      fullyTraversedSubcases, started := {}, [];
      var runs: seq<Path> := [];
      var runTest, crashed, n, s := true, false, 0, START;
      while runTest && n < limit
        invariant 0 <= n <= limit
        invariant runTest ==> !crashed && After(body, n) == Running(s, runs) && Reset(Snapshot()) == Reset(s)
        invariant !runTest ==> After(body, n) == if crashed then OutOfRange else Ended(runs, started)
        invariant !runTest && !crashed ==> nextSubcaseStack == []
        decreases limit - n
      {
        reachedLeaf := false;
        subcaseStack := [];
        currentSubcaseDepth := 0;
        assert Snapshot() == Reset(s);
        var ok := RunBody(body);
        assert After(body, n + 1) == OneRun(body, s, runs);
        n := n + 1;
        if !ok {
          runTest, crashed := false, true;
        } else {
          s := Snapshot();
          runs := runs + [subcaseStack];
          if nextSubcaseStack == [] {
            runTest := false;
          }
        }
      }
      outcome := if runTest then Running(s, runs) else if crashed then OutOfRange else Ended(runs, started);
      if !runTest {
        EndIsUnique(body, n, limit);
      }
      if limit >= |AllRuns(body)| {
        InTimeIffDistinct(body, limit);
      }
    }
  }

  lemma {:induction false} InTimeIffDistinct(body: seq<Subcase>, limit: nat)
    requires limit >= |AllRuns(body)|
    ensures After(body, limit) == Ended(AllRuns(body), Reports(AllRuns(body))) <==> DistinctSiblings(body)
  {
    EachLeafOnceIffDistinct(body);
    if DistinctSiblings(body) {
      var m: nat :| After(body, m) == Ended(AllRuns(body), Reports(AllRuns(body)));
      EndsInTime(body, m);
      EndIsUnique(body, |AllRuns(body)|, limit);
    }
  }
}
