/** Tests made of subcases. A test case is re-executed until each of its leaf subcases has run once;
    here are the trees of subcases, their leaves, and the order in which runs have to reach them. */
module Subcases {
  import opened Wrappers

  /** A signature is the name, file and line of a subcase. */
  datatype Signature = Signature(name: string, file: string, line: int)

  type Path = seq<Signature>

  /** A static test body: the subcases it meets, in source order, each with its own body. */
  datatype Subcase = Subcase(sig: Signature, body: seq<Subcase>)

  /** Sibling subcases have different signatures, at every level. */
  ghost predicate DistinctSiblings(body: seq<Subcase>)
    decreases body
  {
    && (forall i, j :: 0 <= i < j < |body| ==> body[i].sig != body[j].sig)
    && (forall i :: 0 <= i < |body| ==> DistinctSiblings(body[i].body))
  }

  function Under(sig: Signature, paths: seq<Path>): seq<Path> {
    seq(|paths|, i requires 0 <= i < |paths| => [sig] + paths[i])
  }

  /** The leaf subcases, as paths, in depth-first source order. */
  function Leaves(body: seq<Subcase>): seq<Path>
    decreases body
  {
    if body == [] then [] else Under(body[0].sig, LeavesAt(body[0])) + Leaves(body[1..])
  }

  function LeavesAt(s: Subcase): seq<Path>
    decreases s
  {
    if s.body == [] then [[]] else Leaves(s.body)
  }

  /** An independent reading of "leaf": a path along signatures that ends in an empty body. */
  ghost predicate IsLeaf(body: seq<Subcase>, path: Path)
    decreases path
  {
    path != [] && exists i :: 0 <= i < |body| && body[i].sig == path[0] &&
                              if |path| == 1 then body[i].body == [] else IsLeaf(body[i].body, path[1..])
  }

  /** `Leaves` lists exactly the leaves, each once if siblings have different signatures. */
  lemma {:induction false} LeavesAreTheLeaves(body: seq<Subcase>)
    ensures forall path :: path in Leaves(body) <==> IsLeaf(body, path)
    ensures DistinctSiblings(body) ==> Distinct(Leaves(body))
    ensures body != [] ==> |Leaves(body)| >= 1
  {
    forall path ensures path in Leaves(body) <==> IsLeaf(body, path) {
      LeavesAreLeaves(body, path);
    }
    if DistinctSiblings(body) {
      LeavesDiffer(body);
    }
    if body != [] {
      LeavesNotEmpty(body[0]);
    }
  }

  lemma {:induction false} LeavesNotEmpty(c: Subcase)
    ensures LeavesAt(c) != []
    decreases c
  {
    if c.body != [] {
      LeavesNotEmpty(c.body[0]);
    }
  }

  lemma {:induction false} LeavesAreLeaves(body: seq<Subcase>, path: Path)
    ensures path in Leaves(body) <==> IsLeaf(body, path)
    decreases body
  {
    if body != [] {
      forall p ensures p in Leaves(body[0].body) <==> IsLeaf(body[0].body, p) {
        LeavesAreLeaves(body[0].body, p);
      }
      LeavesAreLeaves(body[1..], path);
      LeafSplit(body, path);
    }
  }

  lemma {:induction false} LeavesDiffer(body: seq<Subcase>)
    requires DistinctSiblings(body)
    ensures Distinct(Leaves(body))
    decreases body
  {
    if body != [] {
      var s, rest := body[0], body[1..];
      DistinctParts(body);
      LeavesDiffer(s.body);
      LeavesDiffer(rest);
      forall path ensures path in Leaves(rest) ==> IsLeaf(rest, path) {
        LeavesAreLeaves(rest, path);
      }
      LeavesApart(s, rest);
      assert Leaves(body) == Under(s.sig, LeavesAt(s)) + Leaves(rest);
    }
  }

  lemma {:induction false} LeavesApart(s: Subcase, rest: seq<Subcase>)
    requires Distinct(Leaves(s.body)) && Distinct(Leaves(rest))
    requires (forall path :: path in Leaves(rest) ==> IsLeaf(rest, path)) && forall k :: 0 <= k < |rest| ==> rest[k].sig != s.sig
    ensures Distinct(Under(s.sig, LeavesAt(s)) + Leaves(rest))
  {
    var here, there := Under(s.sig, LeavesAt(s)), Leaves(rest);
    forall i, j | 0 <= i < j < |here + there| ensures (here + there)[i] != (here + there)[j] {
      if j < |here| {
        assert here[i][1..] == LeavesAt(s)[i] && here[j][1..] == LeavesAt(s)[j];
      } else if i < |here| {
        assert there[j - |here|] in there;
        var k :| 0 <= k < |rest| && rest[k].sig == there[j - |here|][0];
        assert here[i][0] == s.sig;
      }
    }
  }

  lemma {:induction false} LeafSplit(body: seq<Subcase>, path: Path)
    requires body != []
    requires forall p :: p in Leaves(body[0].body) <==> IsLeaf(body[0].body, p)
    requires path in Leaves(body[1..]) <==> IsLeaf(body[1..], path)
    ensures path in Leaves(body) <==> IsLeaf(body, path)
  {
    var here := Under(body[0].sig, LeavesAt(body[0]));
    assert path in Leaves(body) <==> path in here || path in Leaves(body[1..]);
    LeafHere(body[0], path);
    LeafThere(body, path);
  }

  ghost predicate LeafAt(s: Subcase, path: Path) {
    path != [] && s.sig == path[0] && if |path| == 1 then s.body == [] else IsLeaf(s.body, path[1..])
  }

  lemma {:induction false} LeafThere(body: seq<Subcase>, path: Path)
    requires body != []
    ensures IsLeaf(body, path) <==> LeafAt(body[0], path) || IsLeaf(body[1..], path)
  {
    var rest := body[1..];
    if path != [] {
      assert forall i :: 0 <= i < |rest| ==> rest[i] == body[i + 1];
      assert IsLeaf(body, path) <==> exists i :: 0 <= i < |body| && LeafAt(body[i], path);
      assert IsLeaf(rest, path) <==> exists i :: 0 <= i < |rest| && LeafAt(rest[i], path);
      if i :| 0 <= i < |body| && LeafAt(body[i], path) {
        if i > 0 { assert LeafAt(rest[i - 1], path); }
      }
    }
  }

  lemma {:induction false} LeafHere(s: Subcase, path: Path)
    requires forall p :: p in Leaves(s.body) <==> IsLeaf(s.body, p)
    ensures path in Under(s.sig, LeavesAt(s)) <==> LeafAt(s, path)
  {
    var inner := LeavesAt(s);
    var here := Under(s.sig, inner);
    if path in here {
      var i :| 0 <= i < |here| && here[i] == path;
      assert path == [s.sig] + inner[i] && path[1..] == inner[i];
      assert path[1..] in inner;
      if s.body == [] { assert path[1..] == []; }
    }
    if LeafAt(s, path) {
      assert path[1..] in inner by { if |path| == 1 { assert path[1..] == []; } }
      var k :| 0 <= k < |inner| && inner[k] == path[1..];
      assert here[k] == [path[0]] + path[1..] == path;
    }
  }

  // ----- what a run is expected to do -----

  /** `want` names a subcase of the body; the empty path asks for nothing in particular. */
  ghost predicate Leads(body: seq<Subcase>, want: Path)
    decreases body
  {
    want == [] || (body != [] && if body[0].sig == want[0] then Leads(body[0].body, want[1..]) else Leads(body[1..], want))
  }

  /** The leaves not before `want`: those still to run when `want` is where the next run must go. */
  function Remaining(body: seq<Subcase>, want: Path): seq<Path>
    decreases body
  {
    if body == [] then []
    else if want == [] then Leaves(body)
    else if body[0].sig != want[0] then Remaining(body[1..], want)
    else Under(body[0].sig, if body[0].body == [] then [[]] else Remaining(body[0].body, want[1..])) + Leaves(body[1..])
  }

  /** The leaf a run reaches: the first one below `want`. */
  function Target(body: seq<Subcase>, want: Path): Path
    decreases body
  {
    if body == [] then []
    else if want == [] || body[0].sig == want[0] then
      [body[0].sig] + Target(body[0].body, if want == [] then [] else want[1..])
    else Target(body[1..], want)
  }

  /** The depth-first successor of the leaf reached: the first subcase met behind it that is not
      one of its ancestors; empty when there is none. */
  function Successor(body: seq<Subcase>, want: Path): Path
    decreases body
  {
    if body == [] then []
    else if want == [] || body[0].sig == want[0] then
      var inner := Successor(body[0].body, if want == [] then [] else want[1..]);
      if inner != [] then [body[0].sig] + inner
      else if |body| > 1 then [body[1].sig]
      else []
    else Successor(body[1..], want)
  }

  /** Running in the order `Target`, `Successor`, `Target`, ... walks down the list of leaves. */
  lemma {:induction false} SuccessorOrder(body: seq<Subcase>, want: Path)
    requires DistinctSiblings(body) && Leads(body, want) && body != []
    ensures var r, next := Remaining(body, want), Successor(body, want);
            && r != [] && r[0] == Target(body, want)
            && Leads(body, next)
            && (next == [] ==> |r| == 1)
            && (next != [] ==> r[1..] == Remaining(body, next))
    decreases body
  {
    var s, rest := body[0], body[1..];
    DistinctParts(body);
    if want != [] && s.sig != want[0] {
      SuccessorOrder(rest, want);
      var next := Successor(rest, want);
      if next != [] {
        SuccessorHead(rest, want);
        var k :| 0 <= k < |rest| && rest[k].sig == next[0];
        assert rest[k] == body[k + 1];
      }
    } else {
      var w := if want == [] then [] else want[1..];
      if s.body != [] {
        SuccessorOrder(s.body, w);
      }
      SuccessorHere(body, want);
    }
  }

  lemma {:induction false} UnderTail(sig: Signature, paths: seq<Path>, more: seq<Path>)
    requires paths != []
    ensures (Under(sig, paths) + more)[1..] == Under(sig, paths[1..]) + more
  {
    assert Under(sig, paths)[1..] == Under(sig, paths[1..]);
  }

  /** The case where the first subcase is the one to run: its own order is known. */
  lemma {:induction false} SuccessorHere(body: seq<Subcase>, want: Path)
    requires DistinctSiblings(body) && body != [] && (want == [] || body[0].sig == want[0])
    requires var s, w := body[0], if want == [] then [] else want[1..];
             var r, next := Remaining(s.body, w), Successor(s.body, w);
             s.body != [] ==> r != [] && r[0] == Target(s.body, w) && Leads(s.body, next)
                              && (next == [] ==> |r| == 1) && (next != [] ==> r[1..] == Remaining(s.body, next))
    ensures var r, next := Remaining(body, want), Successor(body, want);
            && r != [] && r[0] == Target(body, want)
            && Leads(body, next)
            && (next == [] ==> |r| == 1)
            && (next != [] ==> r[1..] == Remaining(body, next))
  {
    DistinctParts(body);
    var s, rest := body[0], body[1..];
    var w := if want == [] then [] else want[1..];
    var inner := Successor(s.body, w);
    var here := if s.body == [] then [[]] else Remaining(s.body, w);
    var r := Remaining(body, want);
    assert r == Under(s.sig, here) + Leaves(rest) by {
      if want == [] { assert here == LeavesAt(s); }
    }
    assert here[0] == Target(s.body, w);
    assert r[0] == [s.sig] + here[0];
    if inner != [] {
      var next := [s.sig] + inner;
      assert next[1..] == inner;
      UnderTail(s.sig, here, Leaves(rest));
    } else if |body| > 1 {
      var next := [body[1].sig];
      assert rest[0] == body[1] && next[1..] == [];
      assert r[1..] == Leaves(rest);
      assert Remaining(rest, next) == Under(rest[0].sig, LeavesAt(rest[0])) + Leaves(rest[1..]);
    }
  }

  /** The successor stays among the siblings of the body. */
  lemma {:induction false} SuccessorHead(body: seq<Subcase>, want: Path)
    requires Leads(body, want) && Successor(body, want) != []
    ensures exists k :: 0 <= k < |body| && body[k].sig == Successor(body, want)[0]
    decreases body
  {
    var next := Successor(body, want);
    if want == [] || body[0].sig == want[0] {
      assert body[0].sig == next[0] || body[1].sig == next[0];
    } else {
      SuccessorHead(body[1..], want);
      var k :| 0 <= k < |body[1..]| && body[1..][k].sig == next[0];
      assert body[k + 1].sig == next[0];
    }
  }

  /** None of the finished paths passes through a subcase of this body. */
  ghost predicate Untouched(body: seq<Subcase>, at: Path, finished: set<Path>) {
    forall i, p :: 0 <= i < |body| && p in finished ==> !(at + [body[i].sig] <= p)
  }

  /** None of the finished paths passes through a subcase behind `want`. */
  ghost predicate UntouchedFrom(body: seq<Subcase>, at: Path, want: Path, finished: set<Path>)
    decreases body
  {
    body == [] ||
    if want == [] then Untouched(body, at, finished)
    else if body[0].sig == want[0] then
      && UntouchedFrom(body[0].body, at + [body[0].sig], want[1..], finished)
      && Untouched(body[1..], at, finished)
    else UntouchedFrom(body[1..], at, want, finished)
  }

  lemma {:induction false} UntouchedBelow(s: Subcase, at: Path, finished: set<Path>)
    requires forall p :: p in finished ==> !(at + [s.sig] <= p)
    ensures Untouched(s.body, at + [s.sig], finished)
  {
    forall i, p | 0 <= i < |s.body| && p in finished ensures !(at + [s.sig] + [s.body[i].sig] <= p) {
      assert at + [s.sig] <= at + [s.sig] + [s.body[i].sig];
    }
  }

  lemma {:induction false} UntouchedSplit(body: seq<Subcase>, at: Path, finished: set<Path>)
    requires body != [] && Untouched(body, at, finished)
    ensures Untouched(body[1..], at, finished)
    ensures Untouched(body[0].body, at + [body[0].sig], finished)
  {
    UntouchedBelow(body[0], at, finished);
    forall i, p | 0 <= i < |body[1..]| && p in finished ensures !(at + [body[1..][i].sig] <= p) {
      assert body[1..][i] == body[i + 1];
    }
  }

  /** Finishing the target leaf keeps everything behind its successor untouched. */
  lemma {:induction false} FinishTarget(body: seq<Subcase>, at: Path, want: Path, finished: set<Path>)
    requires DistinctSiblings(body) && Leads(body, want) && UntouchedFrom(body, at, want, finished) && body != []
    ensures Successor(body, want) != [] ==>
              UntouchedFrom(body, at, Successor(body, want), finished + {at + Target(body, want)})
    decreases body
  {
    var s, rest, next, target := body[0], body[1..], Successor(body, want), Target(body, want);
    var finished' := finished + {at + target};
    DistinctParts(body);
    if next == [] {
    } else if want != [] && s.sig != want[0] {
      FinishTarget(rest, at, want, finished);
      SuccessorHead(rest, want);
      var k :| 0 <= k < |rest| && rest[k].sig == next[0];
      assert rest[k] == body[k + 1];
    } else {
      var w := if want == [] then [] else want[1..];
      var inner := Successor(s.body, w);
      assert UntouchedFrom(s.body, at + [s.sig], w, finished) && Untouched(rest, at, finished) by {
        if want == [] { UntouchedSplit(body, at, finished); }
      }
      forall i | 0 <= i < |rest| ensures !(at + [rest[i].sig] <= at + target) {
        assert rest[i] == body[i + 1];
        assert (at + target)[|at|] == s.sig && (at + [rest[i].sig])[|at|] == rest[i].sig;
      }
      assert Untouched(rest, at, finished');
      if inner != [] {
        FinishTarget(s.body, at + [s.sig], w, finished);
        assert at + [s.sig] + Target(s.body, w) == at + target;
        assert next[1..] == inner;
      } else {
        assert rest[0] == body[1] && next == [rest[0].sig] && next[1..] == [];
        UntouchedSplit(rest, at, finished');
      }
    }
  }

  /** One round of the loop: what a run leaves behind starts the next one, one leaf further. */
  lemma {:induction false} NextRun(body: seq<Subcase>, want: Path, finished: set<Path>)
    requires DistinctSiblings(body) && Leads(body, want) && UntouchedFrom(body, [], want, finished) && body != []
    ensures [] + Target(body, want) == Target(body, want) && [] + Successor(body, want) == Successor(body, want)
    ensures var r, next := Remaining(body, want), Successor(body, want);
            && r != [] && r[0] == Target(body, want)
            && Leads(body, next)
            && (next == [] ==> |r| == 1)
            && (next != [] ==> r[1..] == Remaining(body, next)
                               && UntouchedFrom(body, [], next, finished + {Target(body, want)}))
  {
    assert [] + Target(body, want) == Target(body, want);
    SuccessorOrder(body, want);
    assert Successor(body, want) != [] ==>
        UntouchedFrom(body, [], Successor(body, want), finished + {Target(body, want)}) by {
      FinishTarget(body, [], want, finished);
    }
  }

  lemma {:induction false} Advance(done: seq<Path>, todo: seq<Path>)
    requires todo != []
    ensures done + todo == (done + [todo[0]]) + todo[1..]
    ensures |todo| == 1 ==> done + todo == done + [todo[0]]
  {
  }

  /** The nonempty prefixes of a path, shortest first: what one run reports as entered. */
  function Prefixes(at: Path, path: Path): seq<Path>
    decreases path
  {
    if path == [] then [] else [at + path[..1]] + Prefixes(at + path[..1], path[1..])
  }

  function Reports(paths: seq<Path>): seq<Path> {
    if paths == [] then [] else Prefixes([], paths[0]) + Reports(paths[1..])
  }

  lemma {:induction false} ReportsAppend(a: seq<Path>, p: Path)
    ensures Reports(a + [p]) == Reports(a) + Prefixes([], p)
  {
    if a == [] {
      assert (a + [p])[0] == p && (a + [p])[1..] == [];
    } else {
      var b := a + [p];
      ReportsAppend(a[1..], p);
      assert b[0] == a[0] && b[1..] == a[1..] + [p];
    }
  }

  lemma {:induction false} ReportRun(base: seq<Path>, runs: seq<Path>, p: Path)
    ensures (base + Reports(runs)) + Prefixes([], p) == base + Reports(runs + [p])
  {
    ReportsAppend(runs, p);
  }

  function WantAt(next: Path, depth: nat): Path {
    if |next| <= depth then [] else next[depth..]
  }

  ghost predicate DescendsInto(body: seq<Subcase>, stack: Path, next: Path, finished: set<Path>) {
    var want := WantAt(next, |stack|);
    && (want != [] ==> stack <= next)
    && Leads(body, want)
    && UntouchedFrom(body, stack, want, finished)
  }

  ghost predicate Passes(body: seq<Subcase>, stack: Path, depth: nat, next: Path, finished: set<Path>) {
    && depth < |stack|
    && (forall i :: 0 <= i < |body| ==> body[i].sig != stack[depth])
    && Untouched(body, stack[..depth], finished)
    && (next == [] || |next| > depth)
  }

  lemma {:induction false} TargetStep(body: seq<Subcase>, at: Path, want: Path, base: seq<Path>) returns (target: Path)
    requires body != [] && (want == [] || want[0] == body[0].sig)
    ensures target == Target(body, want) && target != [] && target[0] == body[0].sig
    ensures var s, inner := body[0], Target(body[0].body, if want == [] then [] else want[1..]);
            && at + target == (at + [s.sig]) + inner
            && base + Prefixes(at, target) == (base + [at + [s.sig]]) + Prefixes(at + [s.sig], inner)
  {
    target := Target(body, want);
    assert target[..1] == [body[0].sig] && target[1..] == Target(body[0].body, if want == [] then [] else want[1..]);
  }

  lemma {:induction false} DistinctParts(body: seq<Subcase>)
    requires body != [] && DistinctSiblings(body)
    ensures DistinctSiblings(body[0].body) && DistinctSiblings(body[1..])
    ensures forall i :: 0 <= i < |body[1..]| ==> body[1..][i].sig != body[0].sig
  {
    assert forall i :: 0 <= i < |body[1..]| ==> body[1..][i] == body[i + 1];
  }

  /** A descent continues into the first subcase when that is the wanted one or any will do. */
  lemma {:induction false} DescendFirst(body: seq<Subcase>, stack: Path, next: Path, finished: set<Path>)
    requires body != [] && DescendsInto(body, stack, next, finished)
    requires var want := WantAt(next, |stack|); want == [] || want[0] == body[0].sig
    ensures DescendsInto(body[0].body, stack + [body[0].sig], next, finished)
    ensures Untouched(body[1..], stack, finished)
    ensures var want := WantAt(next, |stack|);
            WantAt(next, |stack| + 1) == if want == [] then [] else want[1..]
  {
    if WantAt(next, |stack|) == [] {
      UntouchedSplit(body, stack, finished);
    }
  }

  /** Once the target is finished, the subcases behind the first one are passed. */
  lemma {:induction false} PassBehind(body: seq<Subcase>, at: Path, target: Path, next: Path, finished: set<Path>)
    requires body != [] && DistinctSiblings(body) && target != [] && target[0] == body[0].sig
    requires Untouched(body[1..], at, finished) && (next == [] || |next| > |at|)
    ensures Passes(body[1..], at + target, |at|, next, finished + {at + target})
  {
    DistinctParts(body);
    var rest := body[1..];
    assert (at + target)[..|at|] == at;
    forall i | 0 <= i < |rest| ensures !(at + [rest[i].sig] <= at + target) {
      assert (at + target)[|at|] == body[0].sig && (at + [rest[i].sig])[|at|] == rest[i].sig;
    }
  }

  lemma {:induction false} PassFirst(body: seq<Subcase>, stack: Path, depth: nat, next: Path, finished: set<Path>)
    requires body != [] && Passes(body, stack, depth, next, finished)
    ensures Passes(body[1..], stack, depth, next, finished)
    ensures Passes(body[1..], stack, depth, stack[..depth] + [body[0].sig], finished)
    ensures body[0].sig != stack[depth] && stack[..depth] + [body[0].sig] !in finished
  {
    assert forall i :: 0 <= i < |body[1..]| ==> body[1..][i] == body[i + 1];
  }
}
