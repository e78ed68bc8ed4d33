/** Position queries on a syntax tree: the innermost node at a position, found by a visitor that
    skips statements which cannot contain it, and the innermost scope at a position. */
module AstQuery {
  import opened Wrappers

  datatype Position = Position(line: nat, column: nat)

  predicate Lt(a: Position, b: Position) {
    if a.line == b.line then a.column < b.column else a.line < b.line
  }

  predicate Le(a: Position, b: Position) {
    a == b || Lt(a, b)
  }

  datatype Location = Location(begin: Position, end: Position) {
    predicate Encloses(l: Location) { Le(begin, l.begin) && Le(l.end, end) }
    predicate Contains(p: Position) { Le(begin, p) && Lt(p, end) }
    predicate ContainsClosed(p: Position) { Le(begin, p) && Le(p, end) }
  }

  // ----- positions in a text -----

  /** The lengths of the lines of a text, without their line ends. */
  type Lines = seq<nat>

  ghost predicate InText(lines: Lines, p: Position) {
    p.line < |lines| && p.column <= lines[p.line]
  }

  /** How many characters come before the beginning of a line; every line end is one. */
  function LineStart(lines: Lines, line: nat): nat
    requires line <= |lines|
  {
    if line == 0 then 0 else LineStart(lines, line - 1) + lines[line - 1] + 1
  }

  /** How many characters come before a position. */
  function Offset(lines: Lines, p: Position): nat
    requires p.line <= |lines|
  {
    LineStart(lines, p.line) + p.column
  }

  lemma {:induction false} LaterLine(lines: Lines, a: nat, b: nat)
    requires a < b <= |lines|
    ensures LineStart(lines, a) + lines[a] < LineStart(lines, b)
    decreases b
  {
    if a < b - 1 {
      LaterLine(lines, a, b - 1);
    }
  }

  /** Positions are ordered as the characters of the text are. */
  lemma {:induction false} OrderIsTextOrder(lines: Lines, a: Position, b: Position)
    requires InText(lines, a) && InText(lines, b)
    ensures Lt(a, b) <==> Offset(lines, a) < Offset(lines, b)
    ensures Le(a, b) <==> Offset(lines, a) <= Offset(lines, b)
  {
    if a.line < b.line {
      LaterLine(lines, a.line, b.line);
    } else if b.line < a.line {
      LaterLine(lines, b.line, a.line);
    }
  }

  /** A location contains the characters from its begin up to its end; closed, the end as well. */
  lemma {:induction false} LocationIsRange(lines: Lines, l: Location, p: Position, inner: Location)
    requires InText(lines, l.begin) && InText(lines, l.end) && InText(lines, p)
    requires InText(lines, inner.begin) && InText(lines, inner.end)
    ensures l.Contains(p) <==> Offset(lines, l.begin) <= Offset(lines, p) < Offset(lines, l.end)
    ensures l.ContainsClosed(p) <==> Offset(lines, l.begin) <= Offset(lines, p) <= Offset(lines, l.end)
    ensures l.Encloses(inner) <==>
            Offset(lines, l.begin) <= Offset(lines, inner.begin) && Offset(lines, inner.end) <= Offset(lines, l.end)
  {
    OrderIsTextOrder(lines, l.begin, p);
    OrderIsTextOrder(lines, p, l.end);
    OrderIsTextOrder(lines, l.begin, inner.begin);
    OrderIsTextOrder(lines, inner.end, l.end);
  }

  datatype Node = Node(location: Location, isBlock: bool, children: seq<Node>)

  /** A node is identified by the child indices that lead to it. */
  type Path = seq<nat>

  predicate ValidPath(n: Node, path: Path)
    decreases path
  {
    path == [] || (path[0] < |n.children| && ValidPath(n.children[path[0]], path[1..]))
  }

  function At(n: Node, path: Path): Node
    requires ValidPath(n, path)
    decreases path
  {
    if path == [] then n else At(n.children[path[0]], path[1..])
  }

  /** Children lie inside their parent, in order and without overlap, at every level. */
  ghost predicate WellNested(n: Node) {
    && Le(n.location.begin, n.location.end)
    && (forall i :: 0 <= i < |n.children| ==> WellNested(n.children[i]) && n.location.Encloses(n.children[i].location))
    && (forall i, j :: 0 <= i < j < |n.children| ==> Le(n.children[i].location.end, n.children[j].location.begin))
  }

  /** No two siblings end at `end`: behind a node that does there is no empty one. */
  ghost predicate OneEndsAt(n: Node, end: Position) {
    && (forall i, j :: 0 <= i < j < |n.children| ==> n.children[i].location.end != end || n.children[j].location.end != end)
    && forall i :: 0 <= i < |n.children| ==> OneEndsAt(n.children[i], end)
  }

  /** A position, clamped to the end of the document. */
  datatype Query = Query(pos: Position, documentEnd: Position)

  /** The node contains the position, or ends where the document does and so does the position. */
  predicate Hits(q: Query, n: Node) {
    n.location.Contains(q.pos) || (n.location.end == q.documentEnd && Le(q.documentEnd, q.pos))
  }

  /** The plain search: visit every node in source order and keep the last one that hits. */
  ghost function LastHit(q: Query, n: Node, path: Path, best: Option<Path>): Option<Path>
    decreases n, |n.children| + 1
  {
    LastHitFrom(q, n, 0, path, if Hits(q, n) then Some(path) else best)
  }

  ghost function LastHitFrom(q: Query, n: Node, i: nat, path: Path, best: Option<Path>): Option<Path>
    requires i <= |n.children|
    decreases n, |n.children| - i
  {
    if i == |n.children| then best
    else LastHitFrom(q, n, i + 1, path, LastHit(q, n.children[i], path + [i], best))
  }

  /** Below a node that does not hit, nothing hits. */
  lemma {:induction false} NoHitBelow(q: Query, n: Node, path: Path, best: Option<Path>)
    requires WellNested(n) && !Hits(q, n) && Le(n.location.end, q.documentEnd)
    ensures LastHit(q, n, path, best) == best
    ensures forall p :: ValidPath(n, p) ==> !Hits(q, At(n, p))
    decreases n, |n.children| + 1
  {
    NoHitFrom(q, n, 0, path, best);
    forall p | ValidPath(n, p) ensures !Hits(q, At(n, p)) {
      if p != [] {
        var k := n.children[p[0]];
        assert n.location.Encloses(k.location);
        NoHitBelow(q, k, path + [p[0]], best);
      }
    }
  }

  lemma {:induction false} NoHitFrom(q: Query, n: Node, i: nat, path: Path, best: Option<Path>)
    requires WellNested(n) && Le(n.location.end, q.documentEnd) && i <= |n.children|
    requires forall j :: i <= j < |n.children| ==> !Hits(q, n.children[j])
    ensures LastHitFrom(q, n, i, path, best) == best
    decreases n, |n.children| - i
  {
    if i < |n.children| {
      assert n.location.Encloses(n.children[i].location);
      NoHitBelow(q, n.children[i], path + [i], best);
      NoHitFrom(q, n, i + 1, path, best);
    }
  }

  /** Positions with one deepest node: before the end of the document, or at its end in a tree in
      which no two siblings end there. */
  ghost predicate Sharp(q: Query, n: Node) {
    Lt(q.pos, q.documentEnd) || (q.pos == q.documentEnd && OneEndsAt(n, q.documentEnd))
  }

  /** Of disjoint siblings at most one hits. */
  lemma {:induction false} OneHit(q: Query, n: Node, i: nat, j: nat)
    requires WellNested(n) && Sharp(q, n) && Le(n.location.end, q.documentEnd)
    requires i < |n.children| && j < |n.children| && i != j && Hits(q, n.children[i])
    ensures !Hits(q, n.children[j])
  {
    var a, b := n.children[if i < j then i else j].location, n.children[if i < j then j else i].location;
    assert Le(a.end, b.begin);
    assert n.location.Encloses(a) && n.location.Encloses(b);
    assert WellNested(n.children[i]) && WellNested(n.children[j]);
  }

  /** The nodes that hit are exactly those on the way to the node found: it is the deepest one. */
  ghost predicate Deepest(q: Query, n: Node, found: Path) {
    ValidPath(n, found) && forall p :: ValidPath(n, p) ==> (Hits(q, At(n, p)) <==> p <= found)
  }

  lemma {:induction false} LastHitIsDeepest(q: Query, n: Node, path: Path, best: Option<Path>) returns (found: Path)
    requires WellNested(n) && Sharp(q, n) && Hits(q, n) && Le(n.location.end, q.documentEnd)
    ensures LastHit(q, n, path, best) == Some(path + found) && Deepest(q, n, found)
    decreases n
  {
    if k :| 0 <= k < |n.children| && Hits(q, n.children[k]) {
      assert n.location.Encloses(n.children[k].location) && WellNested(n.children[k]);
      assert Sharp(q, n.children[k]);
      var below := LastHitIsDeepest(q, n.children[k], path + [k], Some(path));
      found := [k] + below;
      assert path + [k] + below == path + found;
      HitAt(q, n, k, 0, path, Some(path), Some(path + found));
      DeepestThrough(q, n, k, below);
    } else {
      found := [];
      NoHitFrom(q, n, 0, path, Some(path));
      assert path + found == path;
      forall p | ValidPath(n, p) ensures Hits(q, At(n, p)) <==> p <= found {
        if p != [] {
          assert n.location.Encloses(n.children[p[0]].location);
          NoHitBelow(q, n.children[p[0]], path, best);
        }
      }
    }
  }

  /** The scan over the children finds what lies below the one that hits. */
  lemma {:induction false} HitAt(q: Query, n: Node, k: nat, i: nat, path: Path, best: Option<Path>, below: Option<Path>)
    requires WellNested(n) && Sharp(q, n) && Le(n.location.end, q.documentEnd)
    requires i <= k < |n.children| && Hits(q, n.children[k])
    requires below == LastHit(q, n.children[k], path + [k], best)
    ensures LastHitFrom(q, n, i, path, best) == below
    decreases k - i
  {
    if i < k {
      OneHit(q, n, k, i);
      assert n.location.Encloses(n.children[i].location);
      NoHitBelow(q, n.children[i], path + [i], best);
      HitAt(q, n, k, i + 1, path, best, below);
    } else {
      forall j | k + 1 <= j < |n.children| ensures !Hits(q, n.children[j]) {
        OneHit(q, n, k, j);
      }
      NoHitFrom(q, n, k + 1, path, below);
    }
  }

  lemma {:induction false} DeepestThrough(q: Query, n: Node, k: nat, below: Path)
    requires WellNested(n) && Sharp(q, n) && Hits(q, n) && Le(n.location.end, q.documentEnd)
    requires k < |n.children| && Hits(q, n.children[k]) && Deepest(q, n.children[k], below)
    ensures Deepest(q, n, [k] + below)
  {
    var found := [k] + below;
    assert found[1..] == below;
    forall p | ValidPath(n, p) ensures Hits(q, At(n, p)) <==> p <= found {
      if p != [] {
        assert p == [p[0]] + p[1..];
        if p[0] == k {
          assert p[1..] <= below <==> p <= found;
        } else {
          OneHit(q, n, k, p[0]);
          assert n.location.Encloses(n.children[p[0]].location);
          NoHitBelow(q, n.children[p[0]], [], None);
        }
      }
    }
  }

  lemma {:induction false} ChildAt(n: Node, i: nat)
    requires i < |n.children|
    ensures ValidPath(n, [i]) && At(n, [i]) == n.children[i]
  {
    var path := [i];
    assert path[1..] == [];
  }

  /** A tree with a deepest node at the end of the document has no two siblings ending there. */
  lemma {:induction false} DeepestIsSharp(q: Query, n: Node, found: Path)
    requires WellNested(n) && Deepest(q, n, found) && Le(n.location.end, q.documentEnd) && q.pos == q.documentEnd
    ensures OneEndsAt(n, q.documentEnd)
    decreases n
  {
    forall i | 0 <= i < |n.children| && n.children[i].location.end == q.documentEnd ensures [i] <= found {
      ChildAt(n, i);
    }
    forall i | 0 <= i < |n.children| ensures OneEndsAt(n.children[i], q.documentEnd) {
      assert n.location.Encloses(n.children[i].location);
      if Hits(q, n.children[i]) {
        ChildAt(n, i);
        DeepestBelow(q, n, i, found);
        DeepestIsSharp(q, n.children[i], found[1..]);
      } else {
        NoHitBelow(q, n.children[i], [], None);
        NothingEnds(q, n.children[i]);
      }
    }
  }

  lemma {:induction false} DeepestBelow(q: Query, n: Node, i: nat, found: Path)
    requires Deepest(q, n, found) && i < |n.children| && [i] <= found
    ensures Deepest(q, n.children[i], found[1..])
  {
    forall p | ValidPath(n.children[i], p) ensures Hits(q, At(n.children[i], p)) <==> p <= found[1..] {
      var full := [i] + p;
      assert full[1..] == p && ValidPath(n, full) && At(n, full) == At(n.children[i], p);
      assert full <= found <==> p <= found[1..];
    }
  }

  lemma {:induction false} NothingEnds(q: Query, n: Node)
    requires q.pos == q.documentEnd && forall p :: ValidPath(n, p) ==> !Hits(q, At(n, p))
    ensures OneEndsAt(n, q.documentEnd)
    decreases n
  {
    forall i | 0 <= i < |n.children| ensures n.children[i].location.end != q.documentEnd && OneEndsAt(n.children[i], q.documentEnd) {
      ChildAt(n, i);
      forall p | ValidPath(n.children[i], p) ensures !Hits(q, At(n.children[i], p)) {
        var full := [i] + p;
        assert full[1..] == p && ValidPath(n, full) && At(n, full) == At(n.children[i], p);
      }
      NothingEnds(q, n.children[i]);
    }
  }

  /** A node that ends before the position, or starts behind it, does not hit. */
  lemma {:induction false} OutOfRange(q: Query, n: Node)
    requires WellNested(n) && Le(q.pos, q.documentEnd)
    requires Lt(n.location.end, q.pos) || Lt(q.pos, n.location.begin)
    ensures !Hits(q, n)
  {
  }

  /** The visitor. */
  class FindNode {
    const q: Query
    var best: Option<Path>

    constructor (q: Query)
      ensures this.q == q && best == None
    {
      this.q := q;
      best := None;
    }

    /** `visit(AstNode*)`: whether to go on to the children. */
    method Consider(n: Node, path: Path) returns (descend: bool)
      modifies this
      ensures descend == Hits(q, n) && best == if Hits(q, n) then Some(path) else old(best)
    {
      if n.location.Contains(q.pos) {
        best := Some(path);
        return true;
      }
      if n.location.end == q.documentEnd && Le(q.documentEnd, q.pos) {
        best := Some(path);
        return true;
      }
      return false;
    }

    /** A node visited with this visitor: the pruned search agrees with the plain one. */
    method Visit(n: Node, path: Path)
      requires WellNested(n) && Le(n.location.end, q.documentEnd) && Le(q.pos, q.documentEnd)
      modifies this
      ensures best == LastHit(q, n, path, old(best))
      decreases n, 1
    {
      if n.isBlock {
        VisitBlock(n, path);
      } else {
        var descend := Consider(n, path);
        if !descend {
          NoHitBelow(q, n, path, old(best));
          return;
        }
        for i := 0 to |n.children|
          invariant LastHitFrom(q, n, i, path, best) == LastHit(q, n, path, old(best))
        {
          assert n.location.Encloses(n.children[i].location);
          Visit(n.children[i], path + [i]);
        }
      }
    }

    /** `visit(AstStatBlock*)`: statements that end before the position are skipped, and the first
        one that starts behind it ends the loop. */
    method VisitBlock(n: Node, path: Path)
      requires WellNested(n) && Le(n.location.end, q.documentEnd) && Le(q.pos, q.documentEnd)
      modifies this
      ensures best == LastHit(q, n, path, old(best))
      decreases n, 0
    {
      var _ := Consider(n, path);
      var i := 0;
      while i < |n.children|
        invariant 0 <= i <= |n.children|
        invariant LastHitFrom(q, n, i, path, best) == LastHit(q, n, path, old(best))
      {
        var stat := n.children[i];
        assert n.location.Encloses(stat.location);
        if Lt(stat.location.end, q.pos) {
          OutOfRange(q, stat);
          NoHitBelow(q, stat, path + [i], best);
          i := i + 1;
          continue;
        }
        if Lt(q.pos, stat.location.begin) {
          BehindIsOutOfRange(q, n, i);
          NoHitFrom(q, n, i, path, best);
          break;
        }
        Visit(stat, path + [i]);
        i := i + 1;
      }
    }
  }

  lemma {:induction false} BehindIsOutOfRange(q: Query, n: Node, i: nat)
    requires WellNested(n) && Le(q.pos, q.documentEnd) && i < |n.children| && Lt(q.pos, n.children[i].location.begin)
    ensures forall j :: i <= j < |n.children| ==> !Hits(q, n.children[j])
  {
    forall j | i <= j < |n.children| ensures !Hits(q, n.children[j]) {
      assert WellNested(n.children[i]) && WellNested(n.children[j]);
      OutOfRange(q, n.children[j]);
    }
  }

  /** `findNodeAtPosition`: the root for positions before it; otherwise the deepest node at the
      position, with positions behind the end of the document moved to the end. */
  method FindNodeAtPosition(root: Node, pos0: Position) returns (found: Path)
    requires root.isBlock && WellNested(root)
    ensures Lt(pos0, root.location.begin) ==> found == []
    ensures Le(root.location.begin, pos0) ==>
              var end := root.location.end;
              var q := Query(if Lt(end, pos0) then end else pos0, end);
              && LastHit(q, root, [], None) == Some(found)
              && (Deepest(q, root, found) <==> Sharp(q, root))
  {
    var pos, end := pos0, root.location.end;
    if Lt(pos, root.location.begin) {
      return [];
    }
    if Lt(end, pos) {
      pos := end;
    }
    var finder := new FindNode(Query(pos, end));
    finder.VisitBlock(root, []);
    RootIsFound(finder.q, root, 0, Some([]));
    found := finder.best.value;
    ghost var q := finder.q;
    if Sharp(q, root) {
      ghost var deepest := LastHitIsDeepest(q, root, [], None);
      assert [] + deepest == deepest;
    } else if Deepest(q, root, found) {
      DeepestIsSharp(q, root, found);
    }
  }

  /** An empty node behind another at the end of the document: both are there, neither below the other. */
  lemma {:induction false} EmptyNodeAtEnd()
    ensures var end := Position(0, 1);
            var a, b := Node(Location(Position(0, 0), end), false, []), Node(Location(end, end), false, []);
            var root, q := Node(Location(Position(0, 0), end), true, [a, b]), Query(end, end);
            && WellNested(root) && Hits(q, a) && Hits(q, b)
            && LastHit(q, root, [], None) == Some([1]) && !Deepest(q, root, [1])
  {
    var end := Position(0, 1);
    var a, b := Node(Location(Position(0, 0), end), false, []), Node(Location(end, end), false, []);
    var root, q := Node(Location(Position(0, 0), end), true, [a, b]), Query(end, end);
    var top: Path := [];
    assert top + [0] == [0] && top + [1] == [1];
    assert LastHit(q, a, [0], Some(top)) == Some([0]);
    assert LastHit(q, b, [1], Some([0])) == Some([1]);
    assert LastHitFrom(q, root, 2, [], Some([1])) == Some([1]);
    assert LastHitFrom(q, root, 1, [], Some([0])) == Some([1]);
    ChildAt(root, 0);
    assert !([0] <= [1]) by { assert [0][0] != [1][0]; }
  }

  /** Once something has been found, the search ends with something found. */
  lemma {:induction false} RootIsFound(q: Query, n: Node, i: nat, best: Option<Path>)
    requires best.Some? && i <= |n.children|
    ensures forall path :: LastHitFrom(q, n, i, path, best).Some?
    decreases n, |n.children| - i
  {
    if i < |n.children| {
      forall path ensures LastHitFrom(q, n, i, path, best).Some? {
        var k := n.children[i];
        var b := if Hits(q, k) then Some(path + [i]) else best;
        RootIsFound(q, k, 0, b);
        RootIsFound(q, n, i + 1, LastHitFrom(q, k, 0, path + [i], b));
      }
    }
  }

  /** `findScopeAtPosition`: when the scopes at a position are nested in each other and the module
      scope comes first and encloses all, the scope found is the innermost one there. */
  method FindScopeAtPosition(scopes: seq<Location>, pos: Position) returns (found: Option<nat>)
    ensures found.None? <==> scopes == []
    ensures found.Some? ==> found.value < |scopes| && (found.value == 0 || scopes[found.value].ContainsClosed(pos))
    ensures found.Some? && Nested(scopes, pos) ==>
              forall i :: 0 <= i < |scopes| && scopes[i].ContainsClosed(pos) ==> scopes[i].Encloses(scopes[found.value])
  {
    if scopes == [] {
      return None;
    }
    var best := 0;
    for i := 0 to |scopes|
      invariant 0 <= best < |scopes| && (best == 0 || scopes[best].ContainsClosed(pos))
      invariant Nested(scopes, pos) ==> forall j :: 0 <= j < i && scopes[j].ContainsClosed(pos) ==> scopes[j].Encloses(scopes[best])
    {
      if scopes[i].ContainsClosed(pos) {
        if scopes[best].Encloses(scopes[i]) {
          best := i;
        }
      }
    }
    found := Some(best);
  }

  ghost predicate Nested(scopes: seq<Location>, pos: Position) {
    && (forall i :: 0 <= i < |scopes| ==> scopes[0].Encloses(scopes[i]))
    && forall i, j :: 0 <= i < |scopes| && 0 <= j < |scopes| && scopes[i].ContainsClosed(pos) && scopes[j].ContainsClosed(pos)
         ==> scopes[i].Encloses(scopes[j]) || scopes[j].Encloses(scopes[i])
  }
}
