/** Flame graph layout: every node of a tree gets a width, the sum of the self widths below it, and
    an offset, with the children of a node side by side inside it, widest first. */
module Layout {
  import opened Wrappers

  /** Nodes are numbered; `children[v]` are the values of the dictionary of node `v`. */
  type Graph = seq<seq<nat>>

  ghost predicate IsChild(children: Graph, v: nat, j: nat, c: nat) {
    v < |children| && j < |children[v]| && children[v][j] == c
  }

  /** What holds of a graph of nodes made by `child`: nobody is a child twice, and the root never. */
  ghost predicate IsTree(children: Graph, root: nat) {
    && root < |children|
    && (forall v: nat, j: nat, c: nat :: IsChild(children, v, j, c) ==> c < |children| && c != root)
    && (forall u: nat, i: nat, v: nat, j: nat, c: nat :: IsChild(children, u, i, c) && IsChild(children, v, j, c) ==> u == v && i == j)
  }

  lemma {:induction false} DistinctBound(s: seq<nat>, n: nat)
    requires Distinct(s) && forall i :: 0 <= i < |s| ==> s[i] < n
    ensures |s| <= n
    decreases n
  {
    if s != [] {
      assert s[0] < n;
      if k :| 0 <= k < |s| && s[k] == n - 1 {
        var t := s[..k] + s[k + 1..];
        assert forall i :: 0 <= i < |t| ==> t[i] == s[if i < k then i else i + 1];
        DistinctBound(t, n - 1);
      } else {
        DistinctBound(s, n - 1);
      }
    }
  }

  // ----- the order of the nodes -----

  /** The nodes in the order of the worklist; for each, where the block of its children begins, and
      the index of its parent. */
  datatype Plan = Plan(order: seq<nat>, first: seq<nat>, parent: seq<nat>)

  /** The i-th node has put its children into the list, as the block that starts at `first[i]`. */
  ghost predicate Block(children: Graph, order: seq<nat>, first: seq<nat>, i: nat)
    requires i < |order| && i + 1 < |first|
  {
    && order[i] < |children| && i < first[i] && first[i + 1] == first[i] + |children[order[i]]| <= |order|
    && order[first[i]..first[i + 1]] == children[order[i]]
  }

  /** The k-th node lies in the block of an earlier one. */
  ghost predicate InBlock(first: seq<nat>, parent: seq<nat>, k: nat)
    requires k < |parent|
  {
    parent[k] < k && parent[k] + 1 < |first| && first[parent[k]] <= k < first[parent[k] + 1]
  }

  /** A list of distinct nodes in which the first `done` ones have put their children, block after
      block, so that every node but the root is in the block of its parent. */
  ghost predicate Scanned(children: Graph, root: nat, order: seq<nat>, first: seq<nat>, parent: seq<nat>, done: nat) {
    && done <= |order| && order != [] && order[0] == root && Distinct(order)
    && |first| == done + 1 && first[0] == 1 && first[done] == |order| && |parent| == |order|
    && (forall i :: 0 <= i < |order| ==> order[i] < |children|)
    && (forall i :: 0 <= i < done ==> Block(children, order, first, i))
    && (forall k :: 1 <= k < |order| ==> InBlock(first, parent, k))
  }

  /** The nodes below the root, each once, all with their children. */
  ghost predicate BreadthFirst(children: Graph, root: nat, p: Plan) {
    Scanned(children, root, p.order, p.first, p.parent, |p.order|)
  }

  /** The list starts with the root, holds no node twice, is closed under children, and holds nothing
      else: the nodes of the tree, parents first. */
  ghost predicate Lists(children: Graph, root: nat, nodes: seq<nat>) {
    && nodes != [] && nodes[0] == root && Distinct(nodes)
    && (forall v: nat, j: nat, c: nat :: v in nodes && IsChild(children, v, j, c) ==> c in nodes)
    && (forall k :: 1 <= k < |nodes| ==> HasEarlierParent(children, nodes, k))
  }

  ghost predicate HasEarlierParent(children: Graph, nodes: seq<nat>, k: nat)
    requires k < |nodes|
  {
    exists i, j: nat :: 0 <= i < k && IsChild(children, nodes[i], j, nodes[k])
  }

  lemma {:induction false} ChildListed(children: Graph, order: seq<nat>, first: seq<nat>, i: nat, j: nat, c: nat)
    requires i < |order| && i + 1 < |first| && Block(children, order, first, i) && IsChild(children, order[i], j, c)
    ensures c in order
  {
    assert order[first[i]..first[i + 1]][j] == c;
  }

  lemma {:induction false} ParentListed(children: Graph, order: seq<nat>, first: seq<nat>, i: nat, k: nat)
    requires i < k < |order| && i + 1 < |first| && Block(children, order, first, i) && first[i] <= k < first[i + 1]
    ensures HasEarlierParent(children, order, k)
  {
    assert order[k] == order[first[i]..first[i + 1]][k - first[i]];
    assert IsChild(children, order[i], k - first[i], order[k]);
  }

  lemma {:induction false} ScannedLists(children: Graph, root: nat, p: Plan)
    requires BreadthFirst(children, root, p)
    ensures Lists(children, root, p.order)
  {
    var order, first, parent := p.order, p.first, p.parent;
    forall v: nat, j: nat, c: nat | v in order && IsChild(children, v, j, c) ensures c in order {
      var i: nat :| i < |order| && order[i] == v;
      ChildListed(children, order, first, i, j, c);
    }
    forall k | 1 <= k < |order| ensures HasEarlierParent(children, order, k) {
      assert InBlock(first, parent, k);
      ParentListed(children, order, first, parent[k], k);
    }
  }

  /** `subtree`: a worklist that grows while it is scanned. */
  method Subtree(children: Graph, root: nat) returns (result: seq<nat>, ghost p: Plan)
    requires IsTree(children, root)
    ensures Lists(children, root, result)
    ensures BreadthFirst(children, root, p) && p.order == result
  {
    result := [root];
    ghost var first: seq<nat> := [1];
    ghost var parent: seq<nat> := [0];
    var offset := 0;
    while offset < |result|
      invariant 0 <= offset <= |result| && Scanned(children, root, result, first, parent, offset)
      decreases |children| - offset
    {
      DistinctBound(result, |children|);
      var node := result[offset];
      ScanOne(children, root, result, first, parent, offset);
      result := result + children[node];
      first := first + [first[offset] + |children[node]|];
      parent := parent + seq(|children[node]|, _ => offset);
      offset := offset + 1;
    }
    p := Plan(result, first, parent);
    ScannedLists(children, root, p);
  }

  /** The children of the next node are new to the list. */
  lemma {:induction false} ChildrenAreNew(children: Graph, root: nat, order: seq<nat>, first: seq<nat>, parent: seq<nat>, done: nat)
    requires IsTree(children, root) && Scanned(children, root, order, first, parent, done) && done < |order|
    ensures Distinct(order + children[order[done]])
  {
    var p := order[done];
    var more := children[p];
    forall k, j | 0 <= k < |order| && 0 <= j < |more| ensures order[k] != more[j] {
      assert IsChild(children, p, j, more[j]);
      if k > 0 {
        assert InBlock(first, parent, k);
        var i := parent[k];
        assert Block(children, order, first, i);
        assert order[k] == order[first[i]..first[i + 1]][k - first[i]];
        assert IsChild(children, order[i], k - first[i], order[k]);
      }
    }
    forall i, j | 0 <= i < j < |more| ensures more[i] != more[j] {
      assert IsChild(children, p, i, more[i]) && IsChild(children, p, j, more[j]);
    }
  }

  lemma {:induction false} ScanOne(children: Graph, root: nat, order: seq<nat>, first: seq<nat>, parent: seq<nat>, done: nat)
    requires IsTree(children, root) && Scanned(children, root, order, first, parent, done) && done < |order|
    ensures var more := children[order[done]];
            Scanned(children, root, order + more, first + [first[done] + |more|], parent + seq(|more|, _ => done), done + 1)
  {
    ChildrenAreNew(children, root, order, first, parent, done);
    var more := children[order[done]];
    var order', first', parent' := order + more, first + [first[done] + |more|], parent + seq(|more|, _ => done);
    forall i | 0 <= i < |order'| ensures order'[i] < |children| {
      if i >= |order| { assert IsChild(children, order[done], i - |order|, order'[i]); }
    }
    assert done < first[done] by {
      assert first[done] == |order|;
    }
    forall i | 0 <= i < done + 1 ensures Block(children, order', first', i) {
      if i < done {
        assert Block(children, order, first, i);
        assert order'[first[i]..first[i + 1]] == order[first[i]..first[i + 1]];
      } else {
        assert order'[|order|..|order| + |more|] == more;
      }
    }
    forall k | 1 <= k < |order'| ensures InBlock(first', parent', k) {
      if k < |order| { assert InBlock(first, parent, k); }
    }
  }

  // ----- sums -----

  /** The k-th node of the order is the i-th one or lies below it. */
  ghost predicate Below(parent: seq<nat>, k: nat, i: nat)
    requires Upward(parent) && k < |parent|
    decreases k
  {
    k == i || (k > 0 && Below(parent, parent[k], i))
  }

  ghost predicate Upward(parent: seq<nat>) {
    forall j :: 1 <= j < |parent| ==> parent[j] < j
  }

  function Unit(b: bool): nat { if b then 1 else 0 }

  /** The self widths of the first `m` nodes of the order that are the i-th one or below it. */
  ghost function SumBelow(parent: seq<nat>, self: seq<nat>, i: nat, m: nat): nat
    requires Upward(parent) && m <= |parent| == |self|
  {
    if m == 0 then 0 else SumBelow(parent, self, i, m - 1) + Unit(Below(parent, m - 1, i)) * self[m - 1]
  }

  ghost function SumBelowBlock(parent: seq<nat>, self: seq<nat>, lo: nat, hi: nat, m: nat): nat
    requires Upward(parent) && m <= |parent| == |self| && lo <= hi
    decreases hi
  {
    if lo == hi then 0 else SumBelowBlock(parent, self, lo, hi - 1, m) + SumBelow(parent, self, hi - 1, m)
  }

  ghost function CountBelow(parent: seq<nat>, k: nat, lo: nat, hi: nat): nat
    requires Upward(parent) && k < |parent| && lo <= hi
    decreases hi
  {
    if lo == hi then 0 else CountBelow(parent, k, lo, hi - 1) + Unit(Below(parent, k, hi - 1))
  }

  lemma {:induction false} BelowIsLater(parent: seq<nat>, k: nat, i: nat)
    requires Upward(parent) && k < |parent| && Below(parent, k, i)
    ensures i <= k
    decreases k
  {
    if k != i {
      BelowIsLater(parent, parent[k], i);
    }
  }

  lemma {:induction false} CountZero(parent: seq<nat>, k: nat, lo: nat, hi: nat)
    requires Upward(parent) && k < |parent| && lo <= hi && forall c :: lo <= c < hi ==> !Below(parent, k, c)
    ensures CountBelow(parent, k, lo, hi) == 0
    decreases hi
  {
    if lo < hi {
      CountZero(parent, k, lo, hi - 1);
    }
  }

  lemma {:induction false} CountOne(parent: seq<nat>, k: nat, lo: nat, hi: nat)
    requires Upward(parent) && k < |parent| && lo <= k && lo <= hi && forall c :: lo <= c < hi ==> (Below(parent, k, c) <==> c == k)
    ensures CountBelow(parent, k, lo, hi) == Unit(k < hi)
    decreases hi
  {
    if lo < hi {
      CountOne(parent, k, lo, hi - 1);
    }
  }

  lemma {:induction false} CountSame(parent: seq<nat>, k: nat, p: nat, lo: nat, hi: nat)
    requires Upward(parent) && k < |parent| && p < |parent| && lo <= hi
    requires forall c :: lo <= c < hi ==> Below(parent, k, c) == Below(parent, p, c)
    ensures CountBelow(parent, k, lo, hi) == CountBelow(parent, p, lo, hi)
    decreases hi
  {
    if lo < hi {
      CountSame(parent, k, p, lo, hi - 1);
    }
  }

  /** Blocks follow each other. */
  lemma {:induction false} BlocksApart(children: Graph, root: nat, p: Plan, i: nat, j: nat)
    requires BreadthFirst(children, root, p) && i < j <= |p.order|
    ensures p.first[i + 1] <= p.first[j]
    decreases j
  {
    if i + 1 < j {
      BlocksApart(children, root, p, i, j - 1);
      assert Block(children, p.order, p.first, j - 1);
    }
  }

  lemma {:induction false} IsUpward(children: Graph, root: nat, p: Plan)
    requires BreadthFirst(children, root, p)
    ensures Upward(p.parent)
  {
    forall k | 1 <= k < |p.parent| ensures p.parent[k] < k {
      assert InBlock(p.first, p.parent, k);
    }
  }

  /** A node below the i-th one is below exactly one of its children. */
  lemma {:induction false} CountInBlock(children: Graph, root: nat, p: Plan, k: nat, i: nat)
    requires BreadthFirst(children, root, p) && Upward(p.parent) && k < |p.order| && i < |p.order|
    ensures p.first[i] <= p.first[i + 1] && CountBelow(p.parent, k, p.first[i], p.first[i + 1]) == Unit(k != i && Below(p.parent, k, i))
    decreases k
  {
    assert Block(children, p.order, p.first, i);
    var parent, lo, hi := p.parent, p.first[i], p.first[i + 1];
    if k <= i || k == 0 {
      forall c | lo <= c < hi ensures !Below(parent, k, c) {
        if Below(parent, k, c) { BelowIsLater(parent, k, c); }
      }
      CountZero(parent, k, lo, hi);
      if Below(parent, k, i) { BelowIsLater(parent, k, i); }
    } else {
      assert InBlock(p.first, parent, k);
      var up := parent[k];
      if up == i {
        forall c | lo <= c < hi ensures Below(parent, k, c) <==> c == k {
          if Below(parent, i, c) { BelowIsLater(parent, i, c); }
        }
        CountOne(parent, k, lo, hi);
        assert Below(parent, up, i);
      } else {
        if up < i { BlocksApart(children, root, p, up, i); }
        if i < up { BlocksApart(children, root, p, i, up); }
        CountInBlock(children, root, p, up, i);
        CountSame(parent, k, up, lo, hi);
      }
    }
  }

  lemma {:induction false} BlockStep(parent: seq<nat>, self: seq<nat>, lo: nat, hi: nat, m: nat)
    requires Upward(parent) && 0 < m <= |parent| == |self| && lo <= hi
    ensures SumBelowBlock(parent, self, lo, hi, m) ==
            SumBelowBlock(parent, self, lo, hi, m - 1) + CountBelow(parent, m - 1, lo, hi) * self[m - 1]
    decreases hi
  {
    if lo < hi {
      BlockStep(parent, self, lo, hi - 1, m);
      Distribute(CountBelow(parent, m - 1, lo, hi - 1), Unit(Below(parent, m - 1, hi - 1)), self[m - 1]);
    }
  }

  lemma {:induction false} Distribute(a: nat, b: nat, c: nat)
    ensures (a + b) * c == a * c + b * c
  {
  }

  lemma {:induction false} BlockEmpty(parent: seq<nat>, self: seq<nat>, lo: nat, hi: nat)
    requires Upward(parent) && |parent| == |self| && lo <= hi
    ensures SumBelowBlock(parent, self, lo, hi, 0) == 0
    decreases hi
  {
    if lo < hi {
      BlockEmpty(parent, self, lo, hi - 1);
    }
  }

  /** The sum below a node is its own width and the sums below its children. */
  lemma {:induction false} SumSplits(children: Graph, root: nat, p: Plan, self: seq<nat>, i: nat, m: nat)
    requires BreadthFirst(children, root, p) && Upward(p.parent)
    requires |self| == |p.order| && i < |p.order| && m <= |p.order|
    ensures p.first[i] <= p.first[i + 1]
    ensures SumBelow(p.parent, self, i, m) ==
            (if i < m then self[i] else 0) + SumBelowBlock(p.parent, self, p.first[i], p.first[i + 1], m)
    decreases m
  {
    assert Block(children, p.order, p.first, i);
    if m == 0 {
      BlockEmpty(p.parent, self, p.first[i], p.first[i + 1]);
    } else {
      SumSplits(children, root, p, self, i, m - 1);
      BlockStep(p.parent, self, p.first[i], p.first[i + 1], m);
      CountInBlock(children, root, p, m - 1, i);
    }
  }

  // ----- placing the children of one node -----

  ghost predicate Ids(w: seq<int>, ids: seq<nat>) {
    forall i :: 0 <= i < |ids| ==> ids[i] < |w|
  }

  function SumOf(w: seq<int>, ids: seq<nat>): int
    requires Ids(w, ids)
  {
    if ids == [] then 0 else SumOf(w, ids[..|ids| - 1]) + w[ids[|ids| - 1]]
  }

  lemma {:induction false} SumOfInsert(w: seq<int>, a: seq<nat>, x: nat, b: seq<nat>)
    requires Ids(w, a) && x < |w| && Ids(w, b)
    ensures SumOf(w, a + [x] + b) == SumOf(w, a + b) + w[x]
    decreases |b|
  {
    if b == [] {
      assert (a + [x] + b)[..|a|] == a && a + b == a;
    } else {
      var front, last := b[..|b| - 1], b[|b| - 1];
      SumOfInsert(w, a, x, front);
      assert (a + [x] + b)[..|a| + |b|] == a + [x] + front;
      assert (a + b)[..|a| + |b| - 1] == a + front;
    }
  }

  lemma {:induction false} OneMore(w: seq<int>, ids: seq<nat>, x: nat)
    requires Ids(w, ids) && x < |w|
    ensures Ids(w, ids + [x]) && SumOf(w, ids + [x]) == SumOf(w, ids) + w[x]
  {
    assert (ids + [x])[..|ids|] == ids;
  }

  ghost predicate Descending(w: seq<int>, ids: seq<nat>) {
    Ids(w, ids) && forall a, b :: 0 <= a < b < |ids| ==> w[ids[a]] >= w[ids[b]]
  }

  /** The nodes of one width, in order. */
  function OfWidth(w: seq<int>, ids: seq<nat>, v: int): (same: seq<nat>)
    requires Ids(w, ids)
    ensures Ids(w, same)
  {
    if ids == [] then []
    else
      var last := ids[|ids| - 1];
      OfWidth(w, ids[..|ids| - 1], v) + if w[last] == v then [last] else []
  }

  /** The nodes of every width come in the same order in both lists. */
  ghost predicate SameOrder(w: seq<int>, a: seq<nat>, b: seq<nat>)
    requires Ids(w, a) && Ids(w, b)
  {
    forall v :: OfWidth(w, a, v) == OfWidth(w, b, v)
  }

  ghost predicate SameWider(w: seq<int>, a: seq<nat>, b: seq<nat>)
    requires Ids(w, a) && Ids(w, b)
  {
    forall v :: Wider(w, a, v) == Wider(w, b, v)
  }

  lemma {:induction false} OfWidthConcat(w: seq<int>, a: seq<nat>, b: seq<nat>, v: int)
    requires Ids(w, a) && Ids(w, b)
    ensures Ids(w, a + b) && OfWidth(w, a + b, v) == OfWidth(w, a, v) + OfWidth(w, b, v)
    decreases b
  {
    if b == [] {
      assert a + b == a;
    } else {
      var front := b[..|b| - 1];
      OfWidthConcat(w, a, front, v);
      assert (a + b)[..|a + b| - 1] == a + front && (a + b)[|a + b| - 1] == b[|b| - 1];
    }
  }

  /** The widths above one. */
  function Wider(w: seq<int>, ids: seq<nat>, v: int): int
    requires Ids(w, ids)
  {
    if ids == [] then 0
    else
      var last := w[ids[|ids| - 1]];
      Wider(w, ids[..|ids| - 1], v) + if last > v then last else 0
  }

  /** The widths placed in front of the j-th node: the wider ones, and as wide ones that come before it. */
  function Ahead(w: seq<int>, ids: seq<nat>, j: nat): int
    requires Ids(w, ids) && j < |ids|
  {
    var v := w[ids[j]];
    Wider(w, ids, v) + SumOf(w, OfWidth(w, ids[..j], v))
  }

  /** Every node begins behind those that are wider, and behind those as wide that come before it. */
  ghost predicate WidestFirst(w: seq<int>, o: seq<int>, ids: seq<nat>) {
    |w| == |o| && Ids(w, ids) && forall j :: 0 <= j < |ids| ==> o[ids[j]] == Ahead(w, ids, j)
  }

  lemma {:induction false} WiderInsert(w: seq<int>, a: seq<nat>, x: nat, b: seq<nat>, v: int)
    requires Ids(w, a) && x < |w| && Ids(w, b)
    ensures Ids(w, a + b) && Ids(w, a + [x] + b)
    ensures Wider(w, a + [x] + b, v) == Wider(w, a + b, v) + if w[x] > v then w[x] else 0
    decreases |b|
  {
    if b == [] {
      assert (a + [x] + b)[..|a|] == a && a + b == a;
    } else {
      var front, last := b[..|b| - 1], b[|b| - 1];
      WiderInsert(w, a, x, front, v);
      assert (a + [x] + b)[..|a| + |b|] == a + [x] + front;
      assert (a + b)[..|a| + |b| - 1] == a + front;
    }
  }

  /** The i-th node among those as wide. */
  lemma {:induction false} AmongEquals(w: seq<int>, ids: seq<nat>, i: nat)
    requires Ids(w, ids) && i < |ids|
    ensures var v := w[ids[i]]; OfWidth(w, ids[..i], v) + [ids[i]] <= OfWidth(w, ids, v)
  {
    var v := w[ids[i]];
    OfWidthConcat(w, ids[..i + 1], ids[i + 1..], v);
    assert ids[..i + 1] + ids[i + 1..] == ids && ids[..i + 1][..i] == ids[..i];
  }

  lemma {:induction false} DistinctEquals(w: seq<int>, ids: seq<nat>, v: int)
    requires Ids(w, ids) && Distinct(ids)
    ensures Distinct(OfWidth(w, ids, v)) && forall x :: x in OfWidth(w, ids, v) ==> x in ids
  {
    if ids != [] {
      var front, last := ids[..|ids| - 1], ids[|ids| - 1];
      DistinctEquals(w, front, v);
      assert last !in front && last !in OfWidth(w, front, v);
    }
  }

  /** A node has the same ones as wide in front of it in both lists. */
  lemma {:induction false} SameEqualsAhead(w: seq<int>, a: seq<nat>, i: nat, b: seq<nat>, j: nat)
    requires Ids(w, a) && Ids(w, b) && SameOrder(w, a, b) && Distinct(b)
    requires i < |a| && j < |b| && a[i] == b[j]
    ensures OfWidth(w, a[..i], w[a[i]]) == OfWidth(w, b[..j], w[b[j]])
  {
    var v := w[a[i]];
    AmongEquals(w, a, i);
    AmongEquals(w, b, j);
    DistinctEquals(w, b, v);
    var all, x, y := OfWidth(w, b, v), OfWidth(w, a[..i], v), OfWidth(w, b[..j], v);
    assert (x + [a[i]])[|x|] == all[|x|] && (y + [b[j]])[|y|] == all[|y|];
    assert x == all[..|x|] && y == all[..|y|];
  }

  lemma {:induction false} NoneBelow(w: seq<int>, ids: seq<nat>, v: int)
    requires Ids(w, ids) && forall i :: 0 <= i < |ids| ==> w[ids[i]] >= v
    ensures SumOf(w, ids) == Wider(w, ids, v) + SumOf(w, OfWidth(w, ids, v))
  {
    if ids != [] {
      var front, last := ids[..|ids| - 1], ids[|ids| - 1];
      NoneBelow(w, front, v);
      var same := OfWidth(w, front, v);
      OneMore(w, same, last);
      assert OfWidth(w, ids, v) == if w[last] == v then same + [last] else same;
    }
  }

  lemma {:induction false} WiderInFront(w: seq<int>, ids: seq<nat>, i: nat, v: int)
    requires Ids(w, ids) && i <= |ids| && forall k :: i <= k < |ids| ==> w[ids[k]] <= v
    ensures Wider(w, ids, v) == Wider(w, ids[..i], v)
  {
    if i < |ids| {
      var front := ids[..|ids| - 1];
      WiderInFront(w, front, i, v);
      assert front[..i] == ids[..i];
    } else {
      assert ids[..i] == ids;
    }
  }

  /** In descending order, what is in front of a node is what was to be placed ahead of it. */
  lemma {:induction false} SortedAhead(w: seq<int>, sorted: seq<nat>, i: nat, ids: seq<nat>, j: nat)
    requires Descending(w, sorted) && Ids(w, ids) && Distinct(ids) && SameOrder(w, sorted, ids)
    requires SameWider(w, sorted, ids)
    requires i < |sorted| && j < |ids| && sorted[i] == ids[j]
    ensures SumOf(w, sorted[..i]) == Ahead(w, ids, j)
  {
    var v := w[sorted[i]];
    NoneBelow(w, sorted[..i], v);
    WiderInFront(w, sorted, i, v);
    SameEqualsAhead(w, sorted, i, ids, j);
  }

  lemma {:induction false} OtherWidths(w: seq<int>, ids: seq<nat>, v: int)
    requires Ids(w, ids) && forall i :: 0 <= i < |ids| ==> w[ids[i]] != v
    ensures OfWidth(w, ids, v) == []
  {
    if ids != [] {
      OtherWidths(w, ids[..|ids| - 1], v);
    }
  }

  /** Inserted behind all of its width, a node comes last among them. */
  lemma {:induction false} InsertedInOrder(w: seq<int>, ids: seq<nat>, pos: nat, x: nat, v: int)
    requires Descending(w, ids) && pos <= |ids| && x < |w| && (pos < |ids| ==> w[ids[pos]] < w[x])
    ensures var all := ids[..pos] + [x] + ids[pos..];
            Ids(w, all) && OfWidth(w, all, v) == OfWidth(w, ids, v) + if w[x] == v then [x] else []
  {
    var front, back := ids[..pos], ids[pos..];
    forall i | 0 <= i < |back| ensures w[back[i]] < w[x] {
      assert back[i] == ids[pos + i];
    }
    InsertedBetween(w, front, x, back, v);
    assert front + back == ids;
  }

  lemma {:induction false} InsertedBetween(w: seq<int>, front: seq<nat>, x: nat, back: seq<nat>, v: int)
    requires Ids(w, front) && Ids(w, back) && x < |w| && forall i :: 0 <= i < |back| ==> w[back[i]] < w[x]
    ensures Ids(w, front + [x] + back) && Ids(w, front + back)
    ensures OfWidth(w, front + [x] + back, v) == OfWidth(w, front + back, v) + if w[x] == v then [x] else []
  {
    var one := if w[x] == v then [x] else [];
    assert Ids(w, front + [x]) && OfWidth(w, front + [x], v) == OfWidth(w, front, v) + one by {
      OneOfWidth(w, x, v);
      OfWidthConcat(w, front, [x], v);
    }
    OfWidthConcat(w, front + [x], back, v);
    OfWidthConcat(w, front, back, v);
    if w[x] == v {
      OtherWidths(w, back, v);
    }
  }

  lemma {:induction false} OneOfWidth(w: seq<int>, x: nat, v: int)
    requires x < |w|
    ensures Ids(w, [x]) && OfWidth(w, [x], v) == if w[x] == v then [x] else []
  {
    assert [x][..0] == [];
  }

  /** Insert behind everything that is at least as wide. */
  method InsertByWidth(w: seq<int>, sorted0: seq<nat>, x: nat) returns (sorted: seq<nat>)
    requires Descending(w, sorted0) && x < |w|
    ensures Descending(w, sorted) && multiset(sorted) == multiset(sorted0) + multiset{x}
    ensures SumOf(w, sorted) == SumOf(w, sorted0) + w[x]
    ensures OneAdded(w, sorted0, x, sorted)
  {
    var pos := 0;
    while pos < |sorted0| && w[sorted0[pos]] >= w[x]
      invariant 0 <= pos <= |sorted0|
      invariant forall a :: 0 <= a < pos ==> w[sorted0[a]] >= w[x]
    {
      pos := pos + 1;
    }
    sorted := sorted0[..pos] + [x] + sorted0[pos..];
    InsertedDescends(w, sorted0, pos, x);
    InsertedAdds(w, sorted0, pos, x);
    InsertedAsOne(w, sorted0, pos, x);
  }

  /** One more node: the last of those as wide, and one more width. */
  ghost predicate OneAdded(w: seq<int>, ids: seq<nat>, x: nat, all: seq<nat>) {
    && Ids(w, ids) && Ids(w, all) && x < |w|
    && (forall v :: OfWidth(w, all, v) == OfWidth(w, ids, v) + if w[x] == v then [x] else [])
    && (forall v :: Wider(w, all, v) == Wider(w, ids, v) + if w[x] > v then w[x] else 0)
  }

  lemma {:induction false} InsertedAsOne(w: seq<int>, ids: seq<nat>, pos: nat, x: nat)
    requires Descending(w, ids) && pos <= |ids| && x < |w| && (pos < |ids| ==> w[ids[pos]] < w[x])
    ensures OneAdded(w, ids, x, ids[..pos] + [x] + ids[pos..])
  {
    forall v {
      InsertedInOrder(w, ids, pos, x, v);
    }
    forall v {
      WiderInsert(w, ids[..pos], x, ids[pos..], v);
    }
    assert ids[..pos] + ids[pos..] == ids;
  }

  /** Lists with the same widths, each in the same order, still are when the same node is added. */
  lemma {:induction false} SameWhenAdded(w: seq<int>, a: seq<nat>, b: seq<nat>, x: nat, a': seq<nat>)
    requires Ids(w, a) && Ids(w, b) && SameOrder(w, a, b) && SameWider(w, a, b) && OneAdded(w, a, x, a')
    ensures Ids(w, b + [x]) && SameOrder(w, a', b + [x]) && SameWider(w, a', b + [x])
  {
    assert (b + [x])[..|b|] == b;
  }

  lemma {:induction false} InsertedAdds(w: seq<int>, ids: seq<nat>, pos: nat, x: nat)
    requires Ids(w, ids) && pos <= |ids| && x < |w|
    ensures var all := ids[..pos] + [x] + ids[pos..];
            multiset(all) == multiset(ids) + multiset{x} && Ids(w, all) && SumOf(w, all) == SumOf(w, ids) + w[x]
  {
    var front, back := ids[..pos], ids[pos..];
    SumOfInsert(w, front, x, back);
    assert ids == front + back;
  }

  lemma {:induction false} InsertedDescends(w: seq<int>, ids: seq<nat>, pos: nat, x: nat)
    requires Descending(w, ids) && pos <= |ids| && x < |w|
    requires (forall a :: 0 <= a < pos ==> w[ids[a]] >= w[x]) && (pos < |ids| ==> w[ids[pos]] <= w[x])
    ensures Descending(w, ids[..pos] + [x] + ids[pos..])
  {
    var all := ids[..pos] + [x] + ids[pos..];
    forall i | 0 <= i < |all| ensures all[i] == if i < pos then ids[i] else if i == pos then x else ids[i - 1] {
    }
  }

  /** `sorted` by width, widest first; equal widths keep their order. */
  method SortedByWidth(w: seq<int>, ids: seq<nat>) returns (sorted: seq<nat>)
    requires Ids(w, ids)
    ensures Descending(w, sorted) && multiset(sorted) == multiset(ids) && SumOf(w, sorted) == SumOf(w, ids)
    ensures SameOrder(w, sorted, ids) && SameWider(w, sorted, ids)
  {
    sorted := [];
    for i := 0 to |ids|
      invariant Descending(w, sorted) && multiset(sorted) == multiset(ids[..i]) && SumOf(w, sorted) == SumOf(w, ids[..i])
      invariant SameOrder(w, sorted, ids[..i]) && SameWider(w, sorted, ids[..i])
    {
      ghost var sorted0 := sorted;
      sorted := InsertByWidth(w, sorted, ids[i]);
      SameWhenAdded(w, sorted0, ids[..i], ids[i], sorted);
      assert ids[..i + 1] == ids[..i] + [ids[i]] && ids[..i + 1][..i] == ids[..i];
    }
    assert ids[..|ids|] == ids;
  }

  /** The interval of one node ends before the other's begins. */
  predicate Apart(w: seq<int>, o: seq<int>, a: nat, b: nat)
    requires |w| == |o| && a < |w| && b < |w|
  {
    o[a] + w[a] <= o[b] || o[b] + w[b] <= o[a]
  }

  /** Nodes side by side from zero, without overlap. */
  ghost predicate SideBySide(w: seq<int>, o: seq<int>, ids: seq<nat>)
    requires |w| == |o| && Ids(w, ids)
  {
    && (forall i :: 0 <= i < |ids| ==> 0 <= o[ids[i]] && o[ids[i]] + w[ids[i]] <= SumOf(w, ids))
    && (forall i, j :: 0 <= i < j < |ids| ==> Apart(w, o, ids[i], ids[j]))
  }

  lemma {:induction false} SameElements(a: seq<nat>, b: seq<nat>)
    requires multiset(a) == multiset(b) && Distinct(a)
    ensures Distinct(b) && forall x :: x in a <==> x in b
  {
    forall x ensures x in a <==> x in b {
      assert x in a <==> x in multiset(a);
      assert x in b <==> x in multiset(b);
    }
    forall i, j | 0 <= i < j < |b| ensures b[i] != b[j] {
      if b[i] == b[j] {
        assert b == b[..i] + [b[i]] + b[i + 1..j] + [b[j]] + b[j + 1..];
        assert multiset(b)[b[i]] >= 2;
        CountOnce(a, b[i]);
      }
    }
  }

  lemma {:induction false} CountOnce(a: seq<nat>, x: nat)
    requires Distinct(a)
    ensures multiset(a)[x] <= 1
  {
    if a != [] {
      CountOnce(a[1..], x);
      assert a == [a[0]] + a[1..];
      if x == a[0] {
        assert x !in a[1..];
        assert x !in multiset(a[1..]);
      }
    }
  }

  /** Offsets relative to the parent, in layout order. */
  method PlaceChildren(ids: seq<nat>, width: array<int>, offset: array<int>)
    requires width != offset && width.Length == offset.Length && Ids(width[..], ids) && Distinct(ids)
    requires forall i :: 0 <= i < |ids| ==> width[ids[i]] >= 0
    modifies offset
    ensures SideBySide(width[..], offset[..], ids) && WidestFirst(width[..], offset[..], ids)
    ensures forall v :: 0 <= v < offset.Length && v !in ids ==> offset[v] == old(offset[v])
  {
    var w := width[..];
    var sorted := SortedByWidth(w, ids);
    SameElements(ids, sorted);
    forall i | 0 <= i < |sorted| ensures w[sorted[i]] >= 0 {
      assert sorted[i] in sorted && sorted[i] in ids;
    }
    PlaceInOrder(sorted, w, offset);
    SideBySideEither(w, offset[..], ids, sorted);
    RowIsWidestFirst(w, offset[..], ids, sorted);
  }

  /** Nodes one behind the other from zero. */
  ghost predicate InARow(w: seq<int>, o: seq<int>, ids: seq<nat>) {
    |w| == |o| && Ids(w, ids) && forall a :: 0 <= a < |ids| ==> o[ids[a]] == SumOf(w, ids[..a])
  }

  lemma {:induction false} RowIsWidestFirst(w: seq<int>, o: seq<int>, ids: seq<nat>, sorted: seq<nat>)
    requires InARow(w, o, sorted) && Descending(w, sorted) && Ids(w, ids) && Distinct(ids)
    requires SameOrder(w, sorted, ids) && SameWider(w, sorted, ids) && forall x :: x in ids <==> x in sorted
    ensures WidestFirst(w, o, ids)
  {
    forall j | 0 <= j < |ids| ensures o[ids[j]] == Ahead(w, ids, j) {
      assert ids[j] in sorted;
      var i :| 0 <= i < |sorted| && sorted[i] == ids[j];
      SortedAhead(w, sorted, i, ids, j);
    }
  }

  lemma {:induction false} RowOneMore(w: seq<int>, o: seq<int>, ids: seq<nat>, x: nat)
    requires InARow(w, o, ids) && x < |w| && x !in ids
    ensures InARow(w, o[x := SumOf(w, ids)], ids + [x])
  {
    var all := ids + [x];
    assert all[..|ids|] == ids;
    forall a | 0 <= a < |ids| ensures all[..a] == ids[..a] && all[a] in ids {
    }
  }

  method PlaceInOrder(sorted: seq<nat>, w: seq<int>, offset: array<int>)
    requires |w| == offset.Length && Ids(w, sorted) && Distinct(sorted)
    requires forall i :: 0 <= i < |sorted| ==> w[sorted[i]] >= 0
    modifies offset
    ensures Placed(w, offset[..], sorted, SumOf(w, sorted)) && InARow(w, offset[..], sorted)
    ensures forall v :: 0 <= v < offset.Length && v !in sorted ==> offset[v] == old(offset[v])
  {
    var at := 0;
    for i := 0 to |sorted|
      invariant at == SumOf(w, sorted[..i]) && Placed(w, offset[..], sorted[..i], at)
      invariant InARow(w, offset[..], sorted[..i])
      invariant forall v :: 0 <= v < offset.Length && v !in sorted ==> offset[v] == old(offset[v])
    {
      ghost var before := offset[..];
      offset[sorted[i]] := at;
      assert offset[..] == before[sorted[i] := at];
      PlaceOne(w, before, sorted[..i], sorted[i], at);
      RowOneMore(w, before, sorted[..i], sorted[i]);
      TakeOne(w, sorted, i);
      at := at + w[sorted[i]];
    }
    assert sorted[..|sorted|] == sorted;
  }

  lemma {:induction false} TakeOne(w: seq<int>, ids: seq<nat>, i: nat)
    requires Ids(w, ids) && i < |ids|
    ensures ids[..i + 1] == ids[..i] + [ids[i]] && SumOf(w, ids[..i + 1]) == SumOf(w, ids[..i]) + w[ids[i]]
  {
    assert ids[..i + 1][..i] == ids[..i];
  }

  /** Nodes placed one after the other from zero up to `at`. */
  ghost predicate Placed(w: seq<int>, o: seq<int>, ids: seq<nat>, at: int) {
    && |w| == |o| && Ids(w, ids) && at >= 0
    && (forall a :: 0 <= a < |ids| ==> 0 <= o[ids[a]] && o[ids[a]] + w[ids[a]] <= at)
    && (forall a, b :: 0 <= a < b < |ids| ==> o[ids[a]] + w[ids[a]] <= o[ids[b]])
  }

  lemma {:induction false} PlaceOne(w: seq<int>, o: seq<int>, ids: seq<nat>, x: nat, at: int)
    requires Placed(w, o, ids, at) && x < |w| && w[x] >= 0 && x !in ids
    ensures Placed(w, o[x := at], ids + [x], at + w[x])
  {
  }

  lemma {:induction false} SideBySideEither(w: seq<int>, o: seq<int>, ids: seq<nat>, sorted: seq<nat>)
    requires |w| == |o| && Ids(w, ids) && Ids(w, sorted) && Distinct(ids) && (forall x :: x in ids <==> x in sorted)
    requires Placed(w, o, sorted, SumOf(w, ids))
    ensures SideBySide(w, o, ids)
  {
    forall i | 0 <= i < |ids| ensures 0 <= o[ids[i]] && o[ids[i]] + w[ids[i]] <= SumOf(w, ids) {
      assert ids[i] in sorted;
      var a :| 0 <= a < |sorted| && sorted[a] == ids[i];
    }
    forall i, j | 0 <= i < j < |ids| ensures Apart(w, o, ids[i], ids[j]) {
      assert ids[i] in sorted && ids[j] in sorted;
      var a :| 0 <= a < |sorted| && sorted[a] == ids[i];
      var b :| 0 <= b < |sorted| && sorted[b] == ids[j];
      assert a < b || b < a;
    }
  }

  // ----- the two passes -----

  function Pick(values: seq<nat>, order: seq<nat>): seq<nat>
    requires forall i :: 0 <= i < |order| ==> order[i] < |values|
  {
    seq(|order|, i requires 0 <= i < |order| => values[order[i]])
  }

  ghost predicate Sized(p: Plan, self: seq<nat>, w: seq<int>, o: seq<int>) {
    && |p.first| == |p.order| + 1 && |self| == |p.parent| == |p.order| && Upward(p.parent)
    && |w| == |o| && Ids(w, p.order)
  }

  /** The children of the i-th node lie side by side inside it, widest first, relative to its offset. */
  ghost predicate Packed(p: Plan, w: seq<int>, o: seq<int>, i: nat)
    requires |p.first| == |p.order| + 1 && i < |p.order| && |w| == |o| && Ids(w, p.order)
  {
    && p.first[i] <= p.first[i + 1] <= |p.order|
    && (forall k :: p.first[i] <= k < p.first[i + 1] ==>
          0 <= o[p.order[k]] && o[p.order[k]] + w[p.order[k]] <= w[p.order[i]])
    && (forall k, l :: p.first[i] <= k < l < p.first[i + 1] ==> Apart(w, o, p.order[k], p.order[l]))
    && WidestFirst(w, o, p.order[p.first[i]..p.first[i + 1]])
  }

  /** From the t-th node on, widths are final and children are packed. */
  ghost predicate MeasuredFrom(p: Plan, self: seq<nat>, w: seq<int>, o: seq<int>, t: nat) {
    && Sized(p, self, w, o)
    && (forall i :: t <= i < |p.order| ==> w[p.order[i]] == SumBelow(p.parent, self, i, |p.order|))
    && (forall i :: t <= i < |p.order| ==> Packed(p, w, o, i))
  }

  lemma {:induction false} BlockSum(w: seq<int>, p: Plan, self: seq<nat>, lo: nat, hi: nat)
    requires |self| == |p.parent| == |p.order| && Upward(p.parent) && Ids(w, p.order) && lo <= hi <= |p.order|
    requires forall k :: lo <= k < hi ==> w[p.order[k]] == SumBelow(p.parent, self, k, |p.order|)
    ensures SumOf(w, p.order[lo..hi]) == SumBelowBlock(p.parent, self, lo, hi, |p.order|)
    decreases hi
  {
    if lo < hi {
      BlockSum(w, p, self, lo, hi - 1);
      assert p.order[lo..hi][..hi - 1 - lo] == p.order[lo..hi - 1];
    }
  }

  /** The width of one node: its self width plus the widths of its children. */
  method MeasureOne(children: Graph, own: seq<nat>, v: nat, width: array<int>)
    requires v < width.Length && |own| == |children| == width.Length && Ids(width[..], children[v]) && v !in children[v]
    modifies width
    ensures Ids(old(width[..]), children[v])
    ensures width[..] == old(width[..])[v := own[v] + SumOf(old(width[..]), children[v])]
  {
    ghost var w := width[..];
    width[v] := own[v];
    for j := 0 to |children[v]|
      invariant width[..] == w[v := own[v] + SumOf(w, children[v][..j])]
    {
      assert children[v][j] in children[v];
      TakeOne(w, children[v], j);
      width[v] := width[v] + width[children[v][j]];
    }
    assert children[v][..|children[v]|] == children[v];
  }

  /** The first pass, over the nodes in reverse order: widths and relative offsets. */
  method MeasureAll(children: Graph, root: nat, own: seq<nat>, order: seq<nat>, ghost p: Plan, width: array<int>, offset: array<int>)
    requires BreadthFirst(children, root, p) && Upward(p.parent) && p.order == order
    requires |own| == |children| == width.Length == offset.Length && width != offset
    modifies width, offset
    ensures MeasuredFrom(p, Pick(own, order), width[..], offset[..], 0)
    ensures offset[root] == old(offset[root])
  {
    ghost var self := Pick(own, order);
    var t := |order|;
    while t > 0
      invariant 0 <= t <= |order|
      invariant MeasuredFrom(p, self, width[..], offset[..], t)
      invariant offset[root] == old(offset[root])
    {
      t := t - 1;
      var v := order[t];
      ghost var w0, o0 := width[..], offset[..];
      ChildrenFacts(children, root, p, t);
      MeasureOne(children, own, v, width);
      WidthStep(children, root, p, own, w0, o0, width[..], t);
      PlaceChildren(children[v], width, offset);
      PackStep(children, root, p, self, w0, o0, width[..], offset[..], t);
    }
  }

  lemma {:induction false} ChildrenFacts(children: Graph, root: nat, p: Plan, t: nat)
    requires BreadthFirst(children, root, p) && t < |p.order|
    ensures p.order[t] !in children[p.order[t]] && root !in children[p.order[t]] && Distinct(children[p.order[t]])
    ensures forall j :: 0 <= j < |children[p.order[t]]| ==> children[p.order[t]][j] < |children|
  {
    assert Block(children, p.order, p.first, t);
    var block := p.order[p.first[t]..p.first[t + 1]];
    assert forall j :: 0 <= j < |block| ==> block[j] == p.order[p.first[t] + j];
  }

  /** The next width is the sum below its node, and so are those of the children. */
  lemma {:induction false} WidthStep(children: Graph, root: nat, p: Plan, own: seq<nat>, w0: seq<int>, o0: seq<int>, w1: seq<int>, t: nat)
    requires BreadthFirst(children, root, p) && t < |p.order| && |own| == |children| == |w0|
    requires MeasuredFrom(p, Pick(own, p.order), w0, o0, t + 1) && Ids(w0, children[p.order[t]])
    requires w1 == w0[p.order[t] := own[p.order[t]] + SumOf(w0, children[p.order[t]])]
    ensures w1[p.order[t]] == SumBelow(p.parent, Pick(own, p.order), t, |p.order|)
    ensures forall j :: 0 <= j < |children[p.order[t]]| ==> w1[children[p.order[t]][j]] >= 0
    ensures Ids(w1, children[p.order[t]]) && SumOf(w1, children[p.order[t]]) <= w1[p.order[t]]
  {
    var self, v := Pick(own, p.order), p.order[t];
    assert Block(children, p.order, p.first, t);
    BlockSum(w0, p, self, p.first[t], p.first[t + 1]);
    SumSplits(children, root, p, self, t, |p.order|);
    var block := p.order[p.first[t]..p.first[t + 1]];
    assert forall j :: 0 <= j < |block| ==> block[j] == p.order[p.first[t] + j] && block[j] != v;
    SumOfSame(w0, w1, children[v]);
  }

  lemma {:induction false} SumOfSame(w0: seq<int>, w1: seq<int>, ids: seq<nat>)
    requires |w0| == |w1| && Ids(w0, ids) && forall j :: 0 <= j < |ids| ==> w1[ids[j]] == w0[ids[j]]
    ensures SumOf(w1, ids) == SumOf(w0, ids)
    decreases |ids|
  {
    if ids != [] {
      SumOfSame(w0, w1, ids[..|ids| - 1]);
    }
  }

  /** Measuring one more node keeps what is known of the later ones. */
  lemma {:induction false} PackStep(children: Graph, root: nat, p: Plan, self: seq<nat>,
                                    w0: seq<int>, o0: seq<int>, w1: seq<int>, o1: seq<int>, t: nat)
    requires BreadthFirst(children, root, p) && t < |p.order| && |w0| == |w1| == |o1| == |children|
    requires MeasuredFrom(p, self, w0, o0, t + 1)
    requires (forall v :: 0 <= v < |w0| && v != p.order[t] ==> w1[v] == w0[v]) && w1[p.order[t]] == SumBelow(p.parent, self, t, |p.order|)
    requires forall v :: 0 <= v < |o0| && v !in children[p.order[t]] ==> o1[v] == o0[v]
    requires Ids(w1, children[p.order[t]])
    requires WidestFirst(w1, o1, children[p.order[t]])
    requires SideBySide(w1, o1, children[p.order[t]]) && SumOf(w1, children[p.order[t]]) <= w1[p.order[t]]
    ensures MeasuredFrom(p, self, w1, o1, t)
  {
    forall i | t <= i < |p.order| ensures Packed(p, w1, o1, i) {
      if i > t {
        assert Packed(p, w0, o0, i);
        BlockUntouched(children, root, p, t, i);
        PackedFrame(p, w0, o0, w1, o1, i);
      } else {
        PackedHere(children, root, p, w1, o1, t);
      }
    }
  }

  lemma {:induction false} BlockUntouched(children: Graph, root: nat, p: Plan, t: nat, i: nat)
    requires BreadthFirst(children, root, p) && t < i < |p.order|
    ensures p.first[i] <= p.first[i + 1] <= |p.order|
    ensures forall k :: p.first[i] <= k < p.first[i + 1] ==> p.order[k] != p.order[t] && p.order[k] !in children[p.order[t]]
  {
    assert Block(children, p.order, p.first, t) && Block(children, p.order, p.first, i);
    BlocksApart(children, root, p, t, i);
    var block := p.order[p.first[t]..p.first[t + 1]];
    assert forall j :: 0 <= j < |block| ==> block[j] == p.order[p.first[t] + j];
  }

  lemma {:induction false} PackedFrame(p: Plan, w0: seq<int>, o0: seq<int>, w1: seq<int>, o1: seq<int>, i: nat)
    requires |p.first| == |p.order| + 1 && i < |p.order| && |w0| == |o0| == |w1| == |o1| && Ids(w0, p.order) && Packed(p, w0, o0, i)
    requires w1[p.order[i]] == w0[p.order[i]]
    requires forall k :: p.first[i] <= k < p.first[i + 1] ==> w1[p.order[k]] == w0[p.order[k]] && o1[p.order[k]] == o0[p.order[k]]
    ensures Packed(p, w1, o1, i)
  {
    forall k, l | p.first[i] <= k < l < p.first[i + 1] ensures Apart(w1, o1, p.order[k], p.order[l]) {
      assert Apart(w0, o0, p.order[k], p.order[l]);
    }
    var block := p.order[p.first[i]..p.first[i + 1]];
    WidestFirstSame(w0, o0, w1, o1, block);
  }

  lemma {:induction false} WidestFirstSame(w0: seq<int>, o0: seq<int>, w1: seq<int>, o1: seq<int>, ids: seq<nat>)
    requires WidestFirst(w0, o0, ids) && |w1| == |o1| == |w0|
    requires forall j :: 0 <= j < |ids| ==> w1[ids[j]] == w0[ids[j]] && o1[ids[j]] == o0[ids[j]]
    ensures WidestFirst(w1, o1, ids)
  {
    forall j | 0 <= j < |ids| ensures Ahead(w1, ids, j) == Ahead(w0, ids, j) {
      var v := w0[ids[j]];
      WiderSame(w0, w1, ids, v);
      OfWidthSame(w0, w1, ids[..j], v);
    }
  }

  lemma {:induction false} WiderSame(w0: seq<int>, w1: seq<int>, ids: seq<nat>, v: int)
    requires |w0| == |w1| && Ids(w0, ids) && forall j :: 0 <= j < |ids| ==> w1[ids[j]] == w0[ids[j]]
    ensures Wider(w1, ids, v) == Wider(w0, ids, v)
  {
    if ids != [] {
      WiderSame(w0, w1, ids[..|ids| - 1], v);
    }
  }

  lemma {:induction false} OfWidthSame(w0: seq<int>, w1: seq<int>, ids: seq<nat>, v: int)
    requires |w0| == |w1| && Ids(w0, ids) && forall j :: 0 <= j < |ids| ==> w1[ids[j]] == w0[ids[j]]
    ensures OfWidth(w1, ids, v) == OfWidth(w0, ids, v) && SumOf(w1, OfWidth(w1, ids, v)) == SumOf(w0, OfWidth(w0, ids, v))
  {
    if ids != [] {
      var front, last := ids[..|ids| - 1], ids[|ids| - 1];
      OfWidthSame(w0, w1, front, v);
      var same := OfWidth(w0, front, v);
      OneMore(w0, same, last);
      OneMore(w1, same, last);
      assert OfWidth(w0, ids, v) == (if w0[last] == v then same + [last] else same) == OfWidth(w1, ids, v);
    }
  }

  lemma {:induction false} PackedHere(children: Graph, root: nat, p: Plan, w: seq<int>, o: seq<int>, t: nat)
    requires BreadthFirst(children, root, p) && t < |p.order| && |w| == |o| == |children| && Ids(w, children[p.order[t]])
    requires WidestFirst(w, o, children[p.order[t]])
    requires SideBySide(w, o, children[p.order[t]]) && SumOf(w, children[p.order[t]]) <= w[p.order[t]]
    ensures Packed(p, w, o, t)
  {
    assert Block(children, p.order, p.first, t);
    var block := p.order[p.first[t]..p.first[t + 1]];
    forall k | p.first[t] <= k < p.first[t + 1] ensures p.order[k] == block[k - p.first[t]] {
    }
  }

  /** The k-th node is one level below its parent and shifted by the parent's offset. */
  ghost predicate ShiftedAt(p: Plan, rel: seq<int>, o: seq<int>, d: seq<int>, k: nat)
    requires |p.parent| == |p.order| && Upward(p.parent) && |rel| == |o| == |d| && Ids(o, p.order) && 1 <= k < |p.order|
  {
    var c, v := p.order[k], p.order[p.parent[k]];
    o[c] == rel[c] + o[v] && d[c] == d[v] + 1
  }

  /** Absolute offsets and depths of the nodes before `upto`; the others are still relative. */
  ghost predicate ShiftedUpTo(p: Plan, rel: seq<int>, o: seq<int>, d: seq<int>, upto: nat) {
    && |p.parent| == |p.order| && Upward(p.parent) && |rel| == |o| == |d| && Ids(o, p.order)
    && (forall k :: 1 <= k < upto && k < |p.order| ==> ShiftedAt(p, rel, o, d, k))
    && (forall k :: upto <= k < |p.order| ==> o[p.order[k]] == rel[p.order[k]])
  }

  lemma {:induction false} ParentOfBlock(children: Graph, root: nat, p: Plan, i: nat, k: nat)
    requires BreadthFirst(children, root, p) && i < |p.order| && 1 <= k < |p.order| && p.first[i] <= k < p.first[i + 1]
    ensures p.parent[k] == i
  {
    assert InBlock(p.first, p.parent, k);
    if p.parent[k] < i { BlocksApart(children, root, p, p.parent[k], i); }
    if i < p.parent[k] { BlocksApart(children, root, p, i, p.parent[k]); }
  }

  lemma {:induction false} ShiftOne(children: Graph, root: nat, p: Plan, rel: seq<int>, o: seq<int>, d: seq<int>, i: nat, k: nat)
    requires BreadthFirst(children, root, p) && i < |p.order| && 1 <= k < |p.order| && p.first[i] <= k < p.first[i + 1]
    requires ShiftedUpTo(p, rel, o, d, k) && i < k
    ensures var c, v := p.order[k], p.order[i];
            ShiftedUpTo(p, rel, o[c := o[c] + o[v]], d[c := d[v] + 1], k + 1)
  {
    ParentOfBlock(children, root, p, i, k);
    var c, v := p.order[k], p.order[i];
    var o', d' := o[c := o[c] + o[v]], d[c := d[v] + 1];
    forall l | 1 <= l < k + 1 ensures ShiftedAt(p, rel, o', d', l) {
      assert p.parent[l] < l;
      assert l < k ==> ShiftedAt(p, rel, o, d, l);
    }
  }

  /** One child: its depth and its absolute offset. */
  method ShiftChild(children: Graph, root: nat, ghost p: Plan, ghost rel: seq<int>, v: nat, c: nat, ghost i: nat, ghost k: nat,
                    offset: array<int>, depth: array<int>)
    requires BreadthFirst(children, root, p) && |children| == offset.Length == depth.Length && offset != depth
    requires i < k < |p.order| && p.first[i] <= k < p.first[i + 1] && v == p.order[i] && c == p.order[k] && c != root
    requires ShiftedUpTo(p, rel, offset[..], depth[..], k)
    modifies offset, depth
    ensures ShiftedUpTo(p, rel, offset[..], depth[..], k + 1)
    ensures offset[root] == old(offset[root]) && depth[root] == old(depth[root])
  {
    ghost var o, d := offset[..], depth[..];
    depth[c] := depth[v] + 1;
    offset[c] := offset[c] + offset[v];
    ShiftOne(children, root, p, rel, o, d, i, k);
    assert offset[..] == o[c := o[c] + o[v]] && depth[..] == d[c := d[v] + 1];
  }

  method ShiftChildren(children: Graph, root: nat, ghost p: Plan, ghost rel: seq<int>, v: nat, ghost i: nat,
                       offset: array<int>, depth: array<int>)
    requires BreadthFirst(children, root, p) && |children| == offset.Length == depth.Length && offset != depth
    requires i < |p.order| && v == p.order[i] && ShiftedUpTo(p, rel, offset[..], depth[..], p.first[i])
    modifies offset, depth
    ensures ShiftedUpTo(p, rel, offset[..], depth[..], p.first[i + 1])
    ensures offset[root] == old(offset[root]) && depth[root] == old(depth[root])
  {
    ChildrenFacts(children, root, p, i);
    assert Block(children, p.order, p.first, i);
    for j := 0 to |children[v]|
      invariant ShiftedUpTo(p, rel, offset[..], depth[..], p.first[i] + j)
      invariant offset[root] == old(offset[root]) && depth[root] == old(depth[root])
    {
      var c := children[v][j];
      assert c in children[v] && c == p.order[p.first[i]..p.first[i + 1]][j] == p.order[p.first[i] + j];
      ShiftChild(children, root, p, rel, v, c, i, p.first[i] + j, offset, depth);
    }
  }

  /** The second pass: absolute offsets and depths, parents before children. */
  method ShiftAll(children: Graph, root: nat, order: seq<nat>, ghost p: Plan, offset: array<int>, depth: array<int>)
    requires BreadthFirst(children, root, p) && Upward(p.parent) && p.order == order
    requires |children| == offset.Length == depth.Length && offset != depth
    modifies offset, depth
    ensures ShiftedUpTo(p, old(offset[..]), offset[..], depth[..], |order|)
    ensures offset[root] == old(offset[root]) && depth[root] == old(depth[root])
  {
    ghost var rel := offset[..];
    for i := 0 to |order|
      invariant ShiftedUpTo(p, rel, offset[..], depth[..], p.first[i])
      invariant offset[root] == old(offset[root]) && depth[root] == old(depth[root])
    {
      ShiftChildren(children, root, p, rel, order[i], i, offset, depth);
    }
  }

  // ----- the finished layout -----

  ghost predicate Inside(w: seq<int>, o: seq<int>, c: nat, v: nat)
    requires |w| == |o| && c < |w| && v < |w|
  {
    o[v] <= o[c] && o[c] + w[c] <= o[v] + w[v]
  }

  lemma {:induction false} ChildInside(p: Plan, self: seq<nat>, w: seq<int>, rel: seq<int>, o: seq<int>, d: seq<int>, k: nat)
    requires MeasuredFrom(p, self, w, rel, 0) && ShiftedUpTo(p, rel, o, d, |p.order|) && 1 <= k < |p.order| && InBlock(p.first, p.parent, k)
    ensures Inside(w, o, p.order[k], p.order[p.parent[k]]) && w[p.order[k]] >= 0
  {
    assert Packed(p, w, rel, p.parent[k]) && ShiftedAt(p, rel, o, d, k);
  }

  lemma {:induction false} DepthPositive(p: Plan, rel: seq<int>, o: seq<int>, d: seq<int>, k: nat)
    requires ShiftedUpTo(p, rel, o, d, |p.order|) && k < |p.order| && d[p.order[0]] == 0
    ensures d[p.order[k]] >= (if k == 0 then 0 else 1)
    decreases k
  {
    if k > 0 {
      assert ShiftedAt(p, rel, o, d, k);
      DepthPositive(p, rel, o, d, p.parent[k]);
    }
  }

  /** Nodes of equal depth never overlap, wherever in the tree they are. */
  lemma {:induction false} EqualDepthApart(p: Plan, self: seq<nat>, w: seq<int>, rel: seq<int>, o: seq<int>, d: seq<int>, k: nat, l: nat)
    requires MeasuredFrom(p, self, w, rel, 0) && ShiftedUpTo(p, rel, o, d, |p.order|) && Distinct(p.order)
    requires forall j :: 1 <= j < |p.order| ==> InBlock(p.first, p.parent, j)
    requires k < l < |p.order| && d[p.order[0]] == 0 && d[p.order[k]] == d[p.order[l]]
    ensures Apart(w, o, p.order[k], p.order[l])
    decreases k + l
  {
    DepthPositive(p, rel, o, d, k);
    DepthPositive(p, rel, o, d, l);
    assert k > 0 && InBlock(p.first, p.parent, k) && InBlock(p.first, p.parent, l);
    assert ShiftedAt(p, rel, o, d, k) && ShiftedAt(p, rel, o, d, l);
    var u, v := p.parent[k], p.parent[l];
    if u == v {
      assert Packed(p, w, rel, u);
      assert Apart(w, rel, p.order[k], p.order[l]);
    } else {
      EqualDepthApart(p, self, w, rel, o, d, if u < v then u else v, if u < v then v else u);
      ChildInside(p, self, w, rel, o, d, k);
      ChildInside(p, self, w, rel, o, d, l);
    }
  }

  /** The k-th node lies inside its parent, one level deeper. */
  ghost predicate Fits(p: Plan, w: seq<int>, o: seq<int>, d: seq<int>, k: nat)
    requires |p.parent| == |p.order| && Upward(p.parent) && |w| == |o| == |d| && Ids(w, p.order) && 1 <= k < |p.order|
  {
    var c, v := p.order[k], p.order[p.parent[k]];
    Inside(w, o, c, v) && d[c] == d[v] + 1
  }

  /** The k-th node begins, inside its parent, behind its wider siblings and those as wide before it. */
  ghost predicate Starts(p: Plan, w: seq<int>, o: seq<int>, k: nat)
    requires |p.first| == |p.order| + 1 && |p.parent| == |p.order| && Upward(p.parent) && |w| == |o| && Ids(w, p.order)
    requires 1 <= k < |p.order|
  {
    var i := p.parent[k];
    p.first[i] <= k < p.first[i + 1] <= |p.order| &&
    o[p.order[k]] == o[p.order[i]] + Ahead(w, p.order[p.first[i]..p.first[i + 1]], k - p.first[i])
  }

  lemma {:induction false} PackedAhead(p: Plan, w: seq<int>, rel: seq<int>, i: nat, k: nat)
    requires |p.first| == |p.order| + 1 && i < |p.order| && |w| == |rel| && Ids(w, p.order) && Packed(p, w, rel, i)
    requires p.first[i] <= k < p.first[i + 1]
    ensures rel[p.order[k]] == Ahead(w, p.order[p.first[i]..p.first[i + 1]], k - p.first[i])
  {
    var block := p.order[p.first[i]..p.first[i + 1]];
    assert block[k - p.first[i]] == p.order[k];
  }

  lemma {:induction false} ChildStarts(p: Plan, self: seq<nat>, w: seq<int>, rel: seq<int>, o: seq<int>, d: seq<int>, k: nat)
    requires MeasuredFrom(p, self, w, rel, 0) && ShiftedUpTo(p, rel, o, d, |p.order|) && 1 <= k < |p.order| && InBlock(p.first, p.parent, k)
    ensures Starts(p, w, o, k)
  {
    var i := p.parent[k];
    assert rel[p.order[k]] == Ahead(w, p.order[p.first[i]..p.first[i + 1]], k - p.first[i]) by {
      assert Packed(p, w, rel, i);
      PackedAhead(p, w, rel, i, k);
    }
    assert ShiftedAt(p, rel, o, d, k);
  }

  /** Widths are sums of self widths, siblings are placed widest first from their parent's offset, children lie inside their parents one level deeper, and no two
      nodes of equal depth overlap. */
  ghost predicate LaidOut(p: Plan, root: nat, self: seq<nat>, w: seq<int>, o: seq<int>, d: seq<int>) {
    && Sized(p, self, w, o) && |d| == |w| && root < |w| && o[root] == 0 && d[root] == 0
    && (forall i :: 0 <= i < |p.order| ==> w[p.order[i]] == SumBelow(p.parent, self, i, |p.order|))
    && (forall k :: 1 <= k < |p.order| ==> Fits(p, w, o, d, k) && Starts(p, w, o, k))
    && (forall k, l :: 0 <= k < l < |p.order| && d[p.order[k]] == d[p.order[l]] ==> Apart(w, o, p.order[k], p.order[l]))
  }

  lemma {:induction false} Finished(children: Graph, root: nat, p: Plan, self: seq<nat>,
                                    w: seq<int>, rel: seq<int>, o: seq<int>, d: seq<int>)
    requires BreadthFirst(children, root, p) && MeasuredFrom(p, self, w, rel, 0) && ShiftedUpTo(p, rel, o, d, |p.order|)
    requires o[root] == 0 && d[root] == 0
    ensures LaidOut(p, root, self, w, o, d)
  {
    forall k | 1 <= k < |p.order| ensures Fits(p, w, o, d, k) && Starts(p, w, o, k) {
      assert InBlock(p.first, p.parent, k) && ShiftedAt(p, rel, o, d, k);
      ChildInside(p, self, w, rel, o, d, k);
      ChildStarts(p, self, w, rel, o, d, k);
    }
    forall k, l | 0 <= k < l < |p.order| && d[p.order[k]] == d[p.order[l]] ensures Apart(w, o, p.order[k], p.order[l]) {
      EqualDepthApart(p, self, w, rel, o, d, k, l);
    }
  }

  /** `layout`, with all nodes fresh: fields start at zero. */
  method LayoutTree(children: Graph, root: nat, own: seq<nat>)
    returns (width: seq<int>, offset: seq<int>, depth: seq<int>)
    requires IsTree(children, root) && |own| == |children|
    ensures exists p :: BreadthFirst(children, root, p) && LaidOut(p, root, Pick(own, p.order), width, offset, depth)
  {
    var n := |children|;
    var widths, offsets, depths := new int[n](_ => 0), new int[n](_ => 0), new int[n](_ => 0);
    var order, p := Subtree(children, root);
    IsUpward(children, root, p);
    MeasureAll(children, root, own, order, p, widths, offsets);
    ghost var rel := offsets[..];
    ShiftAll(children, root, order, p, offsets, depths);
    width, offset, depth := widths[..], offsets[..], depths[..];
    Finished(children, root, p, Pick(own, order), width, rel, offset, depth);
  }
}
