/** Splitting the tree of a heap analysis by memory category: one copy of the tree per category, each
    with the objects of that category alone. */
module HeapCategories {
  import opened Wrappers
  import opened MapSums

  datatype Object = Object(cat: nat, size: int)

  /** A node with the objects charged to it; siblings have different names. */
  datatype Node = Node(name: string, objects: seq<Object>, categories: set<nat>, children: seq<Node>)

  /** A node of a split tree, with its objects counted. */
  datatype Tree = Tree(name: string, size: int, count: nat, children: seq<Tree>)

  const CATEGORIES: nat := 256

  // ----- lists of objects -----

  function Objects(n: Node): seq<Object> {
    n.objects + ObjectsOfAll(n.children)
  }

  function ObjectsOfAll(ns: seq<Node>): seq<Object> {
    if ns == [] then [] else ObjectsOfAll(ns[..|ns| - 1]) + Objects(ns[|ns| - 1])
  }

  predicate Occurs(objects: seq<Object>, c: nat) {
    exists i :: 0 <= i < |objects| && objects[i].cat == c
  }

  function Size(objects: seq<Object>): int {
    if objects == [] then 0 else Size(objects[..|objects| - 1]) + objects[|objects| - 1].size
  }

  function SizeIn(objects: seq<Object>, c: nat): int {
    if objects == [] then 0
    else
      var last := objects[|objects| - 1];
      SizeIn(objects[..|objects| - 1], c) + if last.cat == c then last.size else 0
  }

  function CountIn(objects: seq<Object>, c: nat): nat {
    if objects == [] then 0
    else CountIn(objects[..|objects| - 1], c) + if objects[|objects| - 1].cat == c then 1 else 0
  }

  /** The sizes of all objects of the categories below `n`. */
  function SizeBelow(objects: seq<Object>, n: nat): int {
    if n == 0 then 0 else SizeBelow(objects, n - 1) + SizeIn(objects, n - 1)
  }

  ghost predicate Positive(objects: seq<Object>) {
    forall i :: 0 <= i < |objects| ==> objects[i].size > 0
  }

  ghost predicate InRange(objects: seq<Object>, n: nat) {
    forall i :: 0 <= i < |objects| ==> objects[i].cat < n
  }

  lemma {:induction false} OccursConcat(a: seq<Object>, b: seq<Object>, c: nat)
    ensures Occurs(a + b, c) <==> Occurs(a, c) || Occurs(b, c)
  {
    if Occurs(a, c) {
      var i :| 0 <= i < |a| && a[i].cat == c;
      assert (a + b)[i] == a[i];
    }
    if Occurs(b, c) {
      var i :| 0 <= i < |b| && b[i].cat == c;
      assert (a + b)[|a| + i] == b[i];
    }
  }

  lemma {:induction false} SizeInConcat(a: seq<Object>, b: seq<Object>, c: nat)
    ensures SizeIn(a + b, c) == SizeIn(a, c) + SizeIn(b, c)
  {
    if b == [] {
      assert a + b == a;
    } else {
      SizeInConcat(a, b[..|b| - 1], c);
      assert (a + b)[..|a + b| - 1] == a + b[..|b| - 1];
    }
  }

  lemma {:induction false} CountOccurs(objects: seq<Object>, c: nat)
    ensures CountIn(objects, c) != 0 <==> Occurs(objects, c)
  {
    if objects != [] {
      var front, last := objects[..|objects| - 1], objects[|objects| - 1];
      CountOccurs(front, c);
      OccursConcat(front, [last], c);
      assert objects == front + [last] && (Occurs([last], c) <==> [last][0].cat == c);
    }
  }

  /** Categories that occur weigh something, the others nothing. */
  lemma {:induction false} SizeOccurs(objects: seq<Object>, c: nat)
    requires Positive(objects)
    ensures if Occurs(objects, c) then SizeIn(objects, c) > 0 else SizeIn(objects, c) == 0
  {
    if objects != [] {
      var front, last := objects[..|objects| - 1], objects[|objects| - 1];
      SizeOccurs(front, c);
      OccursConcat(front, [last], c);
      assert objects == front + [last] && (Occurs([last], c) <==> [last][0].cat == c);
    }
  }

  lemma {:induction false} SizeBelowStep(objects: seq<Object>, n: nat)
    requires objects != []
    ensures var front, last := objects[..|objects| - 1], objects[|objects| - 1];
            SizeBelow(objects, n) == SizeBelow(front, n) + if last.cat < n then last.size else 0
  {
    if n > 0 {
      SizeBelowStep(objects, n - 1);
    }
  }

  lemma {:induction false} NothingBelow(n: nat)
    ensures SizeBelow([], n) == 0
  {
    if n > 0 {
      NothingBelow(n - 1);
    }
  }

  /** The categories below a bound hold everything exactly when no object is of a higher one. */
  lemma {:induction false} CategoriesPartition(objects: seq<Object>, n: nat)
    requires Positive(objects)
    ensures SizeBelow(objects, n) <= Size(objects)
    ensures SizeBelow(objects, n) == Size(objects) <==> InRange(objects, n)
  {
    if objects == [] {
      NothingBelow(n);
    } else {
      var front, last := objects[..|objects| - 1], objects[|objects| - 1];
      CategoriesPartition(front, n);
      SizeBelowStep(objects, n);
      assert InRange(objects, n) <==> InRange(front, n) && last.cat < n by {
        assert forall i :: 0 <= i < |front| ==> front[i] == objects[i];
      }
    }
  }

  // ----- marking -----

  function Recategorise(o: Object, start: nat): Object {
    if o.cat < start then o.(cat := 0) else o
  }

  function RecategoriseAll(objects: seq<Object>, start: nat): seq<Object> {
    seq(|objects|, i requires 0 <= i < |objects| => Recategorise(objects[i], start))
  }

  ghost predicate Unmarked(n: Node) {
    n.categories == {} && forall i :: 0 <= i < |n.children| ==> Unmarked(n.children[i])
  }

  /** Every node lists exactly the categories of the objects at it and below it. */
  ghost predicate Marked(n: Node) {
    && (forall c :: c in n.categories <==> Occurs(Objects(n), c))
    && forall i :: 0 <= i < |n.children| ==> Marked(n.children[i])
  }

  /** The same tree, with the categories below `start` merged into category 0. */
  ghost predicate Relabelled(n: Node, r: Node, start: nat) {
    && r.name == n.name && r.objects == RecategoriseAll(n.objects, start)
    && |r.children| == |n.children| && forall i :: 0 <= i < |n.children| ==> Relabelled(n.children[i], r.children[i], start)
  }

  lemma {:induction false} RelabelledObjects(n: Node, r: Node, start: nat)
    requires Relabelled(n, r, start)
    ensures Objects(r) == RecategoriseAll(Objects(n), start)
    decreases n, |n.children| + 1
  {
    RelabelledPrefix(n, r, start, |n.children|);
    assert n.children[..|n.children|] == n.children && r.children[..|r.children|] == r.children;
  }

  lemma {:induction false} RelabelledPrefix(n: Node, r: Node, start: nat, i: nat)
    requires Relabelled(n, r, start) && i <= |n.children|
    ensures ObjectsOfAll(r.children[..i]) == RecategoriseAll(ObjectsOfAll(n.children[..i]), start)
    decreases n, i
  {
    if i > 0 {
      RelabelledPrefix(n, r, start, i - 1);
      RelabelledObjects(n.children[i - 1], r.children[i - 1], start);
      assert n.children[..i][..i - 1] == n.children[..i - 1] && r.children[..i][..i - 1] == r.children[..i - 1];
    }
  }

  /** Merging categories changes no sizes. */
  lemma {:induction false} SameSize(objects: seq<Object>, start: nat)
    ensures Size(RecategoriseAll(objects, start)) == Size(objects)
    ensures Positive(RecategoriseAll(objects, start)) <==> Positive(objects)
  {
    var changed := RecategoriseAll(objects, start);
    if objects != [] {
      var front := objects[..|objects| - 1];
      SameSize(front, start);
      assert changed[..|changed| - 1] == RecategoriseAll(front, start);
    }
    assert forall i :: 0 <= i < |objects| ==> changed[i].size == objects[i].size;
  }

  /** What merging does to the sizes: category 0 gets those of all categories below `start`, these
      are left with nothing, and the others keep theirs. */
  lemma {:induction false} MergedSizes(objects: seq<Object>, start: nat, c: nat)
    ensures SizeIn(RecategoriseAll(objects, start), c) ==
            if c >= start then SizeIn(objects, c) else if c == 0 then SizeBelow(objects, start) else 0
  {
    if objects == [] {
      NothingBelow(start);
    } else {
      var front, changed := objects[..|objects| - 1], RecategoriseAll(objects, start);
      MergedSizes(front, start, c);
      assert changed[..|changed| - 1] == RecategoriseAll(front, start);
      SizeBelowStep(objects, start);
    }
  }

  lemma {:induction false} OneMoreChild(ns: seq<Node>, i: nat)
    requires i < |ns|
    ensures ObjectsOfAll(ns[..i + 1]) == ObjectsOfAll(ns[..i]) + Objects(ns[i])
  {
    assert ns[..i + 1][..i] == ns[..i];
  }

  /** The first loop of `annotateContainedCategories`: the objects of the node itself. */
  method AnnotateObjects(own: seq<Object>, start: nat) returns (objects: seq<Object>, categories: set<nat>)
    ensures objects == RecategoriseAll(own, start)
    ensures forall c :: c in categories <==> Occurs(objects, c)
  {
    objects, categories := [], {};
    for i := 0 to |own|
      invariant objects == RecategoriseAll(own[..i], start)
      invariant forall c :: c in categories <==> Occurs(objects, c)
    {
      var o := if own[i].cat < start then own[i].(cat := 0) else own[i];
      forall c ensures Occurs(objects + [o], c) <==> Occurs(objects, c) || o.cat == c {
        OccursConcat(objects, [o], c);
        assert Occurs([o], c) <==> [o][0].cat == c;
      }
      objects := objects + [o];
      categories := categories + {o.cat};
      assert objects == RecategoriseAll(own[..i + 1], start);
    }
    assert own[..|own|] == own;
  }

  lemma {:induction false} AnotherChild(objects: seq<Object>, children: seq<Node>, child: Node)
    ensures forall c :: Occurs(objects + ObjectsOfAll(children + [child]), c) <==>
                          Occurs(objects + ObjectsOfAll(children), c) || Occurs(Objects(child), c)
  {
    var more := children + [child];
    OneMoreChild(more, |children|);
    assert more[..|children|] == children && more[..|children| + 1] == more;
    var before, after := objects + ObjectsOfAll(children), objects + ObjectsOfAll(more);
    assert after == before + Objects(child);
    forall c ensures Occurs(after, c) <==> Occurs(before, c) || Occurs(Objects(child), c) {
      OccursConcat(before, Objects(child), c);
    }
  }

  /** `annotateContainedCategories`. */
  method Annotate(n: Node, start: nat) returns (r: Node)
    requires Unmarked(n)
    ensures Marked(r) && Relabelled(n, r, start)
    decreases n
  {
    var objects, categories := AnnotateObjects(n.objects, start);
    var children: seq<Node> := [];
    assert objects + ObjectsOfAll(children) == objects;
    for i := 0 to |n.children|
      invariant |children| == i && forall k :: 0 <= k < i ==> Marked(children[k]) && Relabelled(n.children[k], children[k], start)
      invariant forall c :: c in categories <==> Occurs(objects + ObjectsOfAll(children), c)
    {
      var child := Annotate(n.children[i], start);
      AnotherChild(objects, children, child);
      children := children + [child];
      categories := categories + child.categories;
    }
    r := Node(n.name, objects, categories, children);
  }

  // ----- filtering -----

  function Total(t: Tree): int {
    t.size + TotalOfAll(t.children)
  }

  function TotalOfAll(ts: seq<Tree>): int {
    if ts == [] then 0 else TotalOfAll(ts[..|ts| - 1]) + Total(ts[|ts| - 1])
  }

  /** The tree of one category: node by node its objects and no others, without empty branches. */
  ghost predicate Kept(n: Node, t: Tree, c: nat)
    decreases n
  {
    && t.size == SizeIn(n.objects, c) && t.count == CountIn(n.objects, c)
    && KeptAll(n.children, t.children, c)
  }

  ghost predicate KeptAll(ns: seq<Node>, ts: seq<Tree>, c: nat)
    decreases ns
  {
    if ns == [] then ts == []
    else
      var front, last := ns[..|ns| - 1], ns[|ns| - 1];
      if Occurs(Objects(last), c) then
        && ts != [] && ts[|ts| - 1].name == last.name && Kept(last, ts[|ts| - 1], c)
        && KeptAll(front, ts[..|ts| - 1], c)
      else KeptAll(front, ts, c)
  }

  /** No object of the category is lost or counted twice. */
  lemma {:induction false} KeptTotal(n: Node, t: Tree, c: nat)
    requires Kept(n, t, c)
    ensures Total(t) == SizeIn(Objects(n), c)
    decreases n
  {
    KeptAllTotal(n.children, t.children, c);
    SizeInConcat(n.objects, ObjectsOfAll(n.children), c);
  }

  lemma {:induction false} KeptAllTotal(ns: seq<Node>, ts: seq<Tree>, c: nat)
    requires KeptAll(ns, ts, c)
    ensures TotalOfAll(ts) == SizeIn(ObjectsOfAll(ns), c)
    decreases ns
  {
    if ns != [] {
      var front, last := ns[..|ns| - 1], ns[|ns| - 1];
      SizeInConcat(ObjectsOfAll(front), Objects(last), c);
      if Occurs(Objects(last), c) {
        KeptTotal(last, ts[|ts| - 1], c);
        KeptAllTotal(front, ts[..|ts| - 1], c);
      } else {
        KeptAllTotal(front, ts, c);
        Absent(Objects(last), c);
      }
    }
  }

  lemma {:induction false} Absent(objects: seq<Object>, c: nat)
    requires !Occurs(objects, c)
    ensures SizeIn(objects, c) == 0
  {
    if objects != [] {
      var front := objects[..|objects| - 1];
      assert objects[|objects| - 1].cat != c;
      assert forall i :: 0 <= i < |front| ==> front[i] == objects[i];
      Absent(front, c);
    }
  }

  /** The recount of the objects of one node. */
  method Recount(objects: seq<Object>, c: nat) returns (count: nat, size: int)
    ensures count == CountIn(objects, c) && size == SizeIn(objects, c)
  {
    count, size := 0, 0;
    for i := 0 to |objects|
      invariant count == CountIn(objects[..i], c) && size == SizeIn(objects[..i], c)
    {
      assert objects[..i + 1][..i] == objects[..i];
      if objects[i].cat == c {
        count := count + 1;
        size := size + objects[i].size;
      }
    }
    assert objects[..|objects|] == objects;
  }

  /** `filteredTreeForCategory`: there is a tree exactly when the category occurs. */
  method FilteredTree(n: Node, c: nat) returns (r: Option<Tree>)
    requires Marked(n)
    ensures r.Some? <==> Occurs(Objects(n), c)
    ensures r.Some? ==> r.value.name == n.name && Kept(n, r.value, c)
    decreases n
  {
    var children: seq<Tree> := [];
    for i := 0 to |n.children|
      invariant KeptAll(n.children[..i], children, c)
      invariant children != [] <==> Occurs(ObjectsOfAll(n.children[..i]), c)
    {
      var child := n.children[i];
      OneMoreChild(n.children, i);
      OccursConcat(ObjectsOfAll(n.children[..i]), Objects(child), c);
      assert n.children[..i + 1][..i] == n.children[..i];
      if c in child.categories {
        var filtered := FilteredTree(child, c);
        if filtered.Some? {
          ghost var before := children;
          children := children + [filtered.value];
          assert children[..|children| - 1] == before;
        }
      }
    }
    assert n.children[..|n.children|] == n.children;
    OccursConcat(n.objects, ObjectsOfAll(n.children), c);
    CountOccurs(n.objects, c);
    var count, size := Recount(n.objects, c);
    if |children| != 0 || count != 0 {
      return Some(Tree(n.name, size, count, children));
    }
    return None;
  }

  // ----- splitting -----

  /** The categories below `n` that have objects. */
  ghost predicate Present(objects: seq<Object>, n: nat, c: nat) {
    c < n && Occurs(objects, c)
  }

  ghost predicate AllNamed(objects: seq<Object>, n: nat, names: map<nat, string>) {
    forall c :: Present(objects, n, c) ==> c in names
  }

  /** No two categories with objects have the same name. */
  ghost predicate NamesApart(objects: seq<Object>, n: nat, names: map<nat, string>)
    requires AllNamed(objects, n, names)
  {
    forall c, d :: Present(objects, n, c) && Present(objects, n, d) && names[c] == names[d] ==> c == d
  }

  /** The tree under a name is that of the last category of this name. */
  ghost predicate TreeFor(root: Node, n: nat, names: map<nat, string>, name: string, t: Tree)
    requires AllNamed(Objects(root), n, names)
  {
    t.name == name && exists c ::
      && Present(Objects(root), n, c) && names[c] == name && Kept(root, t, c)
      && forall d :: Present(Objects(root), n, d) && names[d] == name ==> d <= c
  }

  ghost predicate SplitSoFar(root: Node, n: nat, names: map<nat, string>, result: map<string, Tree>) {
    && AllNamed(Objects(root), n, names)
    && (forall c :: Present(Objects(root), n, c) ==> names[c] in result)
    && (forall name :: name in result ==> TreeFor(root, n, names, name, result[name]))
  }

  ghost function Totals(result: map<string, Tree>): map<string, int> {
    map name | name in result :: Total(result[name])
  }

  /** What has been overwritten so far is missing, and only that. */
  ghost predicate Accounted(objects: seq<Object>, n: nat, names: map<nat, string>, result: map<string, Tree>, lost: int) {
    && AllNamed(objects, n, names)
    && Sum(Totals(result)) + lost == SizeBelow(objects, n)
    && (Positive(objects) ==> lost >= 0 && (lost == 0 <==> NamesApart(objects, n, names)))
  }

  lemma {:induction false} PresentStep(objects: seq<Object>, n: nat, c: nat)
    ensures Present(objects, n + 1, c) <==> Present(objects, n, c) || (c == n && Occurs(objects, n))
  {
  }

  /** A category without objects adds nothing. */
  lemma {:induction false} SkipCategory(root: Node, n: nat, names: map<nat, string>, result: map<string, Tree>, lost: int)
    requires SplitSoFar(root, n, names, result) && Accounted(Objects(root), n, names, result, lost) && !Occurs(Objects(root), n)
    ensures SplitSoFar(root, n + 1, names, result) && Accounted(Objects(root), n + 1, names, result, lost)
  {
    var objects := Objects(root);
    Absent(objects, n);
    forall c ensures Present(objects, n + 1, c) <==> Present(objects, n, c) {
      PresentStep(objects, n, c);
    }
    forall name | name in result ensures TreeFor(root, n + 1, names, name, result[name]) {
      assert TreeFor(root, n, names, name, result[name]);
    }
  }

  /** A category with objects adds a tree, or replaces an earlier one of the same name. */
  lemma {:induction false} AddCategory(root: Node, n: nat, names: map<nat, string>, result: map<string, Tree>, t: Tree)
    requires SplitSoFar(root, n, names, result) && Occurs(Objects(root), n) && n in names
    requires t.name == names[n] && Kept(root, t, n)
    ensures SplitSoFar(root, n + 1, names, result[names[n] := t])
  {
    var objects, result' := Objects(root), result[names[n] := t];
    forall c ensures Present(objects, n + 1, c) <==> Present(objects, n, c) || c == n {
      PresentStep(objects, n, c);
    }
    assert Present(objects, n + 1, n);
    forall name | name in result' ensures TreeFor(root, n + 1, names, name, result'[name]) {
      if name != names[n] {
        assert TreeFor(root, n, names, name, result[name]);
      }
    }
  }

  /** The trees under different names are never empty, so replacing one loses something. */
  lemma {:induction false} AddAccounted(root: Node, n: nat, names: map<nat, string>, result: map<string, Tree>, t: Tree, lost: int) returns (lost': int)
    requires SplitSoFar(root, n, names, result) && Accounted(Objects(root), n, names, result, lost)
    requires Occurs(Objects(root), n) && n in names && Kept(root, t, n)
    ensures Accounted(Objects(root), n + 1, names, result[names[n] := t], lost')
  {
    var objects, name := Objects(root), names[n];
    forall c ensures Present(objects, n + 1, c) <==> Present(objects, n, c) || c == n {
      PresentStep(objects, n, c);
    }
    KeptTotal(root, t, n);
    Update(Totals(result), name, Total(t));
    assert Totals(result[name := t]) == Totals(result)[name := Total(t)];
    lost' := lost + if name in result then Total(result[name]) else 0;
    if Positive(objects) {
      if name in result {
        assert TreeFor(root, n, names, name, result[name]);
        var c :| Present(objects, n, c) && names[c] == name && Kept(root, result[name], c);
        KeptTotal(root, result[name], c);
        SizeOccurs(objects, c);
        assert Present(objects, n + 1, c) && Present(objects, n + 1, n);
      } else {
        assert forall c :: Present(objects, n, c) ==> names[c] != name;
        assert NamesApart(objects, n, names) <==> NamesApart(objects, n + 1, names);
      }
    }
  }

  /** `splitIntoCategories`; `None` when a category with objects has no name. */
  method Split(root: Node, names: map<nat, string>) returns (result: Option<map<string, Tree>>)
    requires Marked(root)
    ensures result.Some? <==> AllNamed(Objects(root), CATEGORIES, names)
    ensures result.Some? ==> SplitSoFar(root, CATEGORIES, names, result.value)
    ensures result.Some? && Positive(Objects(root)) ==>
              (Sum(Totals(result.value)) == Size(Objects(root)) <==>
               InRange(Objects(root), CATEGORIES) && NamesApart(Objects(root), CATEGORIES, names))
  {
    var children: map<string, Tree> := map[];
    ghost var objects, lost := Objects(root), 0;
    for i := 0 to CATEGORIES
      invariant SplitSoFar(root, i, names, children) && Accounted(objects, i, names, children, lost)
    {
      var filtered := FilteredTree(root, i);
      if filtered.Some? {
        if i !in names {
          assert Present(objects, CATEGORIES, i);
          return None;
        }
        var t := filtered.value.(name := names[i]);
        AddCategory(root, i, names, children, t);
        lost := AddAccounted(root, i, names, children, t, lost);
        children := children[names[i] := t];
      } else {
        SkipCategory(root, i, names, children, lost);
      }
    }
    if Positive(objects) {
      CategoriesPartition(objects, CATEGORIES);
    }
    return Some(children);
  }

  /** Marking and splitting together: the sizes in the split tree add up to those of the whole tree
      exactly when every category is in range and no two that have objects share a name. */
  method SplitTree(root: Node, start: nat, names: map<nat, string>) returns (marked: Node, result: Option<map<string, Tree>>)
    requires Unmarked(root)
    ensures Marked(marked) && Relabelled(root, marked, start)
    ensures result.Some? <==> AllNamed(Objects(marked), CATEGORIES, names)
    ensures result.Some? ==> SplitSoFar(marked, CATEGORIES, names, result.value)
    ensures result.Some? && Positive(Objects(root)) ==>
              (Sum(Totals(result.value)) == Size(Objects(root)) <==>
               InRange(Objects(marked), CATEGORIES) && NamesApart(Objects(marked), CATEGORIES, names))
  {
    marked := Annotate(root, start);
    result := Split(marked, names);
    RelabelledObjects(root, marked, start);
    SameSize(Objects(root), start);
  }

  /** Two categories of one name, with an object each. */
  const SHARED_OBJECTS := [Object(0, 1), Object(1, 1)]
  const SHARED := Node("", SHARED_OBJECTS, {0, 1}, [])
  const SHARED_NAME: map<nat, string> := map[0 := "default", 1 := "default"]

  /** Of the two, only the later is left after the split. */
  lemma {:induction false} SharedNameLosesSize(result: map<string, Tree>)
    requires SplitSoFar(SHARED, CATEGORIES, SHARED_NAME, result)
    ensures Size(Objects(SHARED)) == 2 && Sum(Totals(result)) == 1
  {
    var objects, name := Objects(SHARED), "default";
    assert objects == SHARED_OBJECTS;
    SharedSizes();
    assert forall c :: Present(objects, CATEGORIES, c) <==> c == 0 || c == 1 by {
      assert objects[0].cat == 0 && objects[1].cat == 1;
    }
    assert Present(objects, CATEGORIES, 1) && name in result;
    assert forall k :: k in result ==> TreeFor(SHARED, CATEGORIES, SHARED_NAME, k, result[k]) && k == name;
    var c :| Present(objects, CATEGORIES, c) && Kept(SHARED, result[name], c)
             && forall d :: Present(objects, CATEGORIES, d) && SHARED_NAME[d] == name ==> d <= c;
    KeptTotal(SHARED, result[name], 1);
    assert Totals(result) == map[name := 1];
    TakeOut(Totals(result), name);
    assert Totals(result) - {name} == map[];
  }

  lemma {:induction false} SharedSizes()
    ensures Size(SHARED_OBJECTS) == 2 && SizeIn(SHARED_OBJECTS, 1) == 1
  {
    var front := SHARED_OBJECTS[..1];
    assert front[..0] == [] && front == [Object(0, 1)];
  }
}
