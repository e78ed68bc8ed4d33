/** Property completion: which names are offered after `expr.`, by walking the graph of types from
    the type of `expr`. The graph may be cyclic, and the walk deliberately forgets part of what it
    has seen when it enters the later options of a union. */
module Autocomplete {
  import opened Wrappers

  type TypeId = nat

  /** The read type of each property; `None` for a property that can only be written. */
  type Props = map<string, Option<TypeId>>

  /** Types with aliases already followed. The options of a union are what its iterator yields, so
      none of them is a union; the indexer of a table lists its string singletons. */
  datatype Type =
    | Extern(props: Props, parent: Option<TypeId>)
    | Table(props: Props, singletons: seq<(string, TypeId)>)
    | Metatable(table: TypeId, metatable: TypeId)
    | Intersection(parts: seq<TypeId>)
    | Union(options: seq<TypeId>)
    | Primitive(isNil: bool, meta: Option<TypeId>)
    | StringSingleton
    | Function(firstResult: Option<TypeId>)
    | Error
    | Never
    | Other

  /** What the walk reads besides its arguments: the types, the built-in `string`, whether the access
      is written with a point, and the two feature flags it consults. */
  datatype World = World(types: map<TypeId, Type>, stringType: TypeId, point: bool, skipErrors: bool, inheritMetatables: bool)

  datatype Entry = Property(ty: TypeId, containing: Option<TypeId>) | StringKey(ty: TypeId)

  type Entries = map<string, Entry>

  const PARSE_NAME_ERROR: string := "%error-id%"

  // ----- the type graph -----

  function OptionSet(o: Option<TypeId>): set<TypeId> {
    if o.Some? then {o.value} else {}
  }

  function Refs(t: Type): set<TypeId> {
    match t
    case Extern(props, parent) => PropRefs(props) + OptionSet(parent)
    case Table(props, _) => PropRefs(props)
    case Metatable(table, metatable) => {table, metatable}
    case Intersection(parts) => set p | p in parts
    case Union(options) => set o | o in options
    case Primitive(_, meta) => OptionSet(meta)
    case Function(firstResult) => OptionSet(firstResult)
    case _ => {}
  }

  function PropRefs(props: Props): set<TypeId> {
    set n | n in props && props[n].Some? :: props[n].value
  }

  /** A finite graph in which every reference leads somewhere. */
  ghost predicate Closed(w: World) {
    w.stringType in w.types && forall i :: i in w.types ==> Refs(w.types[i]) <= w.types.Keys
  }

  predicate IsBranching(t: Type) {
    t.Union? || t.Intersection?
  }

  /** The unions and intersections among a set of types: what the walk remembers across options. */
  function Branching(w: World, seen: set<TypeId>): set<TypeId> {
    set i | i in seen && i in w.types && IsBranching(w.types[i])
  }

  ghost function Unseen(w: World, seen: set<TypeId>): set<TypeId> {
    w.types.Keys - seen
  }

  ghost function UnseenBranching(w: World, seen: set<TypeId>): set<TypeId> {
    Branching(w, w.types.Keys) - seen
  }

  predicate Skippable(w: World, ty: TypeId)
    requires ty in w.types
  {
    var t := w.types[ty];
    (t.Primitive? && t.isNil) || (w.skipErrors && (t.Error? || t.Never?))
  }

  // ----- filling in names -----

  predicate Readable(props: Props, name: string) {
    name in props && props[name].Some? && name != PARSE_NAME_ERROR
  }

  /** Names already filled in take precedence. */
  function FillProps(props: Props, result: Entries, containing: Option<TypeId>): Entries {
    (map n | n in props && Readable(props, n) :: Property(props[n].value, containing)) + result
  }

  function FillSingletons(singletons: seq<(string, TypeId)>, result: Entries): Entries {
    if singletons == [] then result
    else FillSingletons(singletons[1..], result[singletons[0].0 := StringKey(singletons[0].1)])
  }

  ghost predicate ClosedProps(w: World, props: Option<Props>) {
    props.Some? ==> PropRefs(props.value) <= w.types.Keys
  }

  /** The properties of the table behind a metatable, if there is one. */
  function MetatableProps(w: World, m: TypeId): (props: Option<Props>)
    requires Closed(w) && m in w.types
    ensures ClosedProps(w, props)
  {
    var t := w.types[m];
    assert Refs(t) <= w.types.Keys;
    if t.Table? then
      assert PropRefs(t.props) <= Refs(t);
      Some(t.props)
    else if w.inheritMetatables && t.Metatable? then
      assert t.table in Refs(t);
      var u := w.types[t.table];
      if u.Table? then
        assert PropRefs(u.props) <= Refs(u) <= w.types.Keys;
        Some(u.props)
      else None
    else None
  }

  /** The type that a metatable's `__index` sends the walk to. */
  function IndexTarget(w: World, props: Props): (target: Option<TypeId>)
    requires Closed(w) && ClosedProps(w, Some(props))
    ensures OptionSet(target) <= w.types.Keys
  {
    if "__index" !in props || props["__index"].None? then None
    else
      var followed := props["__index"].value;
      assert followed in PropRefs(props);
      var t := w.types[followed];
      if t.Table? || t.Metatable? then Some(followed)
      else if t.Function? then
        assert OptionSet(t.firstResult) == Refs(t) <= w.types.Keys;
        t.firstResult
      else None
  }

  // ----- the walk as a function -----

  /** The walk from `ty`. It never runs forever: going on with the types seen so far leaves fewer
      unseen types, and dropping all but the seen unions and intersections happens only below a
      union that is itself newly seen. */
  function Visit(w: World, ty: TypeId, result: Entries, seen: set<TypeId>, containing: Option<TypeId>): (r: (Entries, set<TypeId>))
    requires Closed(w) && ty in w.types
    ensures seen + {ty} <= r.1 && (seen <= w.types.Keys ==> r.1 <= w.types.Keys)
    decreases UnseenBranching(w, seen), Unseen(w, seen), 0, 0
  {
    if ty in seen then (result, seen)
    else
      var seen1 := seen + {ty};
      assert ty in Unseen(w, seen) && Unseen(w, seen1) < Unseen(w, seen);
      assert UnseenBranching(w, seen1) <= UnseenBranching(w, seen);
      var t := w.types[ty];
      assert Refs(t) <= w.types.Keys;
      match t
      case Extern(props, parent) =>
        var c := if containing.Some? then containing else Some(ty);
        var filled := FillProps(props, result, c);
        if parent.None? then (filled, seen1)
        else
          assert parent.value in Refs(t);
          Visit(w, parent.value, filled, seen1, c)
      case Table(props, singletons) =>
        var filled := FillProps(props, result, containing);
        (if w.point then FillSingletons(singletons, filled) else filled, seen1)
      case Metatable(table, metatable) =>
        assert table in Refs(t) && metatable in Refs(t);
        var r1 := Visit(w, table, result, seen1, None);
        assert Unseen(w, r1.1) <= Unseen(w, seen1) && UnseenBranching(w, r1.1) <= UnseenBranching(w, seen1);
        VisitIndex(w, MetatableProps(w, metatable), r1.0, r1.1)
      case Intersection(parts) =>
        (VisitParts(w, parts, result, seen1), seen1)
      case Union(options) =>
        assert ty in UnseenBranching(w, seen) && UnseenBranching(w, seen1) < UnseenBranching(w, seen);
        VisitUnion(w, options, result, seen1)
      case Primitive(_, meta) =>
        if meta.None? || !w.types[meta.value].Table? then (result, seen1)
        else
          var props := w.types[meta.value].props;
          assert PropRefs(props) <= Refs(w.types[meta.value]);
          VisitIndex(w, Some(props), result, seen1)
      case StringSingleton =>
        Visit(w, w.stringType, result, seen1, None)
      case _ => (result, seen1)
  }

  /** `fillMetatableProps`; nothing happens when there is no table behind the metatable. */
  function VisitIndex(w: World, props: Option<Props>, result: Entries, seen: set<TypeId>): (r: (Entries, set<TypeId>))
    requires Closed(w) && ClosedProps(w, props)
    ensures seen <= r.1 && (seen <= w.types.Keys ==> r.1 <= w.types.Keys)
    decreases UnseenBranching(w, seen), Unseen(w, seen), 1, 0
  {
    var target := if props.None? then None else IndexTarget(w, props.value);
    if target.None? then (result, seen)
    else
      assert target.value in OptionSet(target);
      Visit(w, target.value, result, seen, None)
  }

  /** The parts of an intersection: each walked on its own, all of its names added. */
  function VisitParts(w: World, parts: seq<TypeId>, result: Entries, seen: set<TypeId>): Entries
    requires Closed(w) && forall p :: p in parts ==> p in w.types
    decreases UnseenBranching(w, seen), Unseen(w, seen), 1, |parts|
  {
    if parts == [] then result
    else VisitParts(w, parts[1..], Visit(w, parts[0], map[], seen, None).0 + result, seen)
  }

  /** The options of a union: the first one that counts goes on with the map and the types seen. */
  function VisitUnion(w: World, options: seq<TypeId>, result: Entries, seen: set<TypeId>): (r: (Entries, set<TypeId>))
    requires Closed(w) && forall o :: o in options ==> o in w.types
    ensures seen <= r.1 && (seen <= w.types.Keys ==> r.1 <= w.types.Keys)
    decreases UnseenBranching(w, seen), w.types.Keys, 2, |options|
  {
    if options == [] then (result, seen)
    else if Skippable(w, options[0]) then VisitUnion(w, options[1..], result, seen)
    else
      assert Unseen(w, seen) <= w.types.Keys;
      var r := Visit(w, options[0], result, seen, None);
      assert UnseenBranching(w, r.1) <= UnseenBranching(w, seen);
      (VisitOptions(w, options[1..], r.0, r.1), r.1)
  }

  function Restrict(result: Entries, inner: Entries): Entries {
    map n | n in result && n in inner :: result[n]
  }

  /** The later options of a union: names not offered by every one of them are dropped. */
  function VisitOptions(w: World, options: seq<TypeId>, result: Entries, seen: set<TypeId>): Entries
    requires Closed(w) && forall o :: o in options ==> o in w.types
    decreases UnseenBranching(w, seen), w.types.Keys, 1, |options|
  {
    if options == [] then result
    else if Skippable(w, options[0]) then VisitOptions(w, options[1..], result, seen)
    else
      assert UnseenBranching(w, Branching(w, seen)) == UnseenBranching(w, seen);
      assert Unseen(w, Branching(w, seen)) <= w.types.Keys;
      var inner := Visit(w, options[0], map[], Branching(w, seen), None).0;
      VisitOptions(w, options[1..], Restrict(result, inner), seen)
  }

  // ----- the walk as it is coded -----

  /** `autocompleteProps`: both maps are updated in place, the loops run over parts and options. */
  method AutocompleteProps(w: World, ty: TypeId, result0: Entries, seen0: set<TypeId>, containing: Option<TypeId>)
    returns (result: Entries, seen: set<TypeId>)
    requires Closed(w) && ty in w.types
    ensures (result, seen) == Visit(w, ty, result0, seen0, containing)
    decreases UnseenBranching(w, seen0), Unseen(w, seen0), 0, 0
  {
    result, seen := result0, seen0;
    if ty in seen {
      return;
    }
    seen := seen + {ty};
    assert ty in Unseen(w, seen0) && Unseen(w, seen) < Unseen(w, seen0);
    assert UnseenBranching(w, seen) <= UnseenBranching(w, seen0);
    var t := w.types[ty];
    assert Refs(t) <= w.types.Keys;
    match t
    case Extern(props, parent) =>
      var c := if containing.Some? then containing else Some(ty);
      result := FillProps(props, result, c);
      if parent.Some? {
        assert parent.value in Refs(t);
        result, seen := AutocompleteProps(w, parent.value, result, seen, c);
      }
    case Table(props, singletons) =>
      result := FillProps(props, result, containing);
      if w.point {
        result := FillSingletons(singletons, result);
      }
    case Metatable(table, metatable) =>
      assert table in Refs(t) && metatable in Refs(t);
      ghost var seen1 := seen;
      result, seen := AutocompleteProps(w, table, result, seen, None);
      assert Unseen(w, seen) <= Unseen(w, seen1) && UnseenBranching(w, seen) <= UnseenBranching(w, seen1);
      result, seen := FillMetatableProps(w, MetatableProps(w, metatable), result, seen);
    case Intersection(parts) =>
      result := CompleteParts(w, parts, result, seen);
    case Union(options) =>
      assert ty in UnseenBranching(w, seen0) && UnseenBranching(w, seen) < UnseenBranching(w, seen0);
      result, seen := CompleteOptions(w, options, result, seen);
    case Primitive(_, meta) =>
      if meta.Some? && w.types[meta.value].Table? {
        assert PropRefs(w.types[meta.value].props) <= Refs(w.types[meta.value]);
        result, seen := FillMetatableProps(w, Some(w.types[meta.value].props), result, seen);
      }
    case StringSingleton =>
      result, seen := AutocompleteProps(w, w.stringType, result, seen, None);
    case _ =>
  }

  method FillMetatableProps(w: World, props: Option<Props>, result0: Entries, seen0: set<TypeId>)
    returns (result: Entries, seen: set<TypeId>)
    requires Closed(w) && ClosedProps(w, props)
    ensures (result, seen) == VisitIndex(w, props, result0, seen0)
    decreases UnseenBranching(w, seen0), Unseen(w, seen0), 1, 0
  {
    result, seen := result0, seen0;
    if props.Some? {
      var target := IndexTarget(w, props.value);
      if target.Some? {
        assert target.value in OptionSet(target);
        result, seen := AutocompleteProps(w, target.value, result, seen, None);
      }
    }
  }

  method CompleteParts(w: World, parts: seq<TypeId>, result0: Entries, seen: set<TypeId>) returns (result: Entries)
    requires Closed(w) && forall p :: p in parts ==> p in w.types
    ensures result == VisitParts(w, parts, result0, seen)
    decreases UnseenBranching(w, seen), Unseen(w, seen), 1, 0
  {
    result := result0;
    for i := 0 to |parts|
      invariant VisitParts(w, parts[i..], result, seen) == VisitParts(w, parts, result0, seen)
    {
      var inner, _ := AutocompleteProps(w, parts[i], map[], seen, None);
      assert parts[i..][0] == parts[i] && parts[i..][1..] == parts[i + 1..];
      result := inner + result;
    }
  }

  method CompleteOptions(w: World, options: seq<TypeId>, result0: Entries, seen0: set<TypeId>)
    returns (result: Entries, seen: set<TypeId>)
    requires Closed(w) && forall o :: o in options ==> o in w.types
    ensures (result, seen) == VisitUnion(w, options, result0, seen0)
    decreases UnseenBranching(w, seen0), w.types.Keys, 3, 0
  {
    result, seen := result0, seen0;
    var i := 0;
    while i < |options| && Skippable(w, options[i])
      invariant 0 <= i <= |options|
      invariant VisitUnion(w, options[i..], result0, seen0) == VisitUnion(w, options, result0, seen0)
    {
      SkipOption(w, options, i, result0, seen0);
      i := i + 1;
    }
    if i == |options| {
      return;
    }
    TakeOption(w, options, i, result0, seen0);
    assert Unseen(w, seen) <= w.types.Keys;
    result, seen := AutocompleteProps(w, options[i], result, seen, None);
    assert UnseenBranching(w, seen) <= UnseenBranching(w, seen0);
    result := CompleteLaterOptions(w, options[i + 1..], result, seen);
  }

  lemma {:induction false} SkipOption(w: World, options: seq<TypeId>, i: nat, result: Entries, seen: set<TypeId>)
    requires Closed(w) && (forall o :: o in options ==> o in w.types) && i < |options| && Skippable(w, options[i])
    ensures VisitUnion(w, options[i..], result, seen) == VisitUnion(w, options[i + 1..], result, seen)
  {
    assert options[i..][0] == options[i] && options[i..][1..] == options[i + 1..];
  }

  lemma {:induction false} TakeOption(w: World, options: seq<TypeId>, i: nat, result: Entries, seen: set<TypeId>)
    requires Closed(w) && (forall o :: o in options ==> o in w.types) && i < |options| && !Skippable(w, options[i])
    ensures var r := Visit(w, options[i], result, seen, None);
            VisitUnion(w, options[i..], result, seen) == (VisitOptions(w, options[i + 1..], r.0, r.1), r.1)
  {
    assert options[i..][0] == options[i] && options[i..][1..] == options[i + 1..];
  }

  method CompleteLaterOptions(w: World, options: seq<TypeId>, result0: Entries, seen: set<TypeId>) returns (result: Entries)
    requires Closed(w) && forall o :: o in options ==> o in w.types
    ensures result == VisitOptions(w, options, result0, seen)
    decreases UnseenBranching(w, seen), w.types.Keys, 2, 0
  {
    result := result0;
    var innerSeen := Branching(w, seen);
    assert UnseenBranching(w, innerSeen) == UnseenBranching(w, seen);
    assert Unseen(w, innerSeen) <= w.types.Keys;
    for i := 0 to |options|
      invariant VisitOptions(w, options[i..], result, seen) == VisitOptions(w, options, result0, seen)
    {
      assert options[i..][0] == options[i] && options[i..][1..] == options[i + 1..];
      if !Skippable(w, options[i]) {
        var inner, _ := AutocompleteProps(w, options[i], map[], innerSeen, None);
        result := Restrict(result, inner);
      }
    }
  }

  // ----- what is offered -----

  /** The types below a type, unfolded as a tree. */
  datatype Tree = Tree(id: TypeId, kids: seq<Tree>)

  function Ids(t: Tree): set<TypeId> {
    {t.id} + set k, i | k in t.kids && i in Ids(k) :: i
  }

  function KidIds(kids: seq<Tree>): seq<TypeId> {
    seq(|kids|, i requires 0 <= i < |kids| => kids[i].id)
  }

  /** The types the walk goes on to from a type of the fragment considered here; `None` outside it. */
  function Successors(t: Type): Option<seq<TypeId>> {
    match t
    case Extern(_, parent) => Some(if parent.Some? then [parent.value] else [])
    case Intersection(parts) => Some(parts)
    case Union(options) => Some(options)
    case Metatable(_, _) => None
    case StringSingleton => None
    case Primitive(_, meta) => if meta.None? then Some([]) else None
    case _ => Some([])
  }

  predicate Counts(w: World, ty: TypeId) {
    ty in w.types && !Skippable(w, ty)
  }

  /** The types below `t.id` are extern, table, intersection and union types, and types that offer
      nothing, with no cycle. Types may be shared. */
  ghost predicate Unfolds(w: World, t: Tree) {
    && t.id in w.types
    && Successors(w.types[t.id]) == Some(KidIds(t.kids))
    && (forall k :: k in t.kids ==> Unfolds(w, k) && t.id !in Ids(k))
    && (w.types[t.id].Extern? ==> forall k :: k in t.kids ==> w.types[k.id].Extern?)
    && (w.types[t.id].Union? ==> forall k :: k in t.kids ==> !w.types[k.id].Union?)
  }

  function ReadableNames(props: Props): set<string> {
    set n | n in props && Readable(props, n)
  }

  function SingletonNames(singletons: seq<(string, TypeId)>): set<string> {
    set s | s in singletons :: s.0
  }

  /** Names offered by some of the types. */
  ghost function ByAny(w: World, kids: seq<Tree>): set<string>
    decreases kids, 0
  {
    set k, n | k in kids && n in Offered(w, k) :: n
  }

  /** Those of the names that every type that counts offers. */
  ghost function KeptByAll(w: World, kids: seq<Tree>, names: set<string>): set<string>
    decreases kids, 0
  {
    set n | n in names && forall k :: k in kids && Counts(w, k.id) ==> n in Offered(w, k)
  }

  /** The names a type should offer: what every option that counts offers, for a union; what any
      part offers, for an intersection; its own and its parent's names, for a class. */
  ghost function Offered(w: World, t: Tree): set<string>
    decreases t, 1
  {
    if t.id !in w.types then {}
    else
      match w.types[t.id]
      case Extern(props, _) => ReadableNames(props) + ByAny(w, t.kids)
      case Table(props, singletons) => ReadableNames(props) + if w.point then SingletonNames(singletons) else {}
      case Intersection(_) => ByAny(w, t.kids)
      case Union(_) => KeptByAll(w, t.kids, ByAny(w, t.kids))
      case _ => {}
  }

  /** What the walk remembers of the first option of a union while it is in the later ones. */
  function Trace(w: World, first: TypeId): set<TypeId> {
    Branching(w, {first})
  }

  /** The names a type offers when the `hidden` types offer nothing; in a union, the first option that
      counts is hidden from the later ones if it is an intersection. */
  ghost function OfferedBut(w: World, t: Tree, hidden: set<TypeId>): set<string>
    decreases t, 1
  {
    if t.id !in w.types || t.id in hidden then {}
    else
      match w.types[t.id]
      case Extern(props, _) => ReadableNames(props) + ByAnyBut(w, t.kids, hidden)
      case Table(props, singletons) => ReadableNames(props) + if w.point then SingletonNames(singletons) else {}
      case Intersection(_) => ByAnyBut(w, t.kids, hidden)
      case Union(_) => CommonBut(w, t.kids, hidden)
      case _ => {}
  }

  ghost function ByAnyBut(w: World, kids: seq<Tree>, hidden: set<TypeId>): set<string>
    decreases kids, 0
  {
    set k, n | k in kids && n in OfferedBut(w, k, hidden) :: n
  }

  ghost function KeptBut(w: World, kids: seq<Tree>, names: set<string>, hidden: set<TypeId>): set<string>
    decreases kids, 0
  {
    set n | n in names && forall k :: k in kids && Counts(w, k.id) ==> n in OfferedBut(w, k, hidden)
  }

  ghost function CommonBut(w: World, kids: seq<Tree>, hidden: set<TypeId>): set<string>
    decreases kids, 0
  {
    if kids == [] then {}
    else if !Counts(w, kids[0].id) then CommonBut(w, kids[1..], hidden)
    else KeptBut(w, kids[1..], OfferedBut(w, kids[0], hidden), Branching(w, hidden) + Trace(w, kids[0].id))
  }

  lemma {:induction false} FillSingletonsKeys(singletons: seq<(string, TypeId)>, result: Entries)
    ensures FillSingletons(singletons, result).Keys == result.Keys + SingletonNames(singletons)
  {
    if singletons != [] {
      var head := singletons[0];
      FillSingletonsKeys(singletons[1..], result[head.0 := StringKey(head.1)]);
      assert singletons == [head] + singletons[1..];
      assert SingletonNames(singletons) == {head.0} + SingletonNames(singletons[1..]);
    }
  }

  lemma {:induction false} ByAnyButSplit(w: World, kids: seq<Tree>, hidden: set<TypeId>)
    requires kids != []
    ensures ByAnyBut(w, kids, hidden) == OfferedBut(w, kids[0], hidden) + ByAnyBut(w, kids[1..], hidden)
  {
    assert kids == [kids[0]] + kids[1..];
  }

  lemma {:induction false} KeptButSplit(w: World, kids: seq<Tree>, names: set<string>, hidden: set<TypeId>)
    requires kids != []
    ensures KeptBut(w, kids, names, hidden) ==
            KeptBut(w, kids[1..], if Counts(w, kids[0].id) then names * OfferedBut(w, kids[0], hidden) else names, hidden)
  {
    assert kids == [kids[0]] + kids[1..];
  }

  lemma {:induction false} KidIdsSplit(kids: seq<Tree>)
    requires kids != []
    ensures KidIds(kids) != [] && KidIds(kids)[0] == kids[0].id && KidIds(kids)[1..] == KidIds(kids[1..])
  {
  }

  lemma {:induction false} FillPropsKeys(props: Props, result: Entries, containing: Option<TypeId>)
    ensures FillProps(props, result, containing).Keys == result.Keys + ReadableNames(props)
  {
  }

  // ----- hiding types -----

  /** Hiding a type that does not occur changes nothing. */
  lemma {:induction false} HiddenElsewhere(w: World, t: Tree, hidden: set<TypeId>, x: TypeId)
    requires x !in Ids(t)
    ensures OfferedBut(w, t, hidden + {x}) == OfferedBut(w, t, hidden)
    decreases t, 1
  {
    forall k | k in t.kids ensures x !in Ids(k) {}
    if t.id in w.types && t.id !in hidden {
      KidsHiddenElsewhere(w, t.kids, hidden, x);
    }
  }

  lemma {:induction false} KidsHiddenElsewhere(w: World, kids: seq<Tree>, hidden: set<TypeId>, x: TypeId)
    requires forall k :: k in kids ==> x !in Ids(k)
    ensures ByAnyBut(w, kids, hidden + {x}) == ByAnyBut(w, kids, hidden)
    ensures CommonBut(w, kids, hidden + {x}) == CommonBut(w, kids, hidden)
    decreases kids, 0
  {
    forall k | k in kids ensures OfferedBut(w, k, hidden + {x}) == OfferedBut(w, k, hidden) {
      HiddenElsewhere(w, k, hidden, x);
    }
    if kids != [] {
      KidsHiddenElsewhere(w, kids[1..], hidden, x);
      if Counts(w, kids[0].id) {
        var later, later' := Branching(w, hidden) + Trace(w, kids[0].id), Branching(w, hidden + {x}) + Trace(w, kids[0].id);
        assert later' == later || later' == later + {x};
        forall k | k in kids[1..] ensures OfferedBut(w, k, later') == OfferedBut(w, k, later) {
          HiddenElsewhere(w, k, later, x);
        }
      }
    }
  }

  /** The more is hidden, the less is offered; hiding nothing, no more than should be. */
  lemma {:induction false} HidingLoses(w: World, t: Tree, less: set<TypeId>, more: set<TypeId>)
    requires less <= more
    ensures OfferedBut(w, t, more) <= OfferedBut(w, t, less)
    decreases t, 1
  {
    KidsHidingLoses(w, t.kids, less, more);
  }

  lemma {:induction false} KidsHidingLoses(w: World, kids: seq<Tree>, less: set<TypeId>, more: set<TypeId>)
    requires less <= more
    ensures ByAnyBut(w, kids, more) <= ByAnyBut(w, kids, less) && CommonBut(w, kids, more) <= CommonBut(w, kids, less)
    decreases kids, 0
  {
    forall k | k in kids ensures OfferedBut(w, k, more) <= OfferedBut(w, k, less) {
      HidingLoses(w, k, less, more);
    }
    if kids != [] {
      KidsHidingLoses(w, kids[1..], less, more);
      if Counts(w, kids[0].id) {
        var trace := Trace(w, kids[0].id);
        forall k | k in kids[1..] ensures OfferedBut(w, k, Branching(w, more) + trace) <= OfferedBut(w, k, Branching(w, less) + trace) {
          HidingLoses(w, k, Branching(w, less) + trace, Branching(w, more) + trace);
        }
      }
    }
  }

  lemma {:induction false} NeverTooMany(w: World, t: Tree, hidden: set<TypeId>)
    ensures OfferedBut(w, t, hidden) <= Offered(w, t)
    decreases t, 1
  {
    KidsNeverTooMany(w, t.kids, hidden);
  }

  lemma {:induction false} KidsNeverTooMany(w: World, kids: seq<Tree>, hidden: set<TypeId>)
    ensures ByAnyBut(w, kids, hidden) <= ByAny(w, kids)
    ensures CommonBut(w, kids, hidden) <= KeptByAll(w, kids, ByAny(w, kids))
    decreases kids, 0
  {
    forall k | k in kids ensures OfferedBut(w, k, hidden) <= Offered(w, k) {
      NeverTooMany(w, k, hidden);
    }
    if kids != [] {
      KidsNeverTooMany(w, kids[1..], hidden);
      assert kids == [kids[0]] + kids[1..];
      if Counts(w, kids[0].id) {
        var later := Branching(w, hidden) + Trace(w, kids[0].id);
        forall k | k in kids[1..] ensures OfferedBut(w, k, later) <= Offered(w, k) {
          NeverTooMany(w, k, later);
        }
      }
    }
  }

  // ----- what the walk offers -----

  /** The result of a walk adds the names offered, and leaks no union or intersection but its start. */
  ghost predicate AsOffered(w: World, t: Tree, result: Entries, seen: set<TypeId>, r: (Entries, set<TypeId>))
    requires t.id in w.types
  {
    && r.0.Keys == result.Keys + OfferedBut(w, t, seen)
    && (!w.types[t.id].Union? ==> Branching(w, r.1) == Branching(w, seen + {t.id}))
  }

  lemma {:induction false} ParentTree(w: World, t: Tree) returns (k: Tree)
    requires Unfolds(w, t) && w.types[t.id].Extern? && w.types[t.id].parent.Some?
    ensures t.kids == [k] && k.id == w.types[t.id].parent.value && Unfolds(w, k) && w.types[k.id].Extern? && t.id !in Ids(k)
  {
    assert |KidIds(t.kids)| == |t.kids|;
    k := t.kids[0];
    assert k in t.kids && KidIds(t.kids)[0] == k.id && t.kids == [k];
  }

  lemma {:induction false} ExternOffers(w: World, t: Tree, result: Entries, seen: set<TypeId>, containing: Option<TypeId>)
    requires Closed(w) && Unfolds(w, t) && t.id !in seen && w.types[t.id].Extern?
    ensures AsOffered(w, t, result, seen, Visit(w, t.id, result, seen, containing))
    decreases t, 1
  {
    var seen1, props, parent := seen + {t.id}, w.types[t.id].props, w.types[t.id].parent;
    var c := if containing.Some? then containing else Some(t.id);
    var filled := FillProps(props, result, c);
    FillPropsKeys(props, result, c);
    if parent.Some? {
      var k := ParentTree(w, t);
      assert k == t.kids[0];
      VisitOffers(w, k, filled, seen1, c);
      assert ByAnyBut(w, t.kids, seen) == OfferedBut(w, k, seen1) by {
        HiddenElsewhere(w, k, seen, t.id);
        ByAnyButSplit(w, t.kids, seen);
      }
      assert Branching(w, seen1 + {k.id}) == Branching(w, seen1);
    } else {
      assert |KidIds(t.kids)| == |t.kids|;
    }
  }

  /** The walk offers what the types seen before leave to be offered, wherever it starts. */
  lemma {:induction false} VisitOffers(w: World, t: Tree, result: Entries, seen: set<TypeId>, containing: Option<TypeId>)
    requires Closed(w) && Unfolds(w, t) && (result == map[] || !w.types[t.id].Union?)
    ensures AsOffered(w, t, result, seen, Visit(w, t.id, result, seen, containing))
    decreases t, 2
  {
    var seen1 := seen + {t.id};
    if t.id in seen {
      assert seen1 == seen;
    } else {
      match w.types[t.id]
      case Extern(_, _) =>
        ExternOffers(w, t, result, seen, containing);
      case Table(props, singletons) =>
        FillPropsKeys(props, result, containing);
        FillSingletonsKeys(singletons, FillProps(props, result, containing));
      case Intersection(parts) =>
        PartsOffer(w, t.kids, result, seen1);
        KidsHiddenElsewhere(w, t.kids, seen, t.id);
      case Union(options) =>
        UnionOffers(w, t.kids, seen1);
        KidsHiddenElsewhere(w, t.kids, seen, t.id);
      case _ =>
    }
  }

  ghost predicate AllUnfold(w: World, kids: seq<Tree>) {
    forall k :: k in kids ==> Unfolds(w, k)
  }

  lemma {:induction false} UnfoldSplit(w: World, kids: seq<Tree>)
    requires kids != [] && AllUnfold(w, kids)
    ensures Unfolds(w, kids[0]) && kids[0].id in w.types && AllUnfold(w, kids[1..])
    ensures KidIds(kids) != [] && KidIds(kids)[0] == kids[0].id && KidIds(kids)[1..] == KidIds(kids[1..])
  {
    assert kids[0] in kids;
    assert forall k :: k in kids[1..] ==> k in kids;
    KidIdsSplit(kids);
  }

  lemma {:induction false} PartsOffer(w: World, kids: seq<Tree>, result: Entries, seen: set<TypeId>)
    requires Closed(w) && AllUnfold(w, kids)
    ensures (forall p :: p in KidIds(kids) ==> p in w.types)
            && VisitParts(w, KidIds(kids), result, seen).Keys == result.Keys + ByAnyBut(w, kids, seen)
    decreases kids, 0
  {
    if kids != [] {
      UnfoldSplit(w, kids);
      ByAnyButSplit(w, kids, seen);
      VisitOffers(w, kids[0], map[], seen, None);
      PartsOffer(w, kids[1..], Visit(w, kids[0].id, map[], seen, None).0 + result, seen);
    }
  }

  lemma {:induction false} OptionsOffer(w: World, kids: seq<Tree>, result: Entries, seen: set<TypeId>)
    requires Closed(w) && AllUnfold(w, kids)
    ensures (forall o :: o in KidIds(kids) ==> o in w.types)
            && VisitOptions(w, KidIds(kids), result, seen).Keys == KeptBut(w, kids, result.Keys, Branching(w, seen))
    decreases kids, 0
  {
    if kids != [] {
      UnfoldSplit(w, kids);
      KeptButSplit(w, kids, result.Keys, Branching(w, seen));
      if Skippable(w, kids[0].id) {
        OptionsOffer(w, kids[1..], result, seen);
      } else {
        VisitOffers(w, kids[0], map[], Branching(w, seen), None);
        OptionsOffer(w, kids[1..], Restrict(result, Visit(w, kids[0].id, map[], Branching(w, seen), None).0), seen);
      }
    }
  }

  lemma {:induction false} UnionOffers(w: World, kids: seq<Tree>, seen: set<TypeId>)
    requires Closed(w) && AllUnfold(w, kids) && forall k :: k in kids ==> !w.types[k.id].Union?
    ensures (forall o :: o in KidIds(kids) ==> o in w.types)
            && VisitUnion(w, KidIds(kids), map[], seen).0.Keys == CommonBut(w, kids, seen)
    decreases kids, 0
  {
    if kids != [] {
      UnfoldSplit(w, kids);
      if Skippable(w, kids[0].id) {
        UnionOffers(w, kids[1..], seen);
      } else {
        VisitOffers(w, kids[0], map[], seen, None);
        var r := Visit(w, kids[0].id, map[], seen, None);
        assert Branching(w, r.1) == Branching(w, seen) + Trace(w, kids[0].id);
        OptionsOffer(w, kids[1..], r.0, r.1);
      }
    }
  }

  /** What completion offers on its own, from an empty map. */
  function OfferedAlone(w: World, ty: TypeId): set<string>
    requires Closed(w) && ty in w.types
  {
    Visit(w, ty, map[], {}, None).0.Keys
  }

  lemma {:induction false} AloneIs(w: World, t: Tree)
    requires Closed(w) && Unfolds(w, t)
    ensures OfferedAlone(w, t.id) == OfferedBut(w, t, {})
  {
    VisitOffers(w, t, map[], {}, None);
  }

  // ----- when a union offers what it should -----

  /** Every option that counts offers the name, given what each of them offers. */
  ghost predicate Common(w: World, kids: seq<Tree>, name: string) {
    (exists k :: k in kids && Counts(w, k.id)) && forall k :: k in kids && Counts(w, k.id) ==> name in OfferedBut(w, k, {})
  }

  /** The later options that count offer the name without passing through the first one that counts, if
      that is an intersection. */
  ghost predicate OfferedPast(w: World, kids: seq<Tree>, name: string) {
    kids == [] ||
    if !Counts(w, kids[0].id) then OfferedPast(w, kids[1..], name)
    else forall k :: k in kids[1..] && Counts(w, k.id) ==> name in OfferedBut(w, k, Trace(w, kids[0].id))
  }

  lemma {:induction false} CommonIs(w: World, kids: seq<Tree>, name: string)
    ensures name in CommonBut(w, kids, {}) <==> Common(w, kids, name) && OfferedPast(w, kids, name)
    decreases kids
  {
    if kids != [] {
      assert kids == [kids[0]] + kids[1..];
      if !Counts(w, kids[0].id) {
        CommonIs(w, kids[1..], name);
      } else {
        var trace := Trace(w, kids[0].id);
        assert Branching(w, {}) + trace == trace;
        forall k | k in kids[1..] ensures OfferedBut(w, k, trace) <= OfferedBut(w, k, {}) {
          HidingLoses(w, k, {}, trace);
        }
      }
    }
  }

  /** A union offers exactly the names that each of its options offers on its own, if and only if each
      of these names is offered by the later options without passing through the first. */
  lemma {:induction false} UnionKeepsCommon(w: World, t: Tree)
    requires Closed(w) && Unfolds(w, t) && w.types[t.id].Union?
    ensures (forall name :: name in OfferedAlone(w, t.id) <==> Common(w, t.kids, name))
            <==> forall name :: Common(w, t.kids, name) ==> OfferedPast(w, t.kids, name)
  {
    AloneIs(w, t);
    forall name ensures name in OfferedAlone(w, t.id) <==> Common(w, t.kids, name) && OfferedPast(w, t.kids, name) {
      CommonIs(w, t.kids, name);
    }
  }

  /** Against what it should offer: a union offers exactly its names if and only if each of them is
      offered by every option, and by the later ones without passing through the first. */
  lemma {:induction false} UnionOffersExactly(w: World, t: Tree)
    requires Closed(w) && Unfolds(w, t) && w.types[t.id].Union?
    ensures OfferedAlone(w, t.id) == Offered(w, t)
            <==> forall name :: name in Offered(w, t) ==> Common(w, t.kids, name) && OfferedPast(w, t.kids, name)
  {
    AloneIs(w, t);
    NeverTooMany(w, t, {});
    forall name ensures name in OfferedAlone(w, t.id) <==> Common(w, t.kids, name) && OfferedPast(w, t.kids, name) {
      CommonIs(w, t.kids, name);
    }
  }

  /** A union of `a` and an intersection of `a` and others, with `a` itself an intersection, and a name
      that only `a` offers. */
  ghost predicate SharesFirstOption(w: World, t: Tree, a: Tree, b: Tree, name: string) {
    && Unfolds(w, t) && w.types[t.id].Union? && t.kids == [a, b]
    && Unfolds(w, a) && w.types[a.id].Intersection? && Unfolds(w, b) && w.types[b.id].Intersection?
    && a in b.kids && name in Offered(w, a) && forall k :: k in b.kids && k != a ==> name !in Offered(w, k)
  }

  lemma {:induction false} HiddenFirstOption(w: World, t: Tree, a: Tree, b: Tree, name: string)
    requires SharesFirstOption(w, t, a, b, name)
    ensures name in Offered(w, t) && name !in OfferedBut(w, t, {})
  {
    var trace := Trace(w, a.id);
    assert name in Offered(w, b);
    assert a in t.kids;
    CommonIs(w, t.kids, name);
    assert t.kids[1..] == [b] && b in t.kids[1..] && t.kids[0] == a;
    forall k | k in b.kids ensures name !in OfferedBut(w, k, trace) {
      NeverTooMany(w, k, trace);
    }
    assert name !in OfferedBut(w, b, trace);
  }

  /** A name that reaches the second option only through the first one is lost. */
  lemma {:induction false} SharedFirstOptionLosesNames(w: World, t: Tree, a: Tree, b: Tree, name: string)
    requires Closed(w) && SharesFirstOption(w, t, a, b, name)
    ensures name in Offered(w, t) && name !in OfferedAlone(w, t.id)
  {
    HiddenFirstOption(w, t, a, b, name);
    AloneIs(w, t);
  }

  /** `a | (a & {y})` with `a` standing for `{x} & {z}`. */
  const EXAMPLE := World(
    map[0 := Union([1, 2]), 1 := Intersection([3, 4]), 2 := Intersection([1, 5]),
        3 := Table(map["x" := Some(6)], []), 4 := Table(map["z" := Some(6)], []), 5 := Table(map["y" := Some(6)], []), 6 := Other],
    6, true, true, true)

  ghost predicate IsExample(w: World) {
    && {0, 1, 2, 3, 4, 5} <= w.types.Keys && w.types[0] == Union([1, 2])
    && w.types[1] == Intersection([3, 4]) && w.types[2] == Intersection([1, 5])
    && w.types[3] == Table(map["x" := Some(6)], []) && w.types[4] == Table(map["z" := Some(6)], [])
    && w.types[5] == Table(map["y" := Some(6)], [])
  }

  /** The types of the example as trees. */
  ghost predicate ExampleTrees(x: Tree, z: Tree, y: Tree, a: Tree, b: Tree, t: Tree) {
    && x == Tree(3, []) && z == Tree(4, []) && y == Tree(5, [])
    && a == Tree(1, [x, z]) && b == Tree(2, [a, y]) && t == Tree(0, [a, b])
  }

  /** Both names of `a` should be offered, and none is. */
  lemma {:induction false} ExampleLosesNames()
    ensures Closed(EXAMPLE) && OfferedAlone(EXAMPLE, 0) == {}
    ensures exists t: Tree :: t.id == 0 && Unfolds(EXAMPLE, t) && Offered(EXAMPLE, t) == {"x", "z"}
  {
    ExampleIsClosed();
    var t := ExampleIsLossy(EXAMPLE);
    assert OfferedAlone(EXAMPLE, 0) == OfferedBut(EXAMPLE, t, {}) by { AloneIs(EXAMPLE, t); }
  }

  lemma {:induction false} ExampleIsClosed()
    ensures Closed(EXAMPLE) && IsExample(EXAMPLE)
  {
  }

  lemma {:induction false} ExampleIsLossy(w: World) returns (t: Tree)
    requires IsExample(w)
    ensures t.id == 0 && Unfolds(w, t) && Offered(w, t) == {"x", "z"} && OfferedBut(w, t, {}) == {}
  {
    var x, z, y := Tree(3, []), Tree(4, []), Tree(5, []);
    var a := Tree(1, [x, z]);
    var b := Tree(2, [a, y]);
    t := Tree(0, [a, b]);
    ExampleUnfolds(w, x, z, y, a, b, t);
    assert Offered(w, t) == {"x", "z"} by { ExampleOffers(w, x, z, y, a, b, t); }
    assert "x" !in OfferedBut(w, t, {}) && "z" !in OfferedBut(w, t, {}) by {
      ExampleShares(w, x, z, y, a, b, t);
      HiddenFirstOption(w, t, a, b, "x");
      HiddenFirstOption(w, t, a, b, "z");
    }
    assert OfferedBut(w, t, {}) <= Offered(w, t) by { NeverTooMany(w, t, {}); }
  }

  lemma {:induction false} ExampleShares(w: World, x: Tree, z: Tree, y: Tree, a: Tree, b: Tree, t: Tree)
    requires IsExample(w) && ExampleTrees(x, z, y, a, b, t) && Unfolds(w, a) && Unfolds(w, b) && Unfolds(w, t)
    ensures SharesFirstOption(w, t, a, b, "x") && SharesFirstOption(w, t, a, b, "z")
  {
    ExampleOffers(w, x, z, y, a, b, t);
    assert forall k :: k in b.kids && k != a ==> k == y;
  }

  lemma {:induction false} ExampleUnfolds(w: World, x: Tree, z: Tree, y: Tree, a: Tree, b: Tree, t: Tree)
    requires IsExample(w) && ExampleTrees(x, z, y, a, b, t)
    ensures Unfolds(w, a) && Unfolds(w, b) && Unfolds(w, t)
  {
    assert Unfolds(w, a) && 0 !in Ids(a) && 2 !in Ids(a) by { FirstUnfolds(w, x, z, a); }
    assert Unfolds(w, b) && 0 !in Ids(b) by { SecondUnfolds(w, y, a, b); }
    assert Unfolds(w, t) by { UnionUnfolds(w, a, b, t); }
  }

  lemma {:induction false} UnionUnfolds(w: World, a: Tree, b: Tree, t: Tree)
    requires IsExample(w) && Unfolds(w, a) && Unfolds(w, b) && a.id == 1 && b.id == 2 && t.id == 0 && t.kids == [a, b]
    requires 0 !in Ids(a) && 0 !in Ids(b)
    ensures Unfolds(w, t)
  {
    PairUnfolds(w, t, a, b);
  }

  lemma {:induction false} FirstUnfolds(w: World, x: Tree, z: Tree, a: Tree)
    requires IsExample(w) && x.id == 3 && x.kids == [] && z.id == 4 && z.kids == [] && a.id == 1 && a.kids == [x, z]
    ensures Unfolds(w, a) && 0 !in Ids(a) && 2 !in Ids(a)
  {
    LeafUnfolds(w, x);
    LeafUnfolds(w, z);
    PairUnfolds(w, a, x, z);
    PairIds(a, x, z);
  }

  lemma {:induction false} SecondUnfolds(w: World, y: Tree, a: Tree, b: Tree)
    requires IsExample(w) && Unfolds(w, a) && a.id == 1 && 0 !in Ids(a) && 2 !in Ids(a)
    requires y.id == 5 && y.kids == [] && b.id == 2 && b.kids == [a, y]
    ensures Unfolds(w, b) && 0 !in Ids(b)
  {
    LeafUnfolds(w, y);
    PairUnfolds(w, b, a, y);
    PairIds(b, a, y);
  }

  lemma {:induction false} PairIds(t: Tree, k: Tree, l: Tree)
    requires t.kids == [k, l]
    ensures Ids(t) == {t.id} + Ids(k) + Ids(l)
  {
    assert k in t.kids && l in t.kids;
  }

  lemma {:induction false} LeafUnfolds(w: World, t: Tree)
    requires t.kids == [] && t.id in w.types && w.types[t.id].Table?
    ensures Unfolds(w, t) && Ids(t) == {t.id}
  {
    assert KidIds(t.kids) == [];
  }

  lemma {:induction false} PairUnfolds(w: World, t: Tree, k: Tree, l: Tree)
    requires t.kids == [k, l] && t.id in w.types
    requires w.types[t.id] == Intersection([k.id, l.id]) || w.types[t.id] == Union([k.id, l.id])
    requires Unfolds(w, k) && Unfolds(w, l) && t.id !in Ids(k) && t.id !in Ids(l)
    requires !w.types[k.id].Union? && !w.types[l.id].Union?
    ensures Unfolds(w, t)
  {
    assert KidIds(t.kids) == [k.id, l.id];
  }

  lemma {:induction false} ExampleOffers(w: World, x: Tree, z: Tree, y: Tree, a: Tree, b: Tree, t: Tree)
    requires IsExample(w) && ExampleTrees(x, z, y, a, b, t)
    ensures Offered(w, y) == {"y"} && Offered(w, a) == {"x", "z"} && Offered(w, t) == {"x", "z"}
  {
    assert Offered(w, x) == {"x"} && Offered(w, z) == {"z"} && Offered(w, y) == {"y"};
    assert Offered(w, a) == {"x", "z"} by { assert x in a.kids && z in a.kids; }
    assert Offered(w, b) == {"x", "y", "z"} by { assert a in b.kids && y in b.kids; }
    assert a in t.kids && b in t.kids;
  }

  /** No union has a first option that counts, is an intersection, and occurs below a later option. */
  ghost predicate NeverLeaks(w: World, t: Tree) {
    && (forall k :: k in t.kids ==> NeverLeaks(w, k))
    && (t.id in w.types && w.types[t.id].Union? ==> NoLeak(w, t.kids))
  }

  ghost predicate NoLeak(w: World, kids: seq<Tree>) {
    kids == [] ||
    if !Counts(w, kids[0].id) then NoLeak(w, kids[1..])
    else forall k :: k in kids[1..] ==> Trace(w, kids[0].id) !! Ids(k)
  }

  lemma {:induction false} NothingHidden(w: World, t: Tree, hidden: set<TypeId>)
    requires NeverLeaks(w, t) && hidden !! Ids(t)
    ensures OfferedBut(w, t, hidden) == Offered(w, t)
    decreases t, 1
  {
    assert t.id in Ids(t);
    forall k | k in t.kids ensures hidden !! Ids(k) && NeverLeaks(w, k) {
      assert Ids(k) <= Ids(t);
    }
    forall k | k in t.kids ensures OfferedBut(w, k, hidden) == Offered(w, k) {
      NothingHidden(w, k, hidden);
    }
    if t.id in w.types && w.types[t.id].Union? {
      CommonUnhidden(w, t.kids, hidden);
    }
  }

  lemma {:induction false} CommonUnhidden(w: World, kids: seq<Tree>, hidden: set<TypeId>)
    requires NoLeak(w, kids) && forall k :: k in kids ==> NeverLeaks(w, k) && hidden !! Ids(k)
    ensures CommonBut(w, kids, hidden) == KeptByAll(w, kids, ByAny(w, kids))
    decreases kids, 0
  {
    if kids != [] {
      var first, rest := kids[0], kids[1..];
      assert kids == [first] + rest;
      if !Counts(w, first.id) {
        CommonUnhidden(w, rest, hidden);
        assert Offered(w, first) == {};
      } else {
        NothingHidden(w, first, hidden);
        var later := Branching(w, hidden) + Trace(w, first.id);
        forall k | k in rest ensures OfferedBut(w, k, later) == Offered(w, k) {
          NothingHidden(w, k, later);
        }
      }
    }
  }

  /** Siblings share no types, at any level: the type is a tree. */
  ghost predicate TreeShaped(t: Tree) {
    && (forall i, j :: 0 <= i < j < |t.kids| ==> Ids(t.kids[i]) !! Ids(t.kids[j]))
    && forall k :: k in t.kids ==> TreeShaped(k)
  }

  lemma {:induction false} TreesNeverLeak(w: World, t: Tree)
    requires TreeShaped(t)
    ensures NeverLeaks(w, t)
    decreases t
  {
    forall k | k in t.kids ensures NeverLeaks(w, k) {
      TreesNeverLeak(w, k);
    }
    ApartNeverLeak(w, t.kids);
  }

  lemma {:induction false} ApartNeverLeak(w: World, kids: seq<Tree>)
    requires forall i, j :: 0 <= i < j < |kids| ==> Ids(kids[i]) !! Ids(kids[j])
    ensures NoLeak(w, kids)
  {
    if kids != [] {
      forall k | k in kids[1..] ensures Trace(w, kids[0].id) !! Ids(k) {
        var i :| 0 <= i < |kids[1..]| && kids[1..][i] == k;
        assert kids[i + 1] == k && kids[0].id in Ids(kids[0]);
      }
      ApartNeverLeak(w, kids[1..]);
    }
  }

  /** On trees completion offers exactly the names of the type. */
  lemma {:induction false} TreesOfferExactly(w: World, t: Tree)
    requires Closed(w) && Unfolds(w, t) && TreeShaped(t)
    ensures OfferedAlone(w, t.id) == Offered(w, t)
  {
    TreesNeverLeak(w, t);
    OffersExactly(w, t);
  }

  /** Without such a union completion offers exactly the names of the type. */
  lemma {:induction false} OffersExactly(w: World, t: Tree)
    requires Closed(w) && Unfolds(w, t) && NeverLeaks(w, t)
    ensures OfferedAlone(w, t.id) == Offered(w, t)
  {
    AloneIs(w, t);
    NothingHidden(w, t, {});
  }

  /** The read type of a name in the nearest class of a chain that can read it. */
  ghost function Nearest(w: World, t: Tree, name: string): Option<TypeId> {
    if t.id !in w.types || !w.types[t.id].Extern? then None
    else if Readable(w.types[t.id].props, name) then w.types[t.id].props[name]
    else if t.kids == [] then None
    else Nearest(w, t.kids[0], name)
  }

  /** Along a chain of classes every name maps to the nearest class that can read it, and every entry
      names the class that completion started from. */
  lemma {:induction false} ExternNearest(w: World, t: Tree, result: Entries, seen: set<TypeId>, containing: Option<TypeId>, name: string)
    requires Closed(w) && Unfolds(w, t) && seen !! Ids(t) && w.types[t.id].Extern?
    ensures var r := Visit(w, t.id, result, seen, containing).0;
            var c := if containing.Some? then containing else Some(t.id);
            && (name in result ==> name in r && r[name] == result[name])
            && (name !in result && Nearest(w, t, name).Some? ==> name in r && r[name] == Property(Nearest(w, t, name).value, c))
            && (name !in result && Nearest(w, t, name).None? ==> name !in r)
  {
    var seen1, parent := seen + {t.id}, w.types[t.id].parent;
    var c := if containing.Some? then containing else Some(t.id);
    assert t.id in Ids(t);
    if parent.Some? {
      var k := ParentTree(w, t);
      assert Ids(k) <= Ids(t) by { assert k in t.kids; }
      ExternNearest(w, k, FillProps(w.types[t.id].props, result, c), seen1, c, name);
    } else {
      assert |KidIds(t.kids)| == |t.kids|;
    }
  }
}
