/** Which entry completion gives a name: where it comes from, and what stays of entries given before. */
module AutocompleteEntries {
  import opened Wrappers
  import opened Autocomplete

  function Get(entries: Entries, name: string): Option<Entry> {
    if name in entries then Some(entries[name]) else None
  }

  /** The read type of a property that has one and that the parser has not made up. */
  function ReadType(props: Props, name: string): Option<TypeId> {
    if name in props && name != "%error-id%" then props[name] else None
  }

  /** The string key of the indexer with this value, the last of several. */
  function KeyType(singletons: seq<(string, TypeId)>, name: string): Option<TypeId> {
    if singletons == [] then None
    else
      var later := KeyType(singletons[1..], name);
      if later.Some? then later else if singletons[0].0 == name then Some(singletons[0].1) else None
  }

  function TableEntry(props: Props, keys: seq<(string, TypeId)>, containing: Option<TypeId>, name: string): Option<Entry> {
    var key, read := KeyType(keys, name), ReadType(props, name);
    if key.Some? then Some(StringKey(key.value)) else if read.Some? then Some(Property(read.value, containing)) else None
  }

  /** The entry a type gives a name, when the `hidden` types offer nothing: that of the nearest class that
      can read it, with the class completion started from; for a table that of its string key or property;
      for an intersection that of the first part that offers the name; for a union that of the first option
      that counts, if the later ones offer the name as well. */
  ghost function EntryOf(w: World, t: Tree, hidden: set<TypeId>, containing: Option<TypeId>, name: string): Option<Entry>
    decreases t, 1
  {
    if t.id !in w.types || t.id in hidden then None
    else
      match w.types[t.id]
      case Extern(props, _) =>
        var c := if containing.Some? then containing else Some(t.id);
        var read := ReadType(props, name);
        if read.Some? then Some(Property(read.value, c)) else FirstEntry(w, t.kids, hidden, c, name)
      case Table(props, singletons) => TableEntry(props, if w.point then singletons else [], containing, name)
      case Intersection(_) => FirstEntry(w, t.kids, hidden, None, name)
      case Union(_) => if name in CommonBut(w, t.kids, hidden) then OptionEntry(w, t.kids, hidden, name) else None
      case _ => None
  }

  ghost function FirstEntry(w: World, kids: seq<Tree>, hidden: set<TypeId>, containing: Option<TypeId>, name: string): Option<Entry>
    decreases kids, 0
  {
    if kids == [] then None
    else
      var e := EntryOf(w, kids[0], hidden, containing, name);
      if e.Some? then e else FirstEntry(w, kids[1..], hidden, containing, name)
  }

  ghost function OptionEntry(w: World, kids: seq<Tree>, hidden: set<TypeId>, name: string): Option<Entry>
    decreases kids, 0
  {
    if kids == [] then None
    else if Counts(w, kids[0].id) then EntryOf(w, kids[0], hidden, None, name)
    else OptionEntry(w, kids[1..], hidden, name)
  }

  /** Hiding a type that does not occur changes no entry. */
  lemma {:induction false} EntryElsewhere(w: World, t: Tree, hidden: set<TypeId>, x: TypeId, containing: Option<TypeId>, name: string)
    requires x !in Ids(t)
    ensures EntryOf(w, t, hidden + {x}, containing, name) == EntryOf(w, t, hidden, containing, name)
    decreases t, 1
  {
    forall k | k in t.kids ensures x !in Ids(k) {}
    if t.id in w.types && t.id !in hidden {
      KidsHiddenElsewhere(w, t.kids, hidden, x);
      var c := if w.types[t.id].Intersection? then None else if containing.Some? then containing else Some(t.id);
      KidsEntryElsewhere(w, t.kids, hidden, x, c, name);
    }
  }

  lemma {:induction false} KidsEntryElsewhere(w: World, kids: seq<Tree>, hidden: set<TypeId>, x: TypeId, containing: Option<TypeId>, name: string)
    requires forall k :: k in kids ==> x !in Ids(k)
    ensures FirstEntry(w, kids, hidden + {x}, containing, name) == FirstEntry(w, kids, hidden, containing, name)
    ensures OptionEntry(w, kids, hidden + {x}, name) == OptionEntry(w, kids, hidden, name)
    decreases kids, 0
  {
    if kids != [] {
      EntryElsewhere(w, kids[0], hidden, x, containing, name);
      EntryElsewhere(w, kids[0], hidden, x, None, name);
      KidsEntryElsewhere(w, kids[1..], hidden, x, containing, name);
    }
  }

  lemma {:induction false} FilledProps(props: Props, result: Entries, containing: Option<TypeId>, name: string)
    ensures Get(FillProps(props, result, containing), name) ==
            if name in result then Some(result[name])
            else if ReadType(props, name).Some? then Some(Property(ReadType(props, name).value, containing)) else None
  {
  }

  lemma {:induction false} FilledKeys(singletons: seq<(string, TypeId)>, result: Entries, name: string)
    ensures Get(FillSingletons(singletons, result), name) ==
            if KeyType(singletons, name).Some? then Some(StringKey(KeyType(singletons, name).value)) else Get(result, name)
  {
    if singletons != [] {
      FilledKeys(singletons[1..], result[singletons[0].0 := StringKey(singletons[0].1)], name);
    }
  }

  /** A string key of a table replaces what was there before. */
  ghost predicate Replaces(w: World, t: Tree, seen: set<TypeId>, name: string) {
    && t.id in w.types && t.id !in seen && w.types[t.id].Table? && w.point
    && KeyType(w.types[t.id].singletons, name).Some?
  }

  /** What should be there after a walk: what was there before, or else what the type gives. */
  ghost function Expected(w: World, t: Tree, result: Entries, seen: set<TypeId>, containing: Option<TypeId>, name: string): Option<Entry> {
    if name in result && !Replaces(w, t, seen, name) then Some(result[name]) else EntryOf(w, t, seen, containing, name)
  }

  /** Every entry is the one expected, wherever the walk starts. */
  lemma {:induction false} VisitEntries(w: World, t: Tree, result: Entries, seen: set<TypeId>, containing: Option<TypeId>, name: string)
    requires Closed(w) && Unfolds(w, t) && (result == map[] || !w.types[t.id].Union?)
    ensures Get(Visit(w, t.id, result, seen, containing).0, name) == Expected(w, t, result, seen, containing, name)
    decreases t, 2
  {
    if t.id !in seen {
      var ty, seen1 := w.types[t.id], seen + {t.id};
      if ty.Extern? {
        ExternEntries(w, t, result, seen, containing, name);
      } else if ty.Table? {
        TableEntries(w, t, result, seen, containing, name);
      } else if ty.Intersection? {
        PartEntries(w, t.kids, result, seen1, name);
        KidsEntryElsewhere(w, t.kids, seen, t.id, None, name);
      } else if ty.Union? {
        UnionEntries(w, t.kids, seen1, name);
        KidsHiddenElsewhere(w, t.kids, seen, t.id);
        KidsEntryElsewhere(w, t.kids, seen, t.id, None, name);
      }
    }
  }

  lemma {:induction false} TableEntries(w: World, t: Tree, result: Entries, seen: set<TypeId>, containing: Option<TypeId>, name: string)
    requires Closed(w) && Unfolds(w, t) && w.types[t.id].Table? && t.id !in seen
    ensures Get(Visit(w, t.id, result, seen, containing).0, name) == Expected(w, t, result, seen, containing, name)
  {
    var ty := w.types[t.id];
    var filled := FillProps(ty.props, result, containing);
    FilledProps(ty.props, result, containing, name);
    FilledKeys(ty.singletons, filled, name);
  }

  lemma {:induction false} ExternEntries(w: World, t: Tree, result: Entries, seen: set<TypeId>, containing: Option<TypeId>, name: string)
    requires Closed(w) && Unfolds(w, t) && w.types[t.id].Extern? && t.id !in seen
    ensures Get(Visit(w, t.id, result, seen, containing).0, name) == Expected(w, t, result, seen, containing, name)
    decreases t, 1
  {
    var props, parent, seen1 := w.types[t.id].props, w.types[t.id].parent, seen + {t.id};
    var c := if containing.Some? then containing else Some(t.id);
    var filled := FillProps(props, result, c);
    FilledProps(props, result, c, name);
    if parent.Some? {
      var k := ParentTree(w, t);
      assert k == t.kids[0] && t.kids[1..] == [];
      VisitEntries(w, k, filled, seen1, c, name);
      assert FirstEntry(w, t.kids, seen, c, name) == EntryOf(w, k, seen1, c, name) by {
        EntryElsewhere(w, k, seen, t.id, c, name);
        assert FirstEntry(w, t.kids[1..], seen, c, name) == None;
      }
    } else {
      assert |KidIds(t.kids)| == |t.kids|;
      assert t.kids == [] && FirstEntry(w, t.kids, seen, c, name) == None;
    }
  }

  lemma {:induction false} PartEntries(w: World, kids: seq<Tree>, result: Entries, seen: set<TypeId>, name: string)
    requires Closed(w) && AllUnfold(w, kids)
    ensures (forall p :: p in KidIds(kids) ==> p in w.types)
            && Get(VisitParts(w, KidIds(kids), result, seen), name) ==
               if name in result then Some(result[name]) else FirstEntry(w, kids, seen, None, name)
    decreases kids, 0
  {
    if kids != [] {
      UnfoldSplit(w, kids);
      VisitEntries(w, kids[0], map[], seen, None, name);
      var inner := Visit(w, kids[0].id, map[], seen, None).0;
      PartEntries(w, kids[1..], inner + result, seen, name);
    }
  }

  /** Later options only take names away. */
  lemma {:induction false} OptionsKeepEntries(w: World, kids: seq<Tree>, result: Entries, seen: set<TypeId>, name: string)
    requires Closed(w) && AllUnfold(w, kids)
    ensures (forall o :: o in KidIds(kids) ==> o in w.types)
            && var r := VisitOptions(w, KidIds(kids), result, seen); name in r ==> name in result && r[name] == result[name]
    decreases kids
  {
    if kids != [] {
      UnfoldSplit(w, kids);
      if Skippable(w, kids[0].id) {
        OptionsKeepEntries(w, kids[1..], result, seen, name);
      } else {
        OptionsKeepEntries(w, kids[1..], Restrict(result, Visit(w, kids[0].id, map[], Branching(w, seen), None).0), seen, name);
      }
    }
  }

  lemma {:induction false} UnionEntries(w: World, kids: seq<Tree>, seen: set<TypeId>, name: string)
    requires Closed(w) && AllUnfold(w, kids) && forall k :: k in kids ==> !w.types[k.id].Union?
    ensures (forall o :: o in KidIds(kids) ==> o in w.types)
            && Get(VisitUnion(w, KidIds(kids), map[], seen).0, name) ==
               if name in CommonBut(w, kids, seen) then OptionEntry(w, kids, seen, name) else None
    decreases kids, 0
  {
    UnionOffers(w, kids, seen);
    if kids != [] {
      UnfoldSplit(w, kids);
      if Skippable(w, kids[0].id) {
        UnionEntries(w, kids[1..], seen, name);
      } else {
        VisitEntries(w, kids[0], map[], seen, None, name);
        var r := Visit(w, kids[0].id, map[], seen, None);
        OptionsKeepEntries(w, kids[1..], r.0, r.1, name);
      }
    }
  }

  /** Completion gives every name the entry of the type, on every acyclic type. */
  lemma {:induction false} CompletionEntries(w: World, t: Tree, name: string)
    requires Closed(w) && Unfolds(w, t)
    ensures Get(Visit(w, t.id, map[], {}, None).0, name) == EntryOf(w, t, {}, None, name)
  {
    VisitEntries(w, t, map[], {}, None, name);
  }

  /** Of a union of two tables with a property in common, the entry is that of the first. */
  lemma {:induction false} FirstOptionWins(w: World, t: Tree, a: Tree, b: Tree, name: string, x: TypeId, y: TypeId)
    requires Closed(w) && Unfolds(w, t) && w.types[t.id].Union? && t.kids == [a, b] && a.id != b.id
    requires Unfolds(w, a) && Unfolds(w, b) && name != PARSE_NAME_ERROR
    requires w.types[a.id] == Table(map[name := Some(x)], []) && w.types[b.id] == Table(map[name := Some(y)], [])
    ensures Get(Visit(w, t.id, map[], {}, None).0, name) == Some(Property(x, None))
  {
    CompletionEntries(w, t, name);
    assert t.kids[0] == a && t.kids[1..] == [b];
    assert name in OfferedBut(w, a, {});
    var later := Branching(w, {}) + Trace(w, a.id);
    assert later == {};
    assert name in OfferedBut(w, b, later);
    assert name in CommonBut(w, t.kids, {}) by {
      assert forall k :: k in t.kids[1..] ==> k == b;
    }
    assert EntryOf(w, a, {}, None, name) == Some(Property(x, None)) by {
      assert KeyType([], name) == None;
      assert ReadType(map[name := Some(x)], name) == Some(x);
    }
    assert Counts(w, a.id) && OptionEntry(w, t.kids, {}, name) == EntryOf(w, a, {}, None, name);
  }

  // ----- options that are passed over -----

  /** `nil`, and with the flag errors and never, are passed over in a union, in front or behind: of such a
      union what the other option offers is offered. */
  lemma {:induction false} PassedOver(w: World, t: Tree, a: Tree, n: Tree, name: string)
    requires Closed(w) && Unfolds(w, t) && w.types[t.id].Union? && (t.kids == [a, n] || t.kids == [n, a])
    requires Unfolds(w, a) && (w.types[a.id].Table? || w.types[a.id].Extern? || w.types[a.id].Intersection?)
    requires Unfolds(w, n)
    requires (w.types[n.id].Primitive? && w.types[n.id].isNil) || (w.skipErrors && (w.types[n.id].Error? || w.types[n.id].Never?))
    ensures Get(Visit(w, t.id, map[], {}, None).0, name) == Get(Visit(w, a.id, map[], {}, None).0, name)
  {
    CompletionEntries(w, t, name);
    CompletionEntries(w, a, name);
    EntryMeansOffered(w, a, {}, None, name);
    assert Counts(w, a.id) && !Counts(w, n.id);
    if t.kids == [a, n] {
      assert t.kids[0] == a && t.kids[1..] == [n];
      assert name in CommonBut(w, t.kids, {}) <==> name in OfferedBut(w, a, {});
    } else {
      var rest := t.kids[1..];
      assert t.kids[0] == n && rest == [a] && rest[0] == a && rest[1..] == [];
      assert CommonBut(w, t.kids, {}) == CommonBut(w, rest, {});
      assert name in CommonBut(w, rest, {}) <==> name in OfferedBut(w, a, {});
      assert OptionEntry(w, t.kids, {}, name) == OptionEntry(w, rest, {}, name) == EntryOf(w, a, {}, None, name);
    }
  }

  /** Without the flag an error or never option leaves nothing to be offered. */
  lemma {:induction false} NothingInCommon(w: World, t: Tree, a: Tree, n: Tree)
    requires Closed(w) && Unfolds(w, t) && w.types[t.id].Union? && t.kids == [a, n]
    requires Unfolds(w, a) && (w.types[a.id].Table? || w.types[a.id].Extern? || w.types[a.id].Intersection?)
    requires Unfolds(w, n) && !w.skipErrors && (w.types[n.id].Error? || w.types[n.id].Never?)
    ensures Visit(w, t.id, map[], {}, None).0 == map[]
  {
    AloneIs(w, t);
    assert t.kids[0] == a && t.kids[1..] == [n] && n in t.kids[1..];
    assert Counts(w, a.id) && Counts(w, n.id);
    forall name ensures name !in CommonBut(w, t.kids, {}) {
      var later := Branching(w, {}) + Trace(w, a.id);
      assert name !in OfferedBut(w, n, later);
    }
    assert OfferedAlone(w, t.id) == {};
  }

  lemma {:induction false} EntryMeansOffered(w: World, t: Tree, hidden: set<TypeId>, containing: Option<TypeId>, name: string)
    requires Closed(w) && Unfolds(w, t) && !w.types[t.id].Union?
    ensures EntryOf(w, t, hidden, containing, name).Some? <==> name in OfferedBut(w, t, hidden)
  {
    VisitEntries(w, t, map[], hidden, containing, name);
    VisitOffers(w, t, map[], hidden, containing);
  }

  // ----- metatables and string literals -----

  /** `__index` leads to this type: to itself if it is a table, to the first result if it is a function. */
  ghost predicate IndexedBy(w: World, props: Props, target: TypeId) {
    && "__index" in props && props["__index"].Some? && props["__index"].value in w.types
    && var i := props["__index"].value;
       match w.types[i]
       case Table(_, _) => target == i
       case Metatable(_, _) => target == i
       case Function(result) => result == Some(target)
       case _ => false
  }

  /** These are the properties of the table that is the metatable, or of the one behind it. */
  ghost predicate MetatableHas(w: World, m: TypeId, props: Props) {
    m in w.types &&
    match w.types[m]
    case Table(own, _) => props == own
    case Metatable(table, _) => w.inheritMetatables && table in w.types && w.types[table].Table? && props == w.types[table].props
    case _ => false
  }

  lemma {:induction false} IndexIs(w: World, props: Props, target: TypeId)
    requires Closed(w) && ClosedProps(w, Some(props)) && IndexedBy(w, props, target)
    ensures target in w.types && IndexTarget(w, props) == Some(target)
  {
    assert OptionSet(IndexTarget(w, props)) == {target};
  }

  lemma {:induction false} MetatableIs(w: World, m: TypeId, props: Props)
    requires Closed(w) && MetatableHas(w, m, props)
    ensures MetatableProps(w, m) == Some(props)
  {
    if w.types[m].Metatable? {
      assert w.types[m].table in Refs(w.types[m]);
    }
  }

  /** What a table at the end of `__index` adds: its string keys, and properties where nothing is yet. */
  ghost function Behind(w: World, target: TypeId, e: Option<Entry>, name: string): Option<Entry>
    requires target in w.types && w.types[target].Table?
  {
    var keys := if w.point then w.types[target].singletons else [];
    if e.Some? && KeyType(keys, name).None? then e else TableEntry(w.types[target].props, keys, None, name)
  }

  lemma {:induction false} IndexEntries(w: World, props: Props, result: Entries, seen: set<TypeId>, target: TypeId, name: string)
    requires Closed(w) && ClosedProps(w, Some(props)) && IndexedBy(w, props, target)
    requires target in w.types && w.types[target].Table? && target !in seen
    ensures Get(VisitIndex(w, Some(props), result, seen).0, name) == Behind(w, target, Get(result, name), name)
  {
    IndexIs(w, props, target);
    var t := Tree(target, []);
    LeafUnfolds(w, t);
    VisitEntries(w, t, result, seen, None, name);
  }

  /** A table with a metatable offers its own names, and those of the table its `__index` leads to. */
  lemma {:induction false} MetatableEntries(w: World, ty: TypeId, table: TypeId, m: TypeId, props: Props, target: TypeId, name: string)
    requires Closed(w) && ty in w.types && w.types[ty] == Metatable(table, m) && MetatableHas(w, m, props)
    requires table in w.types && w.types[table].Table? && target in w.types && w.types[target].Table? && IndexedBy(w, props, target)
    requires ty != table && target != ty && target != table
    ensures Get(Visit(w, ty, map[], {}, None).0, name) ==
            Behind(w, target, TableEntry(w.types[table].props, if w.point then w.types[table].singletons else [], None, name), name)
  {
    assert {table, m} <= w.types.Keys by { assert Refs(w.types[ty]) <= w.types.Keys; }
    MetatableIs(w, m, props);
    var t := Tree(table, []);
    LeafUnfolds(w, t);
    assert {} + {ty} == {ty};
    VisitEntries(w, t, map[], {ty}, None, name);
    var r := Visit(w, table, map[], {ty}, None);
    assert r.1 == {ty, table};
    assert ClosedProps(w, MetatableProps(w, m));
    IndexEntries(w, props, r.0, r.1, target, name);
  }

  /** A string literal offers the names of the string library: the table that the `__index` of the built-in
      `string` leads to. */
  lemma {:induction false} StringLiteralEntries(w: World, ty: TypeId, m: TypeId, target: TypeId, name: string)
    requires Closed(w) && ty in w.types && w.types[ty].StringSingleton? && ty != w.stringType
    requires w.types[w.stringType] == Primitive(false, Some(m)) && m in w.types && w.types[m].Table?
    requires target in w.types && w.types[target].Table? && IndexedBy(w, w.types[m].props, target)
    ensures Get(Visit(w, ty, map[], {}, None).0, name) ==
            TableEntry(w.types[target].props, if w.point then w.types[target].singletons else [], None, name)
  {
    var props := w.types[m].props;
    assert ClosedProps(w, Some(props)) by { assert PropRefs(props) <= Refs(w.types[m]) <= w.types.Keys; }
    assert {} + {ty} == {ty};
    IndexEntries(w, props, map[], {ty, w.stringType}, target, name);
    assert {ty} + {w.stringType} == {ty, w.stringType};
    assert Visit(w, w.stringType, map[], {ty}, None) == VisitIndex(w, Some(props), map[], {ty, w.stringType});
  }
}
