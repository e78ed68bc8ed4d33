/** Conversion of a heap dump into the flat snapshot format of a browser's memory panel: nodes and
    edges become fixed-size groups of numbers, names become indices into a table of strings. */
module HeapSnapshot {
  import opened Wrappers
  import Json

  type Address = string

  datatype Place = Place(source: string, line: int)

  datatype Object =
    | Table(size: int, pairs: seq<(Option<Address>, Option<Address>)>, array_: seq<Address>, metatable: Option<Address>)
    | Thread(size: int, place: Option<Place>, env: Option<Address>, stack: seq<Address>)
    | Function(size: int, name: Option<string>, env: Option<Address>, proto: Option<Address>, upvalues: seq<Address>)
    | Upvalue(size: int, target: Option<Address>)
    | Userdata(size: int, metatable: Option<Address>)
    | Proto(size: int, place: Option<Place>, constants: seq<Address>, protos: seq<Address>)
    | Str(size: int, data: string)
    | Buffer(size: int)

  /** A dump: its objects, in the order of the dictionary, and the two roots that are singled out. */
  datatype Dump = Dump(objects: map<Address, Object>, keys: seq<Address>, registry: Address, mainthread: Address)

  const NODE_FIELDS: nat := 7
  const EDGE_FIELDS: nat := 3

  // ----- what the snapshot means -----

  datatype EdgeKind = Context | Element | Property | Internal

  /** Edges carry a name, except those of array elements, which carry an index. */
  datatype Label = Name(name: string) | Index(index: nat)

  datatype Edge = Edge(kind: EdgeKind, tag: Label, to: Address)

  function KindCode(k: EdgeKind): int {
    match k
    case Context => 0 case Element => 1 case Property => 2 case Internal => 3
  }

  function TypeName(o: Object): string {
    match o
    case Table(_, _, _, _) => "table" case Thread(_, _, _, _) => "thread" case Function(_, _, _, _, _) => "function"
    case Upvalue(_, _) => "upvalue" case Userdata(_, _) => "userdata" case Proto(_, _, _, _) => "proto"
    case Str(_, _) => "string" case Buffer(_) => "buffer"
  }

  function NodeType(o: Object): int {
    match o
    case Table(_, _, _, _) => 3 case Thread(_, _, _, _) => 8 case Function(_, _, _, _, _) => 5
    case Upvalue(_, _) => 8 case Userdata(_, _) => 8 case Proto(_, _, _, _) => 4 case Str(_, _) => 2 case Buffer(_) => 8
  }

  function PlaceText(p: Place): string {
    p.source + ":" + Json.Decimal(p.line)
  }

  function NodeName(d: Dump, a: Address, o: Object): string {
    match o
    case Table(_, _, _, _) => if a == d.registry then "Registry (" + a + ")" else "Luau table (" + a + ")"
    case Thread(_, place, _, _) =>
      (if place.Some? then "Luau thread: " + PlaceText(place.value) + " (" + a + ")" else "Luau thread (" + a + ")")
      + (if a == d.mainthread then " (main thread)" else "")
    case Function(_, name, _, _, _) =>
      if name.Some? then "Luau function: " + name.value + " (" + a + ")" else "Luau anonymous function (" + a + ")"
    case Upvalue(_, _) => "Luau upvalue (" + a + ")"
    case Userdata(_, _) => "Luau userdata (" + a + ")"
    case Proto(_, place, _, _) =>
      if place.Some? then "Luau proto: " + PlaceText(place.value) + " (" + a + ")" else "Luau proto (" + a + ")"
    case Str(_, data) => data
    case Buffer(_) => "buffer (" + a + ")"
  }

  function KeyRef(d: Dump, key: Address): Label
    requires key in d.objects
  {
    Name("Luau table key ref: " + TypeName(d.objects[key]) + " (" + key + ")")
  }

  function PairEdges(d: Dump, key: Option<Address>, value: Option<Address>): seq<Edge>
    requires key.Some? ==> key.value in d.objects
  {
    if key.None? && value.None? then []
    else if key.None? then [Edge(Property, Name("(Luau table key value type)"), value.value)]
    else if value.None? then [Edge(Internal, KeyRef(d, key.value), key.value)]
    else
      var o := d.objects[key.value];
      [Edge(Property, Name(if o.Str? then o.data else TypeName(o) + " (" + key.value + ")"), value.value),
       Edge(Internal, KeyRef(d, key.value), key.value)]
  }

  function PairsEdges(d: Dump, pairs: seq<(Option<Address>, Option<Address>)>): seq<Edge>
    requires forall p :: p in pairs && p.0.Some? ==> p.0.value in d.objects
  {
    if pairs == [] then []
    else PairsEdges(d, pairs[..|pairs| - 1]) + PairEdges(d, pairs[|pairs| - 1].0, pairs[|pairs| - 1].1)
  }

  function ArrayEdges(items: seq<Address>): seq<Edge> {
    seq(|items|, i requires 0 <= i < |items| => Edge(Element, Index(i), items[i]))
  }

  function OptionEdge(kind: EdgeKind, what: string, target: Option<Address>): seq<Edge> {
    if target.None? then [] else [Edge(kind, Name(what + " (" + target.value + ")"), target.value)]
  }

  function StackEdges(stack: seq<Address>): seq<Edge> {
    seq(|stack|, i requires 0 <= i < |stack| => Edge(Context, Name("callstack[" + Json.Decimal(i) + "]"), stack[i]))
  }

  function UpvalueEdges(upvalues: seq<Address>): seq<Edge> {
    seq(|upvalues|, i requires 0 <= i < |upvalues| => Edge(Context, Name("up value (" + upvalues[i] + ")"), upvalues[i]))
  }

  function PlainEdges(targets: seq<Address>): seq<Edge> {
    seq(|targets|, i requires 0 <= i < |targets| => Edge(Context, Name(targets[i]), targets[i]))
  }

  ghost predicate KeysKnown(d: Dump, o: Object) {
    o.Table? ==> forall p :: p in o.pairs && p.0.Some? ==> p.0.value in d.objects
  }

  /** The references of an object, in order. */
  function EdgesOf(d: Dump, o: Object): seq<Edge>
    requires KeysKnown(d, o)
  {
    match o
    case Table(_, pairs, array_, metatable) =>
      PairsEdges(d, pairs) + (ArrayEdges(array_) + OptionEdge(Internal, "metatable", metatable))
    case Thread(_, _, env, stack) => OptionEdge(Context, "env", env) + StackEdges(stack)
    case Function(_, _, env, proto, upvalues) =>
      OptionEdge(Context, "env", env) + OptionEdge(Context, "proto", proto) + UpvalueEdges(upvalues)
    case Upvalue(_, target) => OptionEdge(Context, "upvalue object", target)
    case Userdata(_, metatable) => OptionEdge(Internal, "metatable", metatable)
    case Proto(_, _, constants, protos) => PlainEdges(constants) + PlainEdges(protos)
    case _ => []
  }

  /** The keys are the objects, each once; the registry is one, and all references lead to objects. */
  ghost predicate Closed(d: Dump) {
    && Distinct(d.keys)
    && (forall a :: a in d.keys <==> a in d.objects)
    && d.registry in d.objects
    && forall a :: a in d.objects ==> KeysKnown(d, d.objects[a]) && forall e :: e in EdgesOf(d, d.objects[a]) ==> e.to in d.objects
  }

  // ----- addresses -----

  ghost predicate Inverse<T>(s: seq<T>, index: map<T, nat>) {
    && (forall i :: 0 <= i < |s| ==> s[i] in index && index[s[i]] == i)
    && (forall x :: x in index ==> index[x] < |s| && s[index[x]] == x)
  }

  /** `readAddresses`: the registry first, then the other objects in order. */
  method ReadAddresses(d: Dump) returns (addresses: seq<Address>, index: map<Address, nat>)
    requires Closed(d)
    ensures addresses != [] && addresses[0] == d.registry && Distinct(addresses) && Inverse(addresses, index)
    ensures forall a :: a in addresses <==> a in d.objects
  {
    addresses := [d.registry];
    index := map[d.registry := 0];
    for i := 0 to |d.keys|
      invariant addresses != [] && addresses[0] == d.registry && Inverse(addresses, index)
      invariant forall a :: a in index <==> a == d.registry || a in d.keys[..i]
    {
      var a := d.keys[i];
      assert d.keys[..i + 1] == d.keys[..i] + [a];
      if a != d.registry {
        assert a !in d.keys[..i];
        index := index[a := |addresses|];
        addresses := addresses + [a];
      }
    }
    assert d.keys[..|d.keys|] == d.keys;
    forall a ensures a in addresses <==> a in d.objects {
      if a in d.objects { assert addresses[index[a]] == a; }
    }
  }

  // ----- records -----

  /** What the label number of an edge stands for. */
  ghost predicate LabelCode(strings: seq<string>, tag: Label, code: int) {
    match tag
    case Name(name) => 0 <= code < |strings| && strings[code] == name
    case Index(index) => code == index
  }

  /** A group of three numbers that stands for an edge. */
  ghost predicate EdgeRecord(strings: seq<string>, index: map<Address, nat>, record: seq<int>, e: Edge) {
    && |record| == EDGE_FIELDS && e.to in index && (e.tag.Index? <==> e.kind.Element?)
    && record[0] == KindCode(e.kind) && LabelCode(strings, e.tag, record[1]) && record[2] == index[e.to] * NODE_FIELDS
  }

  /** A group of seven numbers that stands for an object with this many edges. */
  ghost predicate NodeRecord(strings: seq<string>, record: seq<int>, d: Dump, a: Address, id: int, o: Object, edgeCount: int) {
    && |record| == NODE_FIELDS
    && record[0] == NodeType(o) && 0 <= record[1] < |strings| && strings[record[1]] == NodeName(d, a, o)
    && record[2] == id && record[3] == o.size && record[4] == edgeCount && record[5] == 0 && record[6] == 0
  }

  /** Where edges must carry an index and where a name. */
  ghost predicate WellLabelled(edges: seq<Edge>) {
    forall i :: 0 <= i < |edges| ==> (edges[i].tag.Index? <==> edges[i].kind.Element?)
  }

  /** The lists under construction. */
  class Builder {
    const d: Dump
    const index: map<Address, nat>
    const uniqueId: Address -> int
    var nodes: seq<seq<int>>
    var edges: seq<seq<int>>
    var strings: seq<string>
    var stringIndex: map<string, nat>
    /** The edges that the records stand for. */
    ghost var emitted: seq<Edge>

    ghost predicate Valid()
      reads this
    {
      && Inverse(strings, stringIndex) && |emitted| == |edges|
      && forall k :: 0 <= k < |edges| ==> EdgeRecord(strings, index, edges[k], emitted[k])
    }

    constructor (d: Dump, index: map<Address, nat>, uniqueId: Address -> int)
      ensures Valid() && this.d == d && this.index == index && this.uniqueId == uniqueId
      ensures nodes == [] && edges == [] && strings == [] && emitted == []
    {
      this.d, this.index, this.uniqueId := d, index, uniqueId;
      nodes, edges, strings, stringIndex, emitted := [], [], [], map[], [];
    }

    /** `getStringSnapshotIndex`: strings are stored once. */
    method Intern(s: string) returns (i: nat)
      requires Valid()
      modifies this`strings, this`stringIndex
      ensures Valid() && old(strings) <= strings && i < |strings| && strings[i] == s
    {
      if s !in stringIndex {
        stringIndex := stringIndex[s := |strings|];
        strings := strings + [s];
        forall k | 0 <= k < |edges| ensures EdgeRecord(strings, index, edges[k], emitted[k]) {
          assert EdgeRecord(old(strings), index, edges[k], emitted[k]);
        }
      }
      i := stringIndex[s];
    }

    /** `addEdge`, with its label looked up and its target turned into a position of the flat list. */
    method AddEdge(e: Edge)
      requires Valid() && e.to in index && (e.tag.Index? <==> e.kind.Element?)
      modifies this`edges, this`strings, this`stringIndex, this`emitted
      ensures Valid() && old(strings) <= strings && emitted == old(emitted) + [e]
    {
      var code: int;
      match e.tag {
        case Name(name) => code := Intern(name);
        case Index(i) => code := i;
      }
      ghost var record := [KindCode(e.kind), code, index[e.to] * NODE_FIELDS];
      assert EdgeRecord(strings, index, record, e);
      edges := edges + [[KindCode(e.kind), code, index[e.to] * NODE_FIELDS]];
      emitted := emitted + [e];
    }

    method AddNode(a: Address, o: Object, name: string, edgeCount: int)
      requires Valid() && name == NodeName(d, a, o)
      modifies this`nodes, this`strings, this`stringIndex
      ensures Valid() && old(strings) <= strings && |nodes| == |old(nodes)| + 1 && nodes == old(nodes) + [nodes[|old(nodes)|]]
      ensures NodeRecord(strings, nodes[|old(nodes)|], d, a, uniqueId(a), o, edgeCount)
    {
      var i := Intern(name);
      nodes := nodes + [[NodeType(o), i, uniqueId(a), o.size, edgeCount, 0, 0]];
    }

    /** Edges in a row, counted. */
    method AddAll(list: seq<Edge>) returns (count: nat)
      requires Valid() && WellLabelled(list) && forall e :: e in list ==> e.to in index
      modifies this`edges, this`strings, this`stringIndex, this`emitted
      ensures Valid() && old(strings) <= strings && emitted == old(emitted) + list && count == |list|
    {
      count := 0;
      for i := 0 to |list|
        invariant Valid() && old(strings) <= strings && emitted == old(emitted) + list[..i] && count == i
      {
        assert list[i] in list;
        count := count + 1;
        AddEdge(list[i]);
        assert list[..i + 1] == list[..i] + [list[i]];
      }
      assert list[..|list|] == list;
    }

    /** The pairs of a table: up to two edges each, counted as they are added. */
    method EmitPairs(pairs: seq<(Option<Address>, Option<Address>)>) returns (edgeCount: nat)
      requires Valid() && (forall p :: p in pairs && p.0.Some? ==> p.0.value in d.objects)
      requires forall e :: e in PairsEdges(d, pairs) ==> e.to in index
      modifies this`edges, this`strings, this`stringIndex, this`emitted
      ensures Valid() && old(strings) <= strings && emitted == old(emitted) + PairsEdges(d, pairs) && edgeCount == |PairsEdges(d, pairs)|
    {
      edgeCount := 0;
      for i := 0 to |pairs|
        invariant forall p :: p in pairs[..i] && p.0.Some? ==> p.0.value in d.objects
        invariant Valid() && old(strings) <= strings && emitted == old(emitted) + PairsEdges(d, pairs[..i]) && edgeCount == |PairsEdges(d, pairs[..i])|
      {
        var (key, value) := pairs[i];
        assert pairs[i] in pairs;
        PairsStep(d, pairs, i);
        var n := EmitPair(key, value);
        edgeCount := edgeCount + n;
      }
      assert pairs[..|pairs|] == pairs;
    }

    method EmitPair(key: Option<Address>, value: Option<Address>) returns (edgeCount: nat)
      requires Valid() && (key.Some? ==> key.value in d.objects) && forall e :: e in PairEdges(d, key, value) ==> e.to in index
      modifies this`edges, this`strings, this`stringIndex, this`emitted
      ensures Valid() && old(strings) <= strings && emitted == old(emitted) + PairEdges(d, key, value) && edgeCount == |PairEdges(d, key, value)|
    {
      edgeCount := 0;
      ghost var all := PairEdges(d, key, value);
      assert forall k :: 0 <= k < |all| ==> all[k] in all;
      if key.None? && value.None? {
        return;
      } else if key.None? {
        edgeCount := edgeCount + 1;
        assert all[0].to == value.value;
        AddEdge(Edge(Property, Name("(Luau table key value type)"), value.value));
      } else if value.None? {
        edgeCount := edgeCount + 1;
        assert all[0].to == key.value;
        AddEdge(Edge(Internal, KeyRef(d, key.value), key.value));
      } else {
        var o := d.objects[key.value];
        assert all[0].to == value.value && all[1].to == key.value;
        edgeCount := edgeCount + 2;
        if o.Str? {
          AddEdge(Edge(Property, Name(o.data), value.value));
        } else {
          AddEdge(Edge(Property, Name(TypeName(o) + " (" + key.value + ")"), value.value));
        }
        AddEdge(Edge(Internal, KeyRef(d, key.value), key.value));
      }
    }

    /** The branch of an object: its edges, and then its node with their number. */
    method EmitObject(a: Address, o: Object, ghost own: seq<Edge>)
      requires Valid() && KeysKnown(d, o) && own == EdgesOf(d, o) && forall e :: e in own ==> e.to in index
      modifies this
      ensures Valid() && old(strings) <= strings && emitted == old(emitted) + own
      ensures |nodes| == |old(nodes)| + 1 && nodes == old(nodes) + [nodes[|old(nodes)|]]
      ensures NodeRecord(strings, nodes[|old(nodes)|], d, a, uniqueId(a), o, |own|)
    {
      var edgeCount := EmitEdges(o);
      AddNode(a, o, NodeName(d, a, o), edgeCount);
    }

    method EmitEdges(o: Object) returns (edgeCount: nat)
      requires Valid() && KeysKnown(d, o) && forall e :: e in EdgesOf(d, o) ==> e.to in index
      modifies this`edges, this`strings, this`stringIndex, this`emitted
      ensures Valid() && old(strings) <= strings && emitted == old(emitted) + EdgesOf(d, o) && edgeCount == |EdgesOf(d, o)|
    {
      edgeCount := 0;
      match o
      case Table(_, pairs, array_, metatable) =>
        ghost var p, q := PairsEdges(d, pairs), ArrayEdges(array_) + OptionEdge(Internal, "metatable", metatable);
        assert forall e :: e in p || e in q ==> e in p + q;
        edgeCount := EmitTable(pairs, array_, metatable);
      case Thread(_, _, env, stack) =>
        edgeCount := AddBoth(OptionEdge(Context, "env", env), StackEdges(stack));
      case Function(_, _, env, proto, upvalues) =>
        edgeCount := AddBoth(OptionEdge(Context, "env", env) + OptionEdge(Context, "proto", proto), UpvalueEdges(upvalues));
      case Upvalue(_, target) => edgeCount := AddAll(OptionEdge(Context, "upvalue object", target));
      case Userdata(_, metatable) => edgeCount := AddAll(OptionEdge(Internal, "metatable", metatable));
      case Proto(_, _, constants, protos) => edgeCount := AddBoth(PlainEdges(constants), PlainEdges(protos));
      case _ =>
    }

    method EmitTable(pairs: seq<(Option<Address>, Option<Address>)>, array_: seq<Address>, metatable: Option<Address>)
      returns (edgeCount: nat)
      requires Valid() && forall p :: p in pairs && p.0.Some? ==> p.0.value in d.objects
      requires forall e :: e in PairsEdges(d, pairs) ==> e.to in index
      requires forall e :: e in ArrayEdges(array_) + OptionEdge(Internal, "metatable", metatable) ==> e.to in index
      modifies this`edges, this`strings, this`stringIndex, this`emitted
      ensures Valid() && old(strings) <= strings
      ensures var p, q := PairsEdges(d, pairs), ArrayEdges(array_) + OptionEdge(Internal, "metatable", metatable);
              emitted == old(emitted) + (p + q) && edgeCount == |p| + |q|
    {
      edgeCount := EmitPairs(pairs);
      var more := AddBoth(ArrayEdges(array_), OptionEdge(Internal, "metatable", metatable));
      edgeCount := edgeCount + more;
      Regroup(old(emitted), PairsEdges(d, pairs), ArrayEdges(array_) + OptionEdge(Internal, "metatable", metatable));
    }

    method AddBoth(first: seq<Edge>, second: seq<Edge>) returns (count: nat)
      requires Valid() && WellLabelled(first) && WellLabelled(second) && forall e :: e in first + second ==> e.to in index
      modifies this`edges, this`strings, this`stringIndex, this`emitted
      ensures Valid() && old(strings) <= strings && emitted == old(emitted) + (first + second) && count == |first + second|
    {
      assert forall e :: e in first || e in second ==> e in first + second;
      count := AddAll(first);
      var more := AddAll(second);
      count := count + more;
      Regroup(old(emitted), first, second);
    }
  }

  lemma {:induction false} Regroup(a: seq<Edge>, b: seq<Edge>, c: seq<Edge>)
    ensures a + b + c == a + (b + c)
  {
  }

  lemma {:induction false} PairsStep(d: Dump, pairs: seq<(Option<Address>, Option<Address>)>, i: nat)
    requires i < |pairs| && forall p :: p in pairs && p.0.Some? ==> p.0.value in d.objects
    ensures (forall p :: p in pairs[..i + 1] && p.0.Some? ==> p.0.value in d.objects)
            && pairs[i] in pairs && PairsEdges(d, pairs[..i + 1]) == PairsEdges(d, pairs[..i]) + PairEdges(d, pairs[i].0, pairs[i].1)
    ensures forall e :: e in PairEdges(d, pairs[i].0, pairs[i].1) ==> e in PairsEdges(d, pairs)
  {
    assert pairs[..i + 1][..i] == pairs[..i];
    PairsPrefix(d, pairs, i + 1);
  }

  lemma {:induction false} PairsPrefix(d: Dump, pairs: seq<(Option<Address>, Option<Address>)>, i: nat)
    requires i <= |pairs| && forall p :: p in pairs && p.0.Some? ==> p.0.value in d.objects
    ensures (forall p :: p in pairs[..i] && p.0.Some? ==> p.0.value in d.objects)
            && forall e :: e in PairsEdges(d, pairs[..i]) ==> e in PairsEdges(d, pairs)
    decreases |pairs|
  {
    if i == |pairs| {
      assert pairs[..i] == pairs;
    } else {
      var front := pairs[..|pairs| - 1];
      PairsPrefix(d, front, i);
      assert front[..i] == pairs[..i];
    }
  }

  // ----- the references, told from the fields of an object -----

  /** The name under which the value of a pair is found. */
  ghost predicate ValueName(d: Dump, key: Option<Address>, name: string) {
    match key
    case None => name == "(Luau table key value type)"
    case Some(k) =>
      k in d.objects &&
      match d.objects[k]
      case Str(_, data) => name == data
      case o => name == TypeName(o) + " (" + k + ")"
  }

  /** A pair refers to its value as a property and to its key internally. */
  ghost predicate PairRefers(d: Dump, pair: (Option<Address>, Option<Address>), e: Edge) {
    && e.tag.Name?
    && ((e.kind == Property && pair.1 == Some(e.to) && ValueName(d, pair.0, e.tag.name))
        || (e.kind == Internal && pair.0 == Some(e.to) && e.to in d.objects
            && e.tag.name == "Luau table key ref: " + TypeName(d.objects[e.to]) + " (" + e.to + ")"))
  }

  ghost predicate OneRefers(d: Dump, pairs: seq<(Option<Address>, Option<Address>)>, e: Edge) {
    exists i :: 0 <= i < |pairs| && PairRefers(d, pairs[i], e)
  }

  ghost predicate Called(e: Edge, kind: EdgeKind, what: string) {
    e.kind == kind && e.tag == Name(what + " (" + e.to + ")")
  }

  /** An object refers to another: which fields do, as what kind of reference, and under what label. */
  ghost predicate Refers(d: Dump, o: Object, e: Edge) {
    match o
    case Table(_, pairs, array_, metatable) =>
      || OneRefers(d, pairs, e)
      || (e.kind == Element && e.tag.Index? && e.tag.index < |array_| && array_[e.tag.index] == e.to)
      || (metatable == Some(e.to) && Called(e, Internal, "metatable"))
    case Thread(_, _, env, stack) =>
      || (env == Some(e.to) && Called(e, Context, "env"))
      || (exists i :: 0 <= i < |stack| && stack[i] == e.to && e.kind == Context && e.tag == Name("callstack[" + Json.Decimal(i) + "]"))
    case Function(_, _, env, proto, upvalues) =>
      || (env == Some(e.to) && Called(e, Context, "env"))
      || (proto == Some(e.to) && Called(e, Context, "proto"))
      || (e.to in upvalues && Called(e, Context, "up value"))
    case Upvalue(_, target) => target == Some(e.to) && Called(e, Context, "upvalue object")
    case Userdata(_, metatable) => metatable == Some(e.to) && Called(e, Internal, "metatable")
    case Proto(_, _, constants, protos) => (e.to in constants || e.to in protos) && e.kind == Context && e.tag == Name(e.to)
    case _ => false
  }

  /** The edges of an object are its references, no more and no fewer. */
  lemma {:induction false} EdgesAreReferences(d: Dump, o: Object, e: Edge)
    requires KeysKnown(d, o)
    ensures e in EdgesOf(d, o) <==> Refers(d, o, e)
  {
    match o
    case Table(_, pairs, array_, metatable) =>
      PairsRefer(d, pairs, e);
      ArrayRefers(array_, e);
      InBoth(PairsEdges(d, pairs), ArrayEdges(array_) + OptionEdge(Internal, "metatable", metatable), e);
      InBoth(ArrayEdges(array_), OptionEdge(Internal, "metatable", metatable), e);
    case Thread(_, _, env, stack) =>
      StackRefers(stack, e);
    case Function(_, _, env, proto, upvalues) =>
      UpvaluesRefer(upvalues, e);
    case Proto(_, _, constants, protos) =>
      PlainRefer(constants, e);
      PlainRefer(protos, e);
    case _ =>
  }

  function Given(a: Option<Address>): nat {
    if a.Some? then 1 else 0
  }

  function GivenInPairs(pairs: seq<(Option<Address>, Option<Address>)>): nat {
    if pairs == [] then 0
    else GivenInPairs(pairs[..|pairs| - 1]) + Given(pairs[|pairs| - 1].0) + Given(pairs[|pairs| - 1].1)
  }

  /** How many addresses the fields of an object give. */
  function GivenIn(o: Object): nat {
    match o
    case Table(_, pairs, array_, metatable) => GivenInPairs(pairs) + |array_| + Given(metatable)
    case Thread(_, _, env, stack) => Given(env) + |stack|
    case Function(_, _, env, proto, upvalues) => Given(env) + Given(proto) + |upvalues|
    case Upvalue(_, target) => Given(target)
    case Userdata(_, metatable) => Given(metatable)
    case Proto(_, _, constants, protos) => |constants| + |protos|
    case _ => 0
  }

  /** There is one edge for every address given. */
  lemma {:induction false} OneEdgeEach(d: Dump, o: Object)
    requires KeysKnown(d, o)
    ensures |EdgesOf(d, o)| == GivenIn(o)
  {
    if o.Table? {
      PairsGive(d, o.pairs);
    }
  }

  lemma {:induction false} PairsGive(d: Dump, pairs: seq<(Option<Address>, Option<Address>)>)
    requires forall p :: p in pairs && p.0.Some? ==> p.0.value in d.objects
    ensures |PairsEdges(d, pairs)| == GivenInPairs(pairs)
  {
    if pairs != [] {
      PairsGive(d, pairs[..|pairs| - 1]);
    }
  }

  lemma {:induction false} InBoth(a: seq<Edge>, b: seq<Edge>, e: Edge)
    ensures e in a + b <==> e in a || e in b
  {
  }

  lemma {:induction false} PairsRefer(d: Dump, pairs: seq<(Option<Address>, Option<Address>)>, e: Edge)
    requires forall p :: p in pairs && p.0.Some? ==> p.0.value in d.objects
    ensures e in PairsEdges(d, pairs) <==> OneRefers(d, pairs, e)
  {
    if pairs != [] {
      var front, last := pairs[..|pairs| - 1], pairs[|pairs| - 1];
      PairsRefer(d, front, e);
      assert last in pairs;
      PairRefersIs(d, last, e);
      InBoth(PairsEdges(d, front), PairEdges(d, last.0, last.1), e);
      OneMoreRefers(d, front, last, e);
      assert pairs == front + [last];
    }
  }

  lemma {:induction false} OneMoreRefers(d: Dump, front: seq<(Option<Address>, Option<Address>)>, last: (Option<Address>, Option<Address>), e: Edge)
    ensures OneRefers(d, front + [last], e) <==> OneRefers(d, front, e) || PairRefers(d, last, e)
  {
    var all := front + [last];
    assert all[|front|] == last && forall i :: 0 <= i < |front| ==> all[i] == front[i];
  }

  lemma {:induction false} PairRefersIs(d: Dump, pair: (Option<Address>, Option<Address>), e: Edge)
    requires pair.0.Some? ==> pair.0.value in d.objects
    ensures e in PairEdges(d, pair.0, pair.1) <==> PairRefers(d, pair, e)
  {
  }

  lemma {:induction false} ArrayRefers(array_: seq<Address>, e: Edge)
    ensures e in ArrayEdges(array_) <==> e.kind == Element && e.tag.Index? && e.tag.index < |array_| && array_[e.tag.index] == e.to
  {
    if e.tag.Index? && e.tag.index < |array_| {
      assert ArrayEdges(array_)[e.tag.index] == Edge(Element, e.tag, array_[e.tag.index]);
    }
  }

  lemma {:induction false} StackRefers(stack: seq<Address>, e: Edge)
    ensures e in StackEdges(stack) <==>
            exists i :: 0 <= i < |stack| && stack[i] == e.to && e.kind == Context && e.tag == Name("callstack[" + Json.Decimal(i) + "]")
  {
    if i :| 0 <= i < |stack| && stack[i] == e.to && e.kind == Context && e.tag == Name("callstack[" + Json.Decimal(i) + "]") {
      assert StackEdges(stack)[i] == e;
    }
  }

  lemma {:induction false} UpvaluesRefer(upvalues: seq<Address>, e: Edge)
    ensures e in UpvalueEdges(upvalues) <==> e.to in upvalues && Called(e, Context, "up value")
  {
    if i :| 0 <= i < |upvalues| && upvalues[i] == e.to && Called(e, Context, "up value") {
      assert UpvalueEdges(upvalues)[i] == e;
    }
  }

  lemma {:induction false} PlainRefer(targets: seq<Address>, e: Edge)
    ensures e in PlainEdges(targets) <==> e.to in targets && e.kind == Context && e.tag == Name(e.to)
  {
    if i :| 0 <= i < |targets| && targets[i] == e.to && e.kind == Context && e.tag == Name(e.to) {
      assert PlainEdges(targets)[i] == e;
    }
  }

  // ----- the records, read through the header -----

  const NODE_FIELD_NAMES: seq<string> := ["type", "name", "id", "self_size", "edge_count", "trace_node_id", "detachedness"]
  const NODE_TYPES: seq<string> := ["hidden", "array", "string", "object", "code", "closure", "regexp", "number", "native",
                                    "synthetic", "concatenated string", "sliced string", "symbol", "bigint", "object shape"]
  const EDGE_TYPES: seq<string> := ["context", "element", "property", "internal", "hidden", "shortcut", "weak"]

  /** The header's name of a kind of edge. */
  ghost predicate KindName(k: EdgeKind, name: string) {
    match k
    case Context => name == "context" case Element => name == "element"
    case Property => name == "property" case Internal => name == "internal"
  }

  lemma {:induction false} KindIsInHeader(k: EdgeKind)
    ensures 0 <= KindCode(k) < |EDGE_TYPES| && KindName(k, EDGE_TYPES[KindCode(k)]) && ReadKind(KindCode(k)) == Some(k)
  {
  }

  /** The type of an object, as the header's name of the type of its node and its own name tell it. */
  function ReadType(nodeType: string, name: string): string {
    if nodeType == "object" then "table" else if nodeType == "closure" then "function"
    else if nodeType == "code" then "proto" else if nodeType == "string" then "string"
    else if nodeType != "native" then "unknown"
    else if "Luau t" <= name then "thread" else if "Luau up" <= name then "upvalue"
    else if "Luau us" <= name then "userdata" else "buffer"
  }

  /** The text behind the last opening parenthesis. */
  function BehindParen(s: string): string {
    if s == "" || s[|s| - 1] == '(' then "" else BehindParen(s[..|s| - 1]) + [s[|s| - 1]]
  }

  function LastGroup(name: string): string {
    if name == "" then "" else BehindParen(name[..|name| - 1])
  }

  /** The address in the name of a node. */
  function AddressIn(name: string): string {
    if LastGroup(name) == "main thread" && |" (main thread)"| <= |name| then LastGroup(name[..|name| - |" (main thread)"|])
    else LastGroup(name)
  }

  lemma {:induction false} BehindLast(front: string, a: string)
    requires '(' !in a
    ensures BehindParen(front + "(" + a) == a
  {
    var s := front + "(" + a;
    if a != "" {
      BehindLast(front, a[..|a| - 1]);
      assert s[..|s| - 1] == front + "(" + a[..|a| - 1];
    }
  }

  lemma {:induction false} LastGroupIs(front: string, a: string)
    requires '(' !in a
    ensures LastGroup(front + "(" + a + ")") == a
  {
    BehindLast(front, a);
    var s := front + "(" + a + ")";
    assert s[..|s| - 1] == front + "(" + a;
  }

  /** Addresses are written without parentheses and spaces. */
  predicate Plain(a: Address) {
    '(' !in a && ' ' !in a
  }

  lemma {:induction false} AddressBehind(front: string, a: Address, main: bool)
    requires Plain(a)
    ensures AddressIn(front + "(" + a + ")" + if main then " (main thread)" else "") == a
  {
    var name := front + "(" + a + ")";
    LastGroupIs(front, a);
    assert a != "main thread" by {
      assert "main thread"[4] == ' ';
    }
    if main {
      LastGroupIs(name + " ", "main thread");
      assert name + " (main thread)" == name + " " + "(" + "main thread" + ")";
      assert (name + " (main thread)")[..|name|] == name;
    } else {
      assert name + "" == name;
    }
  }

  /** Whatever comes behind `word`, a prefix with another letter at position `i` is not one of the text. */
  lemma {:induction false} OtherPrefix(prefix: string, word: string, rest: string, i: nat)
    requires i < |prefix| && i < |word| && prefix[i] != word[i]
    ensures !(prefix <= word + rest)
  {
    assert (word + rest)[i] == word[i];
  }

  lemma {:induction false} NativeTells(d: Dump, a: Address, o: Object)
    requires o.Thread? || o.Upvalue? || o.Userdata? || o.Buffer?
    ensures ReadType("native", NodeName(d, a, o)) == TypeName(o)
  {
    var rest := a + ")";
    match o
    case Thread(_, _, _, _) =>
      assert "Luau t" <= NodeName(d, a, o);
    case Upvalue(_, _) =>
      assert NodeName(d, a, o) == "Luau upvalue (" + rest;
      OtherPrefix("Luau t", "Luau upvalue (", rest, 5);
    case Userdata(_, _) =>
      assert NodeName(d, a, o) == "Luau userdata (" + rest;
      OtherPrefix("Luau t", "Luau userdata (", rest, 5);
      OtherPrefix("Luau up", "Luau userdata (", rest, 6);
    case Buffer(_) =>
      assert NodeName(d, a, o) == "buffer (" + rest;
      OtherPrefix("Luau t", "buffer (", rest, 0);
      OtherPrefix("Luau up", "buffer (", rest, 0);
      OtherPrefix("Luau us", "buffer (", rest, 0);
  }

  /** The type of a node and its name tell the type of its object. */
  lemma {:induction false} TypeTells(d: Dump, a: Address, o: Object)
    ensures 0 <= NodeType(o) < |NODE_TYPES| && ReadType(NODE_TYPES[NodeType(o)], NodeName(d, a, o)) == TypeName(o)
  {
    if o.Thread? || o.Upvalue? || o.Userdata? || o.Buffer? {
      NativeTells(d, a, o);
    }
  }

  /** The address in a thread's name. */
  lemma {:induction false} ThreadTells(d: Dump, a: Address, o: Object)
    requires Plain(a) && o.Thread?
    ensures AddressIn(NodeName(d, a, o)) == a
  {
    var front := if o.place.Some? then "Luau thread: " + PlaceText(o.place.value) + " " else "Luau thread ";
    var name := front + "(" + a + ")" + if a == d.mainthread then " (main thread)" else "";
    assert name == NodeName(d, a, o);
    AddressBehind(front, a, a == d.mainthread);
  }

  lemma {:induction false} OtherTells(front: string, a: Address, name: string)
    requires Plain(a) && name == front + "(" + a + ")"
    ensures AddressIn(name) == a
  {
    AddressBehind(front, a, false);
    assert front + "(" + a + ")" + "" == name;
  }

  /** The name of a node tells which object it is. */
  lemma {:induction false} NameTells(d: Dump, a: Address, o: Object)
    requires Plain(a)
    ensures if o.Str? then NodeName(d, a, o) == o.data else AddressIn(NodeName(d, a, o)) == a
  {
    var name := NodeName(d, a, o);
    match o
    case Table(_, _, _, _) => OtherTells(if a == d.registry then "Registry " else "Luau table ", a, name);
    case Thread(_, _, _, _) => ThreadTells(d, a, o);
    case Function(_, called, _, _, _) =>
      OtherTells(if called.Some? then "Luau function: " + called.value + " " else "Luau anonymous function ", a, name);
    case Upvalue(_, _) => OtherTells("Luau upvalue ", a, name);
    case Userdata(_, _) => OtherTells("Luau userdata ", a, name);
    case Proto(_, place, _, _) =>
      OtherTells(if place.Some? then "Luau proto: " + PlaceText(place.value) + " " else "Luau proto ", a, name);
    case Str(_, _) =>
    case Buffer(_) => OtherTells("buffer ", a, name);
  }

  /** What a field of a node's record means, by the field's name in the header. */
  ghost predicate FieldTells(field: string, value: int, strings: seq<string>, a: Address, id: int, o: Object, edgeCount: int) {
    && (field == "type" ==> 0 <= value < |NODE_TYPES|)
    && (field == "name" ==> 0 <= value < |strings| && if o.Str? then strings[value] == o.data else AddressIn(strings[value]) == a)
    && (field == "id" ==> value == id)
    && (field == "self_size" ==> value == o.size)
    && (field == "edge_count" ==> value == edgeCount)
    && (field == "trace_node_id" || field == "detachedness" ==> value == 0)
  }

  lemma {:induction false} FieldsTell(strings: seq<string>, record: seq<int>, d: Dump, a: Address, id: int, o: Object, edgeCount: int)
    requires NodeRecord(strings, record, d, a, id, o, edgeCount) && Plain(a)
    ensures |record| == |NODE_FIELD_NAMES| &&
            forall i :: 0 <= i < |record| ==> FieldTells(NODE_FIELD_NAMES[i], record[i], strings, a, id, o, edgeCount)
    ensures ReadType(NODE_TYPES[record[0]], strings[record[1]]) == TypeName(o)
  {
    TypeTells(d, a, o);
    NameTells(d, a, o);
  }

  // ----- flat lists -----

  function Flat(groups: seq<seq<int>>): seq<int> {
    if groups == [] then [] else Flat(groups[..|groups| - 1]) + groups[|groups| - 1]
  }

  /** Groups of equal size sit at the multiples of that size. */
  lemma {:induction false} FlatAt(groups: seq<seq<int>>, n: nat, i: nat)
    requires (forall j :: 0 <= j < |groups| ==> |groups[j]| == n) && i <= |groups|
    ensures |Flat(groups)| == |groups| * n
    ensures i < |groups| ==> 0 <= i * n <= i * n + n <= |groups| * n && Flat(groups)[i * n..i * n + n] == groups[i]
    decreases |groups|
  {
    if groups != [] {
      var m := |groups| - 1;
      Multiples(i, m, n);
      FlatAt(groups[..m], n, if i < m then i else m);
      if i < m {
        assert Flat(groups)[i * n..i * n + n] == Flat(groups[..m])[i * n..i * n + n];
      }
    }
  }

  lemma {:induction false} Multiples(i: nat, m: nat, n: nat)
    ensures (m + 1) * n == m * n + n && 0 <= i * n && (i < m ==> i * n + n <= m * n)
  {
    if i < m {
      assert (m - i - 1) * n >= 0;
    }
  }

  datatype Snapshot = Snapshot(nodes: seq<int>, edges: seq<int>, strings: seq<string>)

  // ----- reading a snapshot -----

  function EdgeCount(s: Snapshot, i: nat): int {
    if i * NODE_FIELDS + 4 < |s.nodes| then s.nodes[i * NODE_FIELDS + 4] else 0
  }

  /** The edges of a node begin where those of the earlier nodes end. */
  function EdgeStart(s: Snapshot, i: nat): int {
    if i == 0 then 0 else EdgeStart(s, i - 1) + EdgeCount(s, i - 1)
  }

  function ReadLabel(s: Snapshot, kind: int, code: int): Option<Label> {
    if kind == 1 then (if code >= 0 then Some(Index(code)) else None)
    else if 0 <= code < |s.strings| then Some(Name(s.strings[code]))
    else None
  }

  function ReadKind(kind: int): Option<EdgeKind> {
    if kind == 0 then Some(Context) else if kind == 1 then Some(Element)
    else if kind == 2 then Some(Property) else if kind == 3 then Some(Internal) else None
  }

  /** The edge in the group at a position; targets are positions in the flat list of nodes. */
  function ReadEdge(s: Snapshot, addresses: seq<Address>, position: int): Option<Edge> {
    var p := position * EDGE_FIELDS;
    if p < 0 || p + 2 >= |s.edges| then None
    else
      var kind, tag, to := ReadKind(s.edges[p]), ReadLabel(s, s.edges[p], s.edges[p + 1]), s.edges[p + 2];
      if kind.None? || tag.None? || to < 0 || to % NODE_FIELDS != 0 || to / NODE_FIELDS >= |addresses| then None
      else Some(Edge(kind.value, tag.value, addresses[to / NODE_FIELDS]))
  }

  /** The references of the i-th node, read back from the numbers alone. */
  function ReadEdges(s: Snapshot, addresses: seq<Address>, i: nat): seq<Option<Edge>> {
    seq(if EdgeCount(s, i) < 0 then 0 else EdgeCount(s, i), k requires k >= 0 => ReadEdge(s, addresses, EdgeStart(s, i) + k))
  }

  /** The groups of numbers of the first `n` nodes. */
  function NodeGroups(s: Snapshot, n: nat): seq<seq<int>>
    requires n * NODE_FIELDS <= |s.nodes|
  {
    seq(n, i requires 0 <= i < n => s.nodes[i * NODE_FIELDS..i * NODE_FIELDS + NODE_FIELDS])
  }

  lemma {:induction false} GroupsRead(nodes: seq<seq<int>>, s: Snapshot)
    requires s.nodes == Flat(nodes) && forall j :: 0 <= j < |nodes| ==> |nodes[j]| == NODE_FIELDS
    ensures |s.nodes| == |nodes| * NODE_FIELDS && NodeGroups(s, |nodes|) == nodes
  {
    FlatAt(nodes, NODE_FIELDS, |nodes|);
    forall i | 0 <= i < |nodes| ensures s.nodes[i * NODE_FIELDS..i * NODE_FIELDS + NODE_FIELDS] == nodes[i] {
      FlatAt(nodes, NODE_FIELDS, i);
    }
  }

  function AllSome(edges: seq<Edge>): seq<Option<Edge>> {
    seq(|edges|, k requires 0 <= k < |edges| => Some(edges[k]))
  }

  // ----- the conversion -----

  ghost function Concat(lists: seq<seq<Edge>>): seq<Edge> {
    if lists == [] then [] else Concat(lists[..|lists| - 1]) + lists[|lists| - 1]
  }

  lemma {:induction false} ConcatStep(lists: seq<seq<Edge>>, i: nat)
    requires i < |lists|
    ensures Concat(lists[..i + 1]) == Concat(lists[..i]) + lists[i]
  {
    assert lists[..i + 1][..i] == lists[..i];
  }

  /** The edges of the i-th list within those of the first `m`. */
  lemma {:induction false} ConcatWithin(lists: seq<seq<Edge>>, i: nat, m: nat)
    requires i < m <= |lists|
    ensures var start, all := |Concat(lists[..i])|, Concat(lists[..m]);
            start + |lists[i]| <= |all| && all[start..start + |lists[i]|] == lists[i]
    decreases m
  {
    ConcatStep(lists, m - 1);
    if i < m - 1 {
      ConcatWithin(lists, i, m - 1);
      var start, some, all := |Concat(lists[..i])|, Concat(lists[..m - 1]), Concat(lists[..m]);
      assert all[start..start + |lists[i]|] == some[start..start + |lists[i]|];
    }
  }

  lemma {:induction false} StartIs(lists: seq<seq<Edge>>, s: Snapshot, i: nat)
    requires i <= |lists| && forall j :: 0 <= j < |lists| ==> EdgeCount(s, j) == |lists[j]|
    ensures EdgeStart(s, i) == |Concat(lists[..i])|
  {
    if i > 0 {
      StartIs(lists, s, i - 1);
      ConcatStep(lists, i - 1);
    }
  }

  /** Reading one record back. */
  lemma {:induction false} RecordReads(s: Snapshot, addresses: seq<Address>, index: map<Address, nat>, record: seq<int>, e: Edge, k: nat)
    requires Inverse(addresses, index) && EdgeRecord(s.strings, index, record, e)
    requires k * EDGE_FIELDS + 2 < |s.edges| && s.edges[k * EDGE_FIELDS..k * EDGE_FIELDS + 3] == record
    ensures ReadEdge(s, addresses, k) == Some(e)
  {
    var p := k * EDGE_FIELDS;
    var group := s.edges[p..p + 3];
    assert s.edges[p] == group[0] && s.edges[p + 1] == group[1] && s.edges[p + 2] == group[2];
    assert index[e.to] * 7 / 7 == index[e.to];
  }

  /** Node and edge records for lists of edges, before they are flattened. */
  ghost predicate Built(lists: seq<seq<Edge>>, index: map<Address, nat>, nodes: seq<seq<int>>, edges: seq<seq<int>>, strings: seq<string>) {
    && |nodes| == |lists| && (forall i :: 0 <= i < |nodes| ==> |nodes[i]| == NODE_FIELDS && nodes[i][4] == |lists[i]|)
    && |edges| == |Concat(lists)| && (forall k :: 0 <= k < |edges| ==> EdgeRecord(strings, index, edges[k], Concat(lists)[k]))
  }

  lemma {:induction false} CountsRead(lists: seq<seq<Edge>>, index: map<Address, nat>, nodes: seq<seq<int>>, edges: seq<seq<int>>, strings: seq<string>, j: nat)
    requires Built(lists, index, nodes, edges, strings) && j < |lists|
    ensures EdgeCount(Snapshot(Flat(nodes), Flat(edges), strings), j) == |lists[j]|
  {
    FlatAt(nodes, NODE_FIELDS, j);
    assert Flat(nodes)[j * NODE_FIELDS..j * NODE_FIELDS + NODE_FIELDS][4] == Flat(nodes)[j * NODE_FIELDS + 4];
  }

  lemma {:induction false} EdgeReads(lists: seq<seq<Edge>>, addresses: seq<Address>, index: map<Address, nat>,
                                     nodes: seq<seq<int>>, edges: seq<seq<int>>, strings: seq<string>, q: nat)
    requires Inverse(addresses, index) && Built(lists, index, nodes, edges, strings) && q < |Concat(lists)|
    ensures ReadEdge(Snapshot(Flat(nodes), Flat(edges), strings), addresses, q) == Some(Concat(lists)[q])
  {
    forall k | 0 <= k < |edges| ensures |edges[k]| == EDGE_FIELDS {
      assert EdgeRecord(strings, index, edges[k], Concat(lists)[k]);
    }
    FlatAt(edges, EDGE_FIELDS, q);
    RecordReads(Snapshot(Flat(nodes), Flat(edges), strings), addresses, index, edges[q], Concat(lists)[q], q);
  }

  /** The flat snapshot of built lists reads back as those lists. */
  lemma {:induction false} FlatReads(lists: seq<seq<Edge>>, addresses: seq<Address>, index: map<Address, nat>,
                                     nodes: seq<seq<int>>, edges: seq<seq<int>>, strings: seq<string>, i: nat)
    requires Inverse(addresses, index) && Built(lists, index, nodes, edges, strings) && i < |lists|
    ensures ReadEdges(Snapshot(Flat(nodes), Flat(edges), strings), addresses, i) == AllSome(lists[i])
  {
    var s := Snapshot(Flat(nodes), Flat(edges), strings);
    forall j | 0 <= j < |lists| ensures EdgeCount(s, j) == |lists[j]| {
      CountsRead(lists, index, nodes, edges, strings, j);
    }
    StartIs(lists, s, i);
    OwnEdgesRead(lists, addresses, index, nodes, edges, strings, i);
  }

  lemma {:induction false} OwnEdgesRead(lists: seq<seq<Edge>>, addresses: seq<Address>, index: map<Address, nat>,
                                        nodes: seq<seq<int>>, edges: seq<seq<int>>, strings: seq<string>, i: nat)
    requires Inverse(addresses, index) && Built(lists, index, nodes, edges, strings) && i < |lists|
    ensures forall k :: 0 <= k < |lists[i]| ==>
              ReadEdge(Snapshot(Flat(nodes), Flat(edges), strings), addresses, |Concat(lists[..i])| + k) == Some(lists[i][k])
  {
    ConcatWithin(lists, i, |lists|);
    assert lists[..|lists|] == lists;
    var start, all := |Concat(lists[..i])|, Concat(lists);
    forall k | 0 <= k < |lists[i]|
      ensures ReadEdge(Snapshot(Flat(nodes), Flat(edges), strings), addresses, start + k) == Some(lists[i][k])
    {
      assert all[start..start + |lists[i]|][k] == all[start + k];
      EdgeReads(lists, addresses, index, nodes, edges, strings, start + k);
    }
  }

  ghost predicate Known(d: Dump, addresses: seq<Address>) {
    forall i :: 0 <= i < |addresses| ==> addresses[i] in d.objects && KeysKnown(d, d.objects[addresses[i]])
  }

  /** The reference lists of the objects, in the order of their nodes. */
  function References(d: Dump, addresses: seq<Address>): seq<seq<Edge>>
    requires Known(d, addresses)
  {
    seq(|addresses|, i requires 0 <= i < |addresses| => EdgesOf(d, d.objects[addresses[i]]))
  }

  /** The first records stand for the first objects. */
  ghost predicate NodesDone(d: Dump, addresses: seq<Address>, lists: seq<seq<Edge>>, uniqueId: Address -> int,
                            strings: seq<string>, nodes: seq<seq<int>>)
    requires Known(d, addresses) && |lists| == |addresses|
  {
    |nodes| <= |addresses| &&
    forall i :: 0 <= i < |nodes| ==>
      NodeRecord(strings, nodes[i], d, addresses[i], uniqueId(addresses[i]), d.objects[addresses[i]], |lists[i]|)
  }

  lemma {:induction false} NodesStep(d: Dump, addresses: seq<Address>, lists: seq<seq<Edge>>, uniqueId: Address -> int,
                                     strings: seq<string>, strings': seq<string>, nodes: seq<seq<int>>, record: seq<int>)
    requires Known(d, addresses) && |lists| == |addresses| && NodesDone(d, addresses, lists, uniqueId, strings, nodes)
    requires strings <= strings' && |nodes| < |addresses|
    requires var i := |nodes|; NodeRecord(strings', record, d, addresses[i], uniqueId(addresses[i]), d.objects[addresses[i]], |lists[i]|)
    ensures NodesDone(d, addresses, lists, uniqueId, strings', nodes + [record])
  {
    var nodes' := nodes + [record];
    forall i | 0 <= i < |nodes'| ensures
      NodeRecord(strings', nodes'[i], d, addresses[i], uniqueId(addresses[i]), d.objects[addresses[i]], |lists[i]|)
    {
      if i < |nodes| {
        assert NodeRecord(strings, nodes[i], d, addresses[i], uniqueId(addresses[i]), d.objects[addresses[i]], |lists[i]|);
      }
    }
  }

  ghost predicate TargetsIn(lists: seq<seq<Edge>>, index: map<Address, nat>) {
    forall i :: 0 <= i < |lists| ==> EndsIn(lists[i], index)
  }

  ghost predicate EndsIn(list: seq<Edge>, index: map<Address, nat>) {
    forall e :: e in list ==> e.to in index
  }

  /** In a closed dump every reference has a node to lead to. */
  lemma {:induction false} TargetsKnown(d: Dump, addresses: seq<Address>, index: map<Address, nat>)
    requires Closed(d) && Inverse(addresses, index) && forall a :: a in addresses <==> a in d.objects
    ensures Known(d, addresses) && TargetsIn(References(d, addresses), index)
  {
    forall j | 0 <= j < |addresses| ensures addresses[j] in d.objects && KeysKnown(d, d.objects[addresses[j]]) {
      assert addresses[j] in addresses;
    }
    var lists := References(d, addresses);
    forall i, e: Edge | 0 <= i < |lists| && e in lists[i] ensures e.to in index {
      assert e.to in addresses;
    }
  }

  /** The loop over the addresses. */
  method Build(d: Dump, addresses: seq<Address>, ghost lists: seq<seq<Edge>>, index: map<Address, nat>, uniqueId: Address -> int)
    returns (nodes: seq<seq<int>>, edges: seq<seq<int>>, strings: seq<string>)
    requires Known(d, addresses) && lists == References(d, addresses) && TargetsIn(lists, index)
    ensures Built(lists, index, nodes, edges, strings) && Distinct(strings)
    ensures |nodes| == |addresses| && NodesDone(d, addresses, lists, uniqueId, strings, nodes)
  {
    var b := new Builder(d, index, uniqueId);
    for i := 0 to |addresses|
      invariant b.Valid() && b.d == d && b.index == index && b.uniqueId == uniqueId
      invariant |b.nodes| == i && NodesDone(d, addresses, lists, uniqueId, b.strings, b.nodes)
      invariant b.emitted == Concat(lists[..i])
    {
      ghost var nodes0, strings0 := b.nodes, b.strings;
      assert EndsIn(lists[i], index);
      b.EmitObject(addresses[i], d.objects[addresses[i]], lists[i]);
      NodesStep(d, addresses, lists, uniqueId, strings0, b.strings, nodes0, b.nodes[i]);
      ConcatStep(lists, i);
    }
    assert lists[..|lists|] == lists;
    nodes, edges, strings := b.nodes, b.edges, b.strings;
    forall i | 0 <= i < |nodes| ensures |nodes[i]| == NODE_FIELDS && nodes[i][4] == |lists[i]| {
      assert NodeRecord(strings, nodes[i], d, addresses[i], uniqueId(addresses[i]), d.objects[addresses[i]], |lists[i]|);
    }
  }

  /** `convertToSnapshot`: reading the flat lists gives back the exact reference list, with labels, of
      every object; nodes carry the names and sizes of their objects, and no string is stored twice. */
  method Convert(d: Dump, uniqueId: Address -> int) returns (s: Snapshot, addresses: seq<Address>)
    requires Closed(d)
    ensures addresses != [] && addresses[0] == d.registry && Distinct(addresses) && forall a :: a in addresses <==> a in d.objects
    ensures Known(d, addresses) && Distinct(s.strings) && |s.nodes| == |addresses| * NODE_FIELDS
    ensures forall i :: 0 <= i < |addresses| ==> ReadEdges(s, addresses, i) == AllSome(References(d, addresses)[i])
    ensures NodesDone(d, addresses, References(d, addresses), uniqueId, s.strings, NodeGroups(s, |addresses|))
  {
    var index;
    addresses, index := ReadAddresses(d);
    TargetsKnown(d, addresses, index);
    ghost var lists := References(d, addresses);
    var nodes, edges, strings := Build(d, addresses, lists, index, uniqueId);
    s := Snapshot(Flat(nodes), Flat(edges), strings);
    GroupsRead(nodes, s);
    forall i | 0 <= i < |addresses| ensures ReadEdges(s, addresses, i) == AllSome(lists[i]) {
      FlatReads(lists, addresses, index, nodes, edges, strings, i);
    }
  }
}
