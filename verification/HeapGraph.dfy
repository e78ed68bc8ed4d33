/** Reachability analysis of a heap dump: a breadth-first search from the roots over the references
    that keep objects alive, which charges every object to the path it is first reached by. */
module HeapGraph {
  import opened Wrappers
  import opened MapSums

  type Address = string
  type Path = seq<string>

  datatype Object =
    | Str(size: nat, data: string)
    | Table(size: nat, pairs: seq<(Option<Address>, Option<Address>)>, array_: seq<Address>, metatable: Option<Address>)
    | Function(size: nat, env: Address, proto: Option<Address>, upvalues: seq<Address>)
    | Userdata(size: nat, metatable: Option<Address>)
    | Thread(size: nat, env: Address, stack: seq<Address>, stacknames: seq<Option<string>>)
    | Proto(size: nat, source: Option<string>, constants: seq<Address>, protos: seq<Address>)
    | Upvalue(size: nat, target: Option<Address>)
    | Buffer(size: nat)

  type Heap = map<Address, Object>

  /** A reference: where it leads, and the node it leads to, below the node of its owner. */
  type Edge = (Address, Path)

  // ----- the references an object keeps alive -----

  function OptionSeq(o: Option<Address>): seq<Address> {
    if o.Some? then [o.value] else []
  }

  predicate IsString(heap: Heap, a: Option<Address>) {
    a.Some? && a.value in heap && heap[a.value].Str?
  }

  /** `getkey`: the string stored under a string key. */
  function GetKey(heap: Heap, pairs: seq<(Option<Address>, Option<Address>)>, key: string): Option<string> {
    if pairs == [] then None
    else if IsString(heap, pairs[0].0) && heap[pairs[0].0.value].data == key then
      if IsString(heap, pairs[0].1) then Some(heap[pairs[0].1.value].data) else None
    else GetKey(heap, pairs[1..], key)
  }

  /** The `__mode` of a metatable, empty when there is none. */
  function Mode(heap: Heap, metatable: Option<Address>): string {
    if metatable.Some? && metatable.value in heap && heap[metatable.value].Table? then
      var mode := GetKey(heap, heap[metatable.value].pairs, "__mode");
      if mode.Some? then mode.value else ""
    else ""
  }

  function All(targets: seq<Address>, below: Path): seq<Edge> {
    seq(|targets|, i requires 0 <= i < |targets| => (targets[i], below))
  }

  /** String keys are always strong; other keys and all values as the mode of the table says. */
  function PairEdges(heap: Heap, key: Option<Address>, val: Option<Address>, weakKey: bool, weakVal: bool): seq<Edge> {
    if IsString(heap, key) then
      [(key.value, [])] + (if val.Some? && !weakVal then [(val.value, [heap[key.value].data])] else [])
    else
      (if key.Some? && !weakKey then [(key.value, [])] else []) + (if val.Some? && !weakVal then [(val.value, [])] else [])
  }

  function PairsEdges(heap: Heap, pairs: seq<(Option<Address>, Option<Address>)>, weakKey: bool, weakVal: bool): seq<Edge> {
    if pairs == [] then []
    else PairEdges(heap, pairs[0].0, pairs[0].1, weakKey, weakVal) + PairsEdges(heap, pairs[1..], weakKey, weakVal)
  }

  /** Stack slots are grouped by the frames that slot names announce. */
  function StackEdges(stack: seq<Address>, names: seq<Option<string>>, frame: Option<Path>): seq<Edge>
    requires |names| == |stack|
  {
    if stack == [] then []
    else
      var name := names[0];
      var isFrame := name.Some? && |name.value| >= 6 && name.value[..6] == "frame:";
      var frame' := if isFrame then Some(["__stack", name.value[6..]]) else frame;
      var below := if frame'.Some? && name.Some? && name.value != "" && !isFrame then frame'.value + [name.value]
                   else if frame'.Some? then frame'.value
                   else ["__stack"];
      [(stack[0], below)] + StackEdges(stack[1..], names[1..], frame')
  }

  /** A name for every slot; no names at all is fine, more names than slots too. */
  function Names(stack: seq<Address>, stacknames: seq<Option<string>>): (names: seq<Option<string>>)
    ensures |names| == |stack|
  {
    seq(|stack|, i requires 0 <= i < |stack| => if i < |stacknames| then stacknames[i] else None)
  }

  /** A thread with names for some of its slots only: the analysis fails on reading the next name. */
  predicate LacksNames(o: Object) {
    o.Thread? && 0 < |o.stacknames| < |o.stack|
  }

  function Source(heap: Heap, proto: Option<Address>): string {
    if proto.Some? && proto.value in heap && heap[proto.value].Proto? && heap[proto.value].source.Some?
    then heap[proto.value].source.value else ""
  }

  /** What the search adds to its queue for an object, in order. */
  function Edges(heap: Heap, o: Object): seq<Edge> {
    match o
    case Table(_, pairs, array_, metatable) =>
      var mode := Mode(heap, metatable);
      PairsEdges(heap, pairs, 'k' in mode, 'v' in mode) + All(array_, []) + All(OptionSeq(metatable), ["__meta"])
    case Function(_, env, proto, upvalues) =>
      [(env, ["__env"])] + All(OptionSeq(proto), ["__proto"]) + All(upvalues, [Source(heap, proto)])
    case Userdata(_, metatable) => All(OptionSeq(metatable), ["__meta"])
    case Thread(_, env, stack, stacknames) => [(env, ["__env"])] + StackEdges(stack, Names(stack, stacknames), None)
    case Proto(_, _, constants, protos) => All(constants, []) + All(protos, [])
    case Upvalue(_, target) => All(OptionSeq(target), [])
    case _ => []
  }

  predicate Leads(heap: Heap, a: Address, b: Address) {
    a in heap && exists e :: e in Edges(heap, heap[a]) && e.0 == b
  }

  /** The value of the first pair with this string key is no object of the dump. */
  predicate DanglingValue(heap: Heap, pairs: seq<(Option<Address>, Option<Address>)>, key: string) {
    pairs != [] &&
    if IsString(heap, pairs[0].0) && heap[pairs[0].0.value].data == key then pairs[0].1.Some? && pairs[0].1.value !in heap
    else DanglingValue(heap, pairs[1..], key)
  }

  /** A table with a key that is no object of the dump, followed or not, or with such a `__mode`. */
  predicate Dangles(heap: Heap, o: Object) {
    o.Table? &&
    ((exists p :: p in o.pairs && p.0.Some? && p.0.value !in heap)
     || (o.metatable.Some? && o.metatable.value in heap && heap[o.metatable.value].Table?
         && DanglingValue(heap, heap[o.metatable.value].pairs, "__mode")))
  }

  /** The analysis fails when it gets there: no object of the dump, or one it cannot read. */
  predicate Bad(heap: Heap, a: Address) {
    a !in heap || LacksNames(heap[a]) || Dangles(heap, heap[a])
  }

  // ----- which references are followed, by the fields of an object -----

  ghost predicate StringIs(heap: Heap, a: Option<Address>, data: string) {
    IsString(heap, a) && heap[a.value].data == data
  }

  /** The value of the first pair with this string key is a string that contains the character. */
  ghost predicate FirstHas(heap: Heap, pairs: seq<(Option<Address>, Option<Address>)>, key: string, c: char) {
    exists i :: 0 <= i < |pairs| && StringIs(heap, pairs[i].0, key) && (forall j :: 0 <= j < i ==> !StringIs(heap, pairs[j].0, key))
                && IsString(heap, pairs[i].1) && c in heap[pairs[i].1.value].data
  }

  /** The metatable declares the table weak in this respect: `k` for keys, `v` for values. */
  ghost predicate Weak(heap: Heap, metatable: Option<Address>, c: char) {
    && metatable.Some? && metatable.value in heap && heap[metatable.value].Table?
    && FirstHas(heap, heap[metatable.value].pairs, "__mode", c)
  }

  /** A pair refers to its key, unless keys are weak and it is no string, and to its value, unless values
      are weak; the value of a string key has the key for its name. */
  ghost predicate PairRefers(heap: Heap, pair: (Option<Address>, Option<Address>), weakKey: bool, weakVal: bool, b: Address, below: Path) {
    || (pair.0 == Some(b) && (IsString(heap, pair.0) || !weakKey) && below == [])
    || (pair.1 == Some(b) && !weakVal && below == if IsString(heap, pair.0) then [heap[pair.0.value].data] else [])
  }

  /** The name of the slot announces a frame. */
  predicate IsFrame(name: Option<string>) {
    name.Some? && "frame:" <= name.value
  }

  /** The frame of a stack slot: the last one announced at it or before. */
  ghost predicate FrameOf(names: seq<Option<string>>, i: nat, f: nat)
    requires i < |names|
  {
    f <= i && IsFrame(names[f]) && forall j :: f < j <= i ==> !IsFrame(names[j])
  }

  /** Slots are below the frame they belong to, by their name if they have one. */
  ghost predicate SlotBelow(names: seq<Option<string>>, i: nat, below: Path)
    requires i < |names|
  {
    || (below == ["__stack"] && forall j :: 0 <= j <= i ==> !IsFrame(names[j]))
    || exists f: nat :: FrameOf(names, i, f) &&
                   below == ["__stack", names[f].value[6..]] + if f < i && names[i].Some? && names[i].value != "" then [names[i].value] else []
  }

  ghost predicate SourceIs(heap: Heap, proto: Option<Address>, source: string) {
    if proto.Some? && proto.value in heap && heap[proto.value].Proto? && heap[proto.value].source.Some?
    then Some(source) == heap[proto.value].source else source == ""
  }

  /** The object has a reference that keeps `b` alive, at the node `below` its own. */
  ghost predicate Refers(heap: Heap, o: Object, b: Address, below: Path) {
    match o
    case Table(_, pairs, array_, metatable) =>
      || (exists i :: 0 <= i < |pairs| && PairRefers(heap, pairs[i], Weak(heap, metatable, 'k'), Weak(heap, metatable, 'v'), b, below))
      || (b in array_ && below == [])
      || (metatable == Some(b) && below == ["__meta"])
    case Function(_, env, proto, upvalues) =>
      || (b == env && below == ["__env"])
      || (proto == Some(b) && below == ["__proto"])
      || (b in upvalues && |below| == 1 && SourceIs(heap, proto, below[0]))
    case Userdata(_, metatable) => metatable == Some(b) && below == ["__meta"]
    case Thread(_, env, stack, stacknames) =>
      || (b == env && below == ["__env"])
      || (exists i :: 0 <= i < |stack| && stack[i] == b && SlotBelow(Names(stack, stacknames), i, below))
    case Proto(_, _, constants, protos) => (b in constants || b in protos) && below == []
    case Upvalue(_, target) => target == Some(b) && below == []
    case Str(_, _) => false
    case Buffer(_) => false
  }

  lemma {:induction false} FirstHasFrom(heap: Heap, pairs: seq<(Option<Address>, Option<Address>)>, key: string, c: char)
    requires pairs != [] && !StringIs(heap, pairs[0].0, key)
    ensures FirstHas(heap, pairs, key, c) <==> FirstHas(heap, pairs[1..], key, c)
  {
    var rest := pairs[1..];
    if FirstHas(heap, pairs, key, c) {
      var i :| 0 <= i < |pairs| && StringIs(heap, pairs[i].0, key) && (forall j :: 0 <= j < i ==> !StringIs(heap, pairs[j].0, key))
               && IsString(heap, pairs[i].1) && c in heap[pairs[i].1.value].data;
      assert rest[i - 1] == pairs[i] && forall j :: 0 <= j < i - 1 ==> rest[j] == pairs[j + 1];
    }
    if FirstHas(heap, rest, key, c) {
      var i :| 0 <= i < |rest| && StringIs(heap, rest[i].0, key) && (forall j :: 0 <= j < i ==> !StringIs(heap, rest[j].0, key))
               && IsString(heap, rest[i].1) && c in heap[rest[i].1.value].data;
      assert pairs[i + 1] == rest[i] && forall j :: 1 <= j < i + 1 ==> pairs[j] == rest[j - 1];
    }
  }

  lemma {:induction false} KeyHas(heap: Heap, pairs: seq<(Option<Address>, Option<Address>)>, key: string, c: char)
    ensures FirstHas(heap, pairs, key, c) <==> GetKey(heap, pairs, key).Some? && c in GetKey(heap, pairs, key).value
  {
    if pairs != [] {
      if StringIs(heap, pairs[0].0, key) {
        assert FirstHas(heap, pairs, key, c) <==> IsString(heap, pairs[0].1) && c in heap[pairs[0].1.value].data;
      } else {
        FirstHasFrom(heap, pairs, key, c);
        KeyHas(heap, pairs[1..], key, c);
      }
    }
  }

  /** The value of the first pair with this string key is given, but is no object of the dump. */
  ghost predicate FirstDangles(heap: Heap, pairs: seq<(Option<Address>, Option<Address>)>, key: string) {
    exists i :: 0 <= i < |pairs| && StringIs(heap, pairs[i].0, key) && (forall j :: 0 <= j < i ==> !StringIs(heap, pairs[j].0, key))
                && pairs[i].1.Some? && pairs[i].1.value !in heap
  }

  lemma {:induction false} DanglingIs(heap: Heap, pairs: seq<(Option<Address>, Option<Address>)>, key: string)
    ensures DanglingValue(heap, pairs, key) <==> FirstDangles(heap, pairs, key)
  {
    if pairs != [] && !StringIs(heap, pairs[0].0, key) {
      var rest := pairs[1..];
      DanglingIs(heap, rest, key);
      if i :| 0 <= i < |pairs| && StringIs(heap, pairs[i].0, key) && (forall j :: 0 <= j < i ==> !StringIs(heap, pairs[j].0, key))
              && pairs[i].1.Some? && pairs[i].1.value !in heap {
        assert rest[i - 1] == pairs[i] && forall j :: 0 <= j < i - 1 ==> rest[j] == pairs[j + 1];
      }
      if i :| 0 <= i < |rest| && StringIs(heap, rest[i].0, key) && (forall j :: 0 <= j < i ==> !StringIs(heap, rest[j].0, key))
              && rest[i].1.Some? && rest[i].1.value !in heap {
        assert pairs[i + 1] == rest[i] && forall j :: 1 <= j < i + 1 ==> pairs[j] == rest[j - 1];
      }
    } else if pairs != [] {
      assert StringIs(heap, pairs[0].0, key);
    }
  }

  lemma {:induction false} ModeHas(heap: Heap, metatable: Option<Address>, c: char)
    ensures Weak(heap, metatable, c) <==> c in Mode(heap, metatable)
  {
    if metatable.Some? && metatable.value in heap && heap[metatable.value].Table? {
      KeyHas(heap, heap[metatable.value].pairs, "__mode", c);
    }
  }

  lemma {:induction false} InAll(targets: seq<Address>, below: Path, e: Edge)
    ensures e in All(targets, below) <==> e.0 in targets && e.1 == below
  {
    if e.0 in targets && e.1 == below {
      var i :| 0 <= i < |targets| && targets[i] == e.0;
      assert All(targets, below)[i] == e;
    }
  }

  lemma {:induction false} InPairs(heap: Heap, pairs: seq<(Option<Address>, Option<Address>)>, weakKey: bool, weakVal: bool, e: Edge)
    ensures e in PairsEdges(heap, pairs, weakKey, weakVal) <==>
            exists i :: 0 <= i < |pairs| && PairRefers(heap, pairs[i], weakKey, weakVal, e.0, e.1)
  {
    if pairs != [] {
      var rest := pairs[1..];
      InPairs(heap, rest, weakKey, weakVal, e);
      InPair(heap, pairs[0], weakKey, weakVal, e);
      if i :| 0 <= i < |pairs| && PairRefers(heap, pairs[i], weakKey, weakVal, e.0, e.1) {
        if i > 0 { assert rest[i - 1] == pairs[i]; }
      }
      if i :| 0 <= i < |rest| && PairRefers(heap, rest[i], weakKey, weakVal, e.0, e.1) {
        assert pairs[i + 1] == rest[i];
      }
    }
  }

  lemma {:induction false} InPair(heap: Heap, pair: (Option<Address>, Option<Address>), weakKey: bool, weakVal: bool, e: Edge)
    ensures e in PairEdges(heap, pair.0, pair.1, weakKey, weakVal) <==> PairRefers(heap, pair, weakKey, weakVal, e.0, e.1)
  {
  }

  /** Behind `before`, the frame is the last one announced there, if any. */
  ghost predicate FrameSoFar(before: seq<Option<string>>, frame: Option<Path>) {
    if frame.None? then forall j :: 0 <= j < |before| ==> !IsFrame(before[j])
    else exists f: nat :: f < |before| && FrameOf(before, |before| - 1, f) && frame.value == ["__stack", before[f].value[6..]]
  }

  lemma {:induction false} NextFrame(before: seq<Option<string>>, frame: Option<Path>, name: Option<string>) returns (next: Option<Path>)
    requires FrameSoFar(before, frame)
    ensures next == (if IsFrame(name) then Some(["__stack", name.value[6..]]) else frame) && FrameSoFar(before + [name], next)
  {
    var more := before + [name];
    next := if IsFrame(name) then Some(["__stack", name.value[6..]]) else frame;
    if IsFrame(name) {
      assert FrameOf(more, |more| - 1, |before|);
    } else if frame.Some? {
      var f: nat :| f < |before| && FrameOf(before, |before| - 1, f) && frame.value == ["__stack", before[f].value[6..]];
      assert FrameOf(more, |more| - 1, f);
    }
  }

  /** Where a slot with this name is in this frame. */
  function Below(frame: Option<Path>, name: Option<string>): Path {
    if frame.Some? && name.Some? && name.value != "" && !IsFrame(name) then frame.value + [name.value]
    else if frame.Some? then frame.value
    else ["__stack"]
  }

  /** What the search computes for the next slot is where it belongs. */
  lemma {:induction false} SlotIs(before: seq<Option<string>>, frame: Option<Path>, name: Option<string>, below: Path)
    requires FrameSoFar(before + [name], frame)
    ensures SlotBelow(before + [name], |before|, below) <==>
            below == Below(frame, name)
  {
    var more, i := before + [name], |before|;
    if frame.Some? {
      var f: nat :| f < |more| && FrameOf(more, i, f) && frame.value == ["__stack", more[f].value[6..]];
      forall g: nat | FrameOf(more, i, g) ensures g == f {
      }
      assert more[i] == name;
      assert f < i <==> !IsFrame(name);
    } else {
      forall g: nat ensures !FrameOf(more, i, g) {
      }
    }
  }

  lemma {:induction false} SlotLater(names: seq<Option<string>>, more: seq<Option<string>>, i: nat, below: Path)
    requires i < |names| && names <= more
    ensures SlotBelow(names, i, below) <==> SlotBelow(more, i, below)
  {
    assert forall j :: 0 <= j < |names| ==> more[j] == names[j];
    forall f: nat ensures FrameOf(names, i, f) <==> FrameOf(more, i, f) {
    }
  }

  /** Some slot of the rest of a stack, which begins at slot `n`, holds the target and belongs there. */
  ghost predicate InSlots(stack: seq<Address>, all: seq<Option<string>>, n: nat, e: Edge) {
    n + |stack| <= |all| && exists i :: 0 <= i < |stack| && stack[i] == e.0 && SlotBelow(all, n + i, e.1)
  }

  lemma {:induction false} InStack(before: seq<Option<string>>, stack: seq<Address>, names: seq<Option<string>>, frame: Option<Path>, e: Edge)
    requires |names| == |stack| && FrameSoFar(before, frame)
    ensures e in StackEdges(stack, names, frame) <==> InSlots(stack, before + names, |before|, e)
    decreases |stack|
  {
    if stack != [] {
      var name, all, start := names[0], before + names, before + [names[0]];
      var next := NextFrame(before, frame, name);
      var below := Below(next, name);
      assert start + names[1..] == all;
      assert e in StackEdges(stack[1..], names[1..], next) <==> InSlots(stack[1..], all, |before| + 1, e) by {
        InStack(start, stack[1..], names[1..], next, e);
      }
      assert SlotBelow(all, |before|, e.1) <==> e.1 == below by {
        SlotIs(before, next, name, e.1);
        SlotLater(start, all, |before|, e.1);
      }
      assert e in StackEdges(stack, names, frame) <==> e == (stack[0], below) || e in StackEdges(stack[1..], names[1..], next) by {
        StackHead(stack, names, frame, next, e);
      }
      InRest(stack, all, |before|, e);
    }
  }

  lemma {:induction false} StackHead(stack: seq<Address>, names: seq<Option<string>>, frame: Option<Path>, next: Option<Path>, e: Edge)
    requires stack != [] && |names| == |stack|
    requires next == if IsFrame(names[0]) then Some(["__stack", names[0].value[6..]]) else frame
    ensures e in StackEdges(stack, names, frame) <==> e == (stack[0], Below(next, names[0])) || e in StackEdges(stack[1..], names[1..], next)
  {
    var name := names[0];
    assert IsFrame(name) <==> name.Some? && |name.value| >= 6 && name.value[..6] == "frame:";
  }

  lemma {:induction false} InRest(stack: seq<Address>, all: seq<Option<string>>, n: nat, e: Edge)
    requires stack != [] && n + |stack| <= |all|
    ensures InSlots(stack, all, n, e) <==>
            (stack[0] == e.0 && SlotBelow(all, n, e.1)) || InSlots(stack[1..], all, n + 1, e)
  {
    if i :| 0 <= i < |stack| && stack[i] == e.0 && SlotBelow(all, n + i, e.1) {
      if i > 0 { assert stack[1..][i - 1] == e.0 && SlotBelow(all, (n + 1) + (i - 1), e.1); }
    }
    if i :| 0 <= i < |stack[1..]| && stack[1..][i] == e.0 && SlotBelow(all, (n + 1) + i, e.1) {
      assert stack[i + 1] == e.0 && SlotBelow(all, n + (i + 1), e.1);
    }
    assert SlotBelow(all, n, e.1) == SlotBelow(all, n + 0, e.1);
  }

  /** What the search follows are exactly the references of the object, each to where it belongs. */
  lemma {:induction false} EdgesAreReferences(heap: Heap, o: Object, e: Edge)
    ensures e in Edges(heap, o) <==> Refers(heap, o, e.0, e.1)
  {
    match o
    case Table(_, pairs, array_, metatable) => TableReferences(heap, o, e);
    case Function(_, env, proto, upvalues) => FunctionReferences(heap, o, e);
    case Userdata(_, metatable) => InAll(OptionSeq(metatable), ["__meta"], e);
    case Thread(_, env, stack, stacknames) => ThreadReferences(heap, o, e);
    case Proto(_, _, constants, protos) =>
      InAll(constants, [], e);
      InAll(protos, [], e);
    case Upvalue(_, target) => InAll(OptionSeq(target), [], e);
    case Str(_, _) =>
    case Buffer(_) =>
  }

  lemma {:induction false} TableReferences(heap: Heap, o: Object, e: Edge)
    requires o.Table?
    ensures e in Edges(heap, o) <==> Refers(heap, o, e.0, e.1)
  {
    ModeHas(heap, o.metatable, 'k');
    ModeHas(heap, o.metatable, 'v');
    InPairs(heap, o.pairs, Weak(heap, o.metatable, 'k'), Weak(heap, o.metatable, 'v'), e);
    InAll(o.array_, [], e);
    InAll(OptionSeq(o.metatable), ["__meta"], e);
  }

  lemma {:induction false} FunctionReferences(heap: Heap, o: Object, e: Edge)
    requires o.Function?
    ensures e in Edges(heap, o) <==> Refers(heap, o, e.0, e.1)
  {
    InAll(OptionSeq(o.proto), ["__proto"], e);
    InAll(o.upvalues, [Source(heap, o.proto)], e);
    assert |e.1| == 1 ==> e.1 == [e.1[0]];
    assert |e.1| == 1 ==> (SourceIs(heap, o.proto, e.1[0]) <==> e.1[0] == Source(heap, o.proto));
  }

  lemma {:induction false} ThreadReferences(heap: Heap, o: Object, e: Edge)
    requires o.Thread?
    ensures e in Edges(heap, o) <==> Refers(heap, o, e.0, e.1)
  {
    var names := Names(o.stack, o.stacknames);
    assert e in StackEdges(o.stack, names, None) <==> InSlots(o.stack, names, 0, e) by {
      InStack([], o.stack, names, None, e);
      assert [] + names == names;
    }
    assert e in Edges(heap, o) <==> e == (o.env, ["__env"]) || e in StackEdges(o.stack, names, None);
    assert InSlots(o.stack, names, 0, e) <==> exists i :: 0 <= i < |o.stack| && o.stack[i] == e.0 && SlotBelow(names, i, e.1) by {
      if i :| 0 <= i < |o.stack| && o.stack[i] == e.0 && SlotBelow(names, i, e.1) {
        assert SlotBelow(names, 0 + i, e.1);
      }
    }
  }

  /** An object leads to another one exactly if it has a reference to it that is followed. */
  lemma {:induction false} LeadsIs(heap: Heap, a: Address, b: Address)
    ensures Leads(heap, a, b) <==> a in heap && exists below :: Refers(heap, heap[a], b, below)
  {
    if Leads(heap, a, b) {
      var e :| e in Edges(heap, heap[a]) && e.0 == b;
      EdgesAreReferences(heap, heap[a], e);
    }
    if a in heap && exists below :: Refers(heap, heap[a], b, below) {
      var below :| Refers(heap, heap[a], b, below);
      EdgesAreReferences(heap, heap[a], (b, below));
    }
  }

  /** A table whose values are weak keeps a value alive only by another reference. */
  lemma {:induction false} WeakValueIsNotKept(heap: Heap, a: Address, key: Option<Address>, x: Address)
    requires a in heap && heap[a].Table? && heap[a].pairs == [(key, Some(x))] && key != Some(x)
    requires heap[a].array_ == [] && heap[a].metatable != Some(x) && Weak(heap, heap[a].metatable, 'v')
    ensures !Leads(heap, a, x)
  {
    LeadsIs(heap, a, x);
  }

  /** A table whose keys are weak keeps a key alive only if it is a string, or by another reference. */
  lemma {:induction false} WeakKeyIsNotKept(heap: Heap, a: Address, x: Address, value: Option<Address>)
    requires a in heap && heap[a].Table? && heap[a].pairs == [(Some(x), value)] && value != Some(x)
    requires heap[a].array_ == [] && heap[a].metatable != Some(x) && Weak(heap, heap[a].metatable, 'k')
    ensures Leads(heap, a, x) <==> x in heap && heap[x].Str?
  {
    LeadsIs(heap, a, x);
    if x in heap && heap[x].Str? {
      assert PairRefers(heap, heap[a].pairs[0], true, Weak(heap, heap[a].metatable, 'v'), x, []);
      assert Refers(heap, heap[a], x, []);
    }
  }

  // ----- reachability -----

  ghost predicate IsRoot(roots: seq<(string, Address)>, a: Address) {
    exists r :: r in roots && r.1 == a
  }

  ghost predicate IsRootAt(roots: seq<(string, Address)>, a: Address, p: Path) {
    exists r :: r in roots && r.1 == a && p == [r.0]
  }

  /** An object at one node keeps another one alive, which belongs to another node. */
  ghost predicate LeadsAt(heap: Heap, a: Address, p: Path, b: Address, q: Path) {
    a in heap && exists e :: e in Edges(heap, heap[a]) && e.0 == b && q == p + e.1
  }

  /** The objects on the way from a root, with their nodes, the nearest last. */
  datatype Walk = Start | Via(before: Walk, a: Address, p: Path)

  /** The walk is a chain of references from a root to `a`, and `p` is how it reads. */
  ghost predicate Chain(heap: Heap, roots: seq<(string, Address)>, walk: Walk, a: Address, p: Path) {
    match walk
    case Start => IsRootAt(roots, a, p)
    case Via(before, b, q) => Chain(heap, roots, before, b, q) && LeadsAt(heap, b, q, a, p)
  }

  ghost predicate ReachableAt(heap: Heap, roots: seq<(string, Address)>, a: Address, p: Path) {
    exists walk :: Chain(heap, roots, walk, a, p)
  }

  ghost predicate Reachable(heap: Heap, roots: seq<(string, Address)>, a: Address) {
    exists p :: ReachableAt(heap, roots, a, p)
  }

  /** The number of references of a walk. */
  function Length(walk: Walk): nat {
    if walk.Start? then 0 else Length(walk.before) + 1
  }

  ghost predicate ReachableIn(heap: Heap, roots: seq<(string, Address)>, a: Address, p: Path, n: nat) {
    exists walk :: Chain(heap, roots, walk, a, p) && Length(walk) == n
  }

  /** The path reads a chain of as few references as any chain to the object, from any root. */
  ghost predicate ShortestAt(heap: Heap, roots: seq<(string, Address)>, a: Address, p: Path) {
    exists walk :: Chain(heap, roots, walk, a, p) &&
                   forall other, q :: Chain(heap, roots, other, a, q) ==> Length(walk) <= Length(other)
  }

  lemma {:induction false} NextReachable(heap: Heap, roots: seq<(string, Address)>, a: Address, p: Path, n: nat, b: Address, q: Path)
    requires ReachableIn(heap, roots, a, p, n) && LeadsAt(heap, a, p, b, q)
    ensures ReachableIn(heap, roots, b, q, n + 1)
  {
    var walk :| Chain(heap, roots, walk, a, p) && Length(walk) == n;
    assert Chain(heap, roots, Via(walk, a, p), b, q);
  }

  lemma {:induction false} LeadsAnyway(heap: Heap, a: Address, p: Path, b: Address, q: Path)
    requires LeadsAt(heap, a, p, b, q)
    ensures Leads(heap, a, b)
  {
  }

  /** Levels of the roots and along references: with all roots at level 0, and no reference leading more
      than one level up, every object has a level, and no chain to it is shorter. */
  ghost predicate Levelled(heap: Heap, roots: seq<(string, Address)>, level: map<Address, nat>) {
    && (forall r :: IsRoot(roots, r) ==> r in level && level[r] == 0)
    && (forall x, y :: x in level && Leads(heap, x, y) ==> y in level && level[y] <= level[x] + 1)
  }

  lemma {:induction false} LevelsAreLeast(heap: Heap, roots: seq<(string, Address)>, level: map<Address, nat>, walk: Walk, a: Address, p: Path)
    requires Levelled(heap, roots, level) && Chain(heap, roots, walk, a, p)
    ensures a in level && level[a] <= Length(walk)
    decreases walk
  {
    match walk
    case Start => assert IsRoot(roots, a);
    case Via(before, b, q) =>
      LevelsAreLeast(heap, roots, level, before, b, q);
      LeadsAnyway(heap, b, q, a, p);
  }

  // ----- charging -----

  /** The sizes of the objects charged to a node: those reached there and not in the old dump. */
  ghost function ChargedSizes(heap: Heap, old_: set<Address>, owner: map<Address, Path>, p: Path): map<Address, int> {
    map a | a in owner && a in heap && a !in old_ && owner[a] == p :: heap[a].size
  }

  /** The sizes of all objects reached that are not in the old dump. */
  ghost function NewSizes(heap: Heap, old_: set<Address>, owner: map<Address, Path>): map<Address, int> {
    map a | a in owner && a in heap && a !in old_ :: heap[a].size
  }

  ghost function ChargedCount(heap: Heap, old_: set<Address>, owner: map<Address, Path>, p: Path): map<Address, int> {
    map a | a in owner && a in heap && a !in old_ && owner[a] == p :: 1
  }

  function ValueAt(m: map<Path, int>, p: Path): int {
    if p in m then m[p] else 0
  }

  lemma {:induction false} ChargeSizes(heap: Heap, old_: set<Address>, owner: map<Address, Path>, a: Address, node: Path, p: Path)
    requires a in heap && a !in owner
    ensures Sum(ChargedSizes(heap, old_, owner[a := node], p)) ==
            Sum(ChargedSizes(heap, old_, owner, p)) + (if a !in old_ && p == node then heap[a].size else 0)
  {
    var before, after := ChargedSizes(heap, old_, owner, p), ChargedSizes(heap, old_, owner[a := node], p);
    if a !in old_ && p == node {
      assert after == before[a := heap[a].size];
      Update(before, a, heap[a].size);
    } else {
      assert after == before;
    }
  }

  lemma {:induction false} ChargeCount(heap: Heap, old_: set<Address>, owner: map<Address, Path>, a: Address, node: Path, p: Path)
    requires a in heap && a !in owner
    ensures Sum(ChargedCount(heap, old_, owner[a := node], p)) ==
            Sum(ChargedCount(heap, old_, owner, p)) + (if a !in old_ && p == node then 1 else 0)
  {
    var before, after := ChargedCount(heap, old_, owner, p), ChargedCount(heap, old_, owner[a := node], p);
    if a !in old_ && p == node {
      assert after == before[a := 1];
      Update(before, a, 1);
    } else {
      assert after == before;
    }
  }

  lemma {:induction false} ChargeTotal(heap: Heap, old_: set<Address>, owner: map<Address, Path>, a: Address, node: Path)
    requires a in heap && a !in owner
    ensures Sum(NewSizes(heap, old_, owner[a := node])) == Sum(NewSizes(heap, old_, owner)) + (if a !in old_ then heap[a].size else 0)
  {
    var before, after := NewSizes(heap, old_, owner), NewSizes(heap, old_, owner[a := node]);
    if a !in old_ {
      assert after == before[a := heap[a].size];
      Update(before, a, heap[a].size);
    } else {
      assert after == before;
    }
  }

  function Add(m: map<Path, int>, p: Path, n: int): map<Path, int> {
    m[p := ValueAt(m, p) + n]
  }

  lemma {:induction false} AddTotal(m: map<Path, int>, p: Path, n: int)
    ensures Sum(Add(m, p, n)) == Sum(m) + n
  {
    Update(m, p, ValueAt(m, p) + n);
  }

  ghost predicate SizesMatch(heap: Heap, old_: set<Address>, owner: map<Address, Path>, sizes: map<Path, int>) {
    forall p :: ValueAt(sizes, p) == Sum(ChargedSizes(heap, old_, owner, p))
  }

  ghost predicate CountsMatch(heap: Heap, old_: set<Address>, owner: map<Address, Path>, counts: map<Path, int>) {
    forall p :: ValueAt(counts, p) == Sum(ChargedCount(heap, old_, owner, p))
  }

  /** Every node holds the sizes and the number of the objects charged to it, and the total is the
      size of all new objects reached. */
  ghost predicate Charged(heap: Heap, old_: set<Address>, owner: map<Address, Path>, sizes: map<Path, int>, counts: map<Path, int>) {
    && SizesMatch(heap, old_, owner, sizes)
    && CountsMatch(heap, old_, owner, counts)
    && Sum(sizes) == Sum(NewSizes(heap, old_, owner))
  }

  lemma {:induction false} SizesStep(heap: Heap, old_: set<Address>, owner: map<Address, Path>, a: Address, node: Path, sizes: map<Path, int>)
    requires a in heap && a !in owner && SizesMatch(heap, old_, owner, sizes)
    ensures SizesMatch(heap, old_, owner[a := node], if a in old_ then sizes else Add(sizes, node, heap[a].size))
  {
    var sizes' := if a in old_ then sizes else Add(sizes, node, heap[a].size);
    forall p ensures ValueAt(sizes', p) == Sum(ChargedSizes(heap, old_, owner[a := node], p)) {
      ChargeSizes(heap, old_, owner, a, node, p);
    }
  }

  lemma {:induction false} CountsStep(heap: Heap, old_: set<Address>, owner: map<Address, Path>, a: Address, node: Path, counts: map<Path, int>)
    requires a in heap && a !in owner && CountsMatch(heap, old_, owner, counts)
    ensures CountsMatch(heap, old_, owner[a := node], if a in old_ then counts else Add(counts, node, 1))
  {
    var counts' := if a in old_ then counts else Add(counts, node, 1);
    forall p ensures ValueAt(counts', p) == Sum(ChargedCount(heap, old_, owner[a := node], p)) {
      ChargeCount(heap, old_, owner, a, node, p);
    }
  }

  /** Charging one more object. */
  method ChargeNew(heap: Heap, old_: set<Address>, ghost owner: map<Address, Path>, addr: Address, node: Path,
                   sizes0: map<Path, int>, counts0: map<Path, int>) returns (sizes: map<Path, int>, counts: map<Path, int>)
    requires addr in heap && addr !in owner && Charged(heap, old_, owner, sizes0, counts0)
    ensures Charged(heap, old_, owner[addr := node], sizes, counts)
  {
    sizes, counts := sizes0, counts0;
    SizesStep(heap, old_, owner, addr, node, sizes);
    CountsStep(heap, old_, owner, addr, node, counts);
    ChargeTotal(heap, old_, owner, addr, node);
    AddTotal(sizes, node, heap[addr].size);
    if addr !in old_ {
      counts := Add(counts, node, 1);
      sizes := Add(sizes, node, heap[addr].size);
    }
  }

  // ----- the search -----

  function Entries(edges: seq<Edge>, node: Path): seq<(Address, Path)> {
    seq(|edges|, i requires 0 <= i < |edges| => (edges[i].0, node + edges[i].1))
  }

  type Queue = seq<(Address, Path)>

  /** The object is visited or pending, at this level or before. */
  ghost predicate Met(level: map<Address, nat>, queue: Queue, dist: seq<nat>, offset: nat, a: Address, n: nat) {
    (a in level && level[a] <= n) || PendingBy(queue, dist, offset, a, n)
  }

  ghost predicate PendingBy(queue: Queue, dist: seq<nat>, offset: nat, a: Address, n: nat) {
    |queue| == |dist| && exists i :: offset <= i < |queue| && queue[i].0 == a && dist[i] <= n
  }

  /** The queue is in the order of levels, and holds two levels at most; nothing visited is above it. */
  ghost predicate InLevels(level: map<Address, nat>, dist: seq<nat>, offset: nat) {
    && (forall i, j :: 0 <= i <= j < |dist| ==> dist[i] <= dist[j])
    && (forall j :: offset <= j < |dist| ==> dist[j] <= dist[offset] + 1)
    && (forall a, j :: a in level && offset <= j < |dist| ==> level[a] <= dist[j])
  }

  ghost predicate OwnersReached(heap: Heap, roots: seq<(string, Address)>, owner: map<Address, Path>, level: map<Address, nat>) {
    owner.Keys == level.Keys <= heap.Keys && forall a :: a in owner ==> ReachableIn(heap, roots, a, owner[a], level[a])
  }

  ghost predicate QueueReached(heap: Heap, roots: seq<(string, Address)>, queue: Queue, dist: seq<nat>) {
    |queue| == |dist| && forall i :: 0 <= i < |queue| ==> ReachableIn(heap, roots, queue[i].0, queue[i].1, dist[i])
  }

  ghost predicate RootsMet(roots: seq<(string, Address)>, level: map<Address, nat>, queue: Queue, dist: seq<nat>, offset: nat) {
    forall r :: IsRoot(roots, r) ==> Met(level, queue, dist, offset, r, 0)
  }

  ghost predicate TargetsMet(heap: Heap, level: map<Address, nat>, queue: Queue, dist: seq<nat>, offset: nat) {
    forall x, y :: x in level && Leads(heap, x, y) ==> Met(level, queue, dist, offset, y, level[x] + 1)
  }

  /** What the search keeps: whatever it has met is reachable in as many steps as its level says by a
      chain that reads as its node, and whatever is still missing, be it a root or behind a visited
      object, is pending at the next level. */
  ghost predicate Searching(heap: Heap, roots: seq<(string, Address)>, owner: map<Address, Path>, level: map<Address, nat>,
                            queue: Queue, dist: seq<nat>, offset: nat) {
    && offset <= |queue| && OwnersReached(heap, roots, owner, level) && QueueReached(heap, roots, queue, dist)
    && InLevels(level, dist, offset)
    && RootsMet(roots, level, queue, dist, offset) && TargetsMet(heap, level, queue, dist, offset)
  }

  lemma {:induction false} SearchStarts(heap: Heap, roots: seq<(string, Address)>, queue: Queue, dist: seq<nat>)
    requires |queue| == |roots| && forall i :: 0 <= i < |roots| ==> queue[i] == (roots[i].1, [roots[i].0])
    requires dist == seq(|roots|, _ => 0)
    ensures Searching(heap, roots, map[], map[], queue, dist, 0)
  {
    forall i | 0 <= i < |queue| ensures ReachableIn(heap, roots, queue[i].0, queue[i].1, dist[i]) {
      assert roots[i] in roots;
      assert Chain(heap, roots, Start, queue[i].0, queue[i].1);
    }
    forall r | IsRoot(roots, r) ensures PendingBy(queue, dist, 0, r, 0) {
      var e :| e in roots && e.1 == r;
      var i :| 0 <= i < |roots| && roots[i] == e;
      assert queue[i].0 == r;
    }
  }

  lemma {:induction false} SkipVisited(heap: Heap, roots: seq<(string, Address)>, owner: map<Address, Path>, level: map<Address, nat>,
                                       queue: Queue, dist: seq<nat>, offset: nat)
    requires Searching(heap, roots, owner, level, queue, dist, offset) && offset < |queue| && queue[offset].0 in owner
    ensures Searching(heap, roots, owner, level, queue, dist, offset + 1)
  {
    forall a, n: nat | Met(level, queue, dist, offset, a, n) ensures Met(level, queue, dist, offset + 1, a, n) {
      if !(a in level && level[a] <= n) {
        var i :| offset <= i < |queue| && queue[i].0 == a && dist[i] <= n;
      }
    }
  }

  lemma {:induction false} EdgesLead(heap: Heap, a: Address, edges: seq<Edge>, node: Path)
    requires a in heap && edges == Edges(heap, heap[a])
    ensures var more := Entries(edges, node);
            && (forall j :: 0 <= j < |more| ==> LeadsAt(heap, a, node, more[j].0, more[j].1))
            && (forall y :: Leads(heap, a, y) ==> exists j :: 0 <= j < |more| && more[j].0 == y)
  {
    var more := Entries(edges, node);
    forall j | 0 <= j < |more| ensures LeadsAt(heap, a, node, more[j].0, more[j].1) {
      assert edges[j] in edges;
    }
    forall y | Leads(heap, a, y) ensures exists j :: 0 <= j < |more| && more[j].0 == y {
      var e :| e in edges && e.0 == y;
      var j :| 0 <= j < |edges| && edges[j] == e;
      assert more[j].0 == y;
    }
  }

  /** Moving on from a visited object, and adding to the queue, loses nothing that has been met. */
  lemma {:induction false} StillMet(level: map<Address, nat>, queue: Queue, dist: seq<nat>, offset: nat, more: Queue, x: Address, n: nat)
    requires offset < |queue| == |dist| && queue[offset].0 !in level && Met(level, queue, dist, offset, x, n)
    ensures Met(level[queue[offset].0 := dist[offset]], queue + more, dist + seq(|more|, _ => dist[offset] + 1), offset + 1, x, n)
  {
    var queue', dist' := queue + more, dist + seq(|more|, _ => dist[offset] + 1);
    if !(x in level && level[x] <= n) {
      var i :| offset <= i < |queue| && queue[i].0 == x && dist[i] <= n;
      assert queue'[i] == queue[i] && dist'[i] == dist[i];
    }
  }

  lemma {:induction false} LevelsGoOn(level: map<Address, nat>, dist: seq<nat>, offset: nat, a: Address, more: nat)
    requires offset < |dist| && a !in level && InLevels(level, dist, offset)
    ensures InLevels(level[a := dist[offset]], dist + seq(more, _ => dist[offset] + 1), offset + 1)
  {
    var d, dist' := dist[offset], dist + seq(more, _ => dist[offset] + 1);
    assert forall j :: 0 <= j < |dist'| ==> dist'[j] == if j < |dist| then dist[j] else d + 1;
    assert forall j :: offset <= j < |dist'| ==> d <= dist'[j] <= d + 1;
  }

  lemma {:induction false} MoreReached(heap: Heap, roots: seq<(string, Address)>, queue: Queue, dist: seq<nat>, a: Address, node: Path, d: nat, more: Queue)
    requires QueueReached(heap, roots, queue, dist) && ReachableIn(heap, roots, a, node, d)
    requires forall j :: 0 <= j < |more| ==> LeadsAt(heap, a, node, more[j].0, more[j].1)
    ensures QueueReached(heap, roots, queue + more, dist + seq(|more|, _ => d + 1))
  {
    var queue', dist' := queue + more, dist + seq(|more|, _ => d + 1);
    forall i | 0 <= i < |queue'| ensures ReachableIn(heap, roots, queue'[i].0, queue'[i].1, dist'[i]) {
      if i >= |queue| {
        assert queue'[i] == more[i - |queue|];
        NextReachable(heap, roots, a, node, d, queue'[i].0, queue'[i].1);
      }
    }
  }

  lemma {:induction false} NewlyMet(level: map<Address, nat>, queue: Queue, dist: seq<nat>, offset: nat, more: Queue, y: Address, n: nat)
    requires offset <= |queue| == |dist| && exists j :: 0 <= j < |more| && more[j].0 == y
    ensures Met(level, queue + more, dist + seq(|more|, _ => n), offset, y, n)
  {
    var j :| 0 <= j < |more| && more[j].0 == y;
    var queue', dist' := queue + more, dist + seq(|more|, _ => n);
    assert queue'[|queue| + j].0 == y && dist'[|queue| + j] == n;
  }

  lemma {:induction false} RootsStillMet(roots: seq<(string, Address)>, level: map<Address, nat>, queue: Queue, dist: seq<nat>, offset: nat, more: Queue)
    requires offset < |queue| == |dist| && queue[offset].0 !in level && RootsMet(roots, level, queue, dist, offset)
    ensures RootsMet(roots, level[queue[offset].0 := dist[offset]], queue + more, dist + seq(|more|, _ => dist[offset] + 1), offset + 1)
  {
    forall r | IsRoot(roots, r)
      ensures Met(level[queue[offset].0 := dist[offset]], queue + more, dist + seq(|more|, _ => dist[offset] + 1), offset + 1, r, 0)
    {
      StillMet(level, queue, dist, offset, more, r, 0);
    }
  }

  lemma {:induction false} TargetsStillMet(heap: Heap, level: map<Address, nat>, queue: Queue, dist: seq<nat>, offset: nat, more: Queue)
    requires offset < |queue| == |dist| && queue[offset].0 !in level && TargetsMet(heap, level, queue, dist, offset)
    requires forall y :: Leads(heap, queue[offset].0, y) ==> exists j :: 0 <= j < |more| && more[j].0 == y
    ensures TargetsMet(heap, level[queue[offset].0 := dist[offset]], queue + more, dist + seq(|more|, _ => dist[offset] + 1), offset + 1)
  {
    var a, d := queue[offset].0, dist[offset];
    var level', queue', dist' := level[a := d], queue + more, dist + seq(|more|, _ => d + 1);
    forall x, y | x in level' && Leads(heap, x, y) ensures Met(level', queue', dist', offset + 1, y, level'[x] + 1) {
      if x != a {
        StillMet(level, queue, dist, offset, more, y, level[x] + 1);
      } else {
        NewlyMet(level', queue, dist, offset + 1, more, y, d + 1);
      }
    }
  }

  /** Visiting an object adds what it leads to. */
  lemma {:induction false} VisitNext(heap: Heap, roots: seq<(string, Address)>, owner: map<Address, Path>, level: map<Address, nat>,
                                     queue: Queue, dist: seq<nat>, offset: nat, more: Queue)
    requires Searching(heap, roots, owner, level, queue, dist, offset) && offset < |queue| && queue[offset].0 in heap.Keys - level.Keys
    requires forall j :: 0 <= j < |more| ==> LeadsAt(heap, queue[offset].0, queue[offset].1, more[j].0, more[j].1)
    requires forall y :: Leads(heap, queue[offset].0, y) ==> exists j :: 0 <= j < |more| && more[j].0 == y
    ensures Searching(heap, roots, owner[queue[offset].0 := queue[offset].1], level[queue[offset].0 := dist[offset]],
                      queue + more, dist + seq(|more|, _ => dist[offset] + 1), offset + 1)
  {
    var a, node, d := queue[offset].0, queue[offset].1, dist[offset];
    var queue', dist', level' := queue + more, dist + seq(|more|, _ => d + 1), level[a := d];
    assert OwnersReached(heap, roots, owner[a := node], level') by { OwnerReached(heap, roots, owner, level, a, node, d); }
    assert QueueReached(heap, roots, queue', dist') by { MoreReached(heap, roots, queue, dist, a, node, d, more); }
    assert InLevels(level', dist', offset + 1) by { LevelsGoOn(level, dist, offset, a, |more|); }
    assert RootsMet(roots, level', queue', dist', offset + 1) by { RootsStillMet(roots, level, queue, dist, offset, more); }
    assert TargetsMet(heap, level', queue', dist', offset + 1) by { TargetsStillMet(heap, level, queue, dist, offset, more); }
  }

  lemma {:induction false} OwnerReached(heap: Heap, roots: seq<(string, Address)>, owner: map<Address, Path>, level: map<Address, nat>, a: Address, node: Path, d: nat)
    requires OwnersReached(heap, roots, owner, level) && a in heap && a !in owner && ReachableIn(heap, roots, a, node, d)
    ensures OwnersReached(heap, roots, owner[a := node], level[a := d])
  {
  }

  /** A search that has come to its end has visited everything reachable, at the nearest node. */
  lemma {:induction false} SearchEnds(heap: Heap, roots: seq<(string, Address)>, owner: map<Address, Path>, level: map<Address, nat>,
                                      queue: Queue, dist: seq<nat>)
    requires Searching(heap, roots, owner, level, queue, dist, |queue|)
    ensures forall a :: a in owner <==> Reachable(heap, roots, a)
    ensures forall a :: a in owner ==> ShortestAt(heap, roots, a, owner[a])
  {
    assert Levelled(heap, roots, level);
    forall a | Reachable(heap, roots, a) ensures a in owner {
      var p :| ReachableAt(heap, roots, a, p);
      var walk :| Chain(heap, roots, walk, a, p);
      LevelsAreLeast(heap, roots, level, walk, a, p);
    }
    forall a | a in owner ensures Reachable(heap, roots, a) && ShortestAt(heap, roots, a, owner[a]) {
      var walk :| Chain(heap, roots, walk, a, owner[a]) && Length(walk) == level[a];
      assert ReachableAt(heap, roots, a, owner[a]);
      forall other, q | Chain(heap, roots, other, a, q) ensures Length(walk) <= Length(other) {
        LevelsAreLeast(heap, roots, level, other, a, q);
      }
    }
  }

  /** The analysis: it ends with exactly the reachable objects visited, every one of them at a node
      that is how a shortest chain of references to it reads, and every new one of them charged there
      and nowhere else. It fails exactly when it can get to something it cannot read. Without an old
      dump, `old_` is empty. */
  method Analyse(heap: Heap, roots: seq<(string, Address)>, old_: set<Address>)
    returns (ok: bool, visited: set<Address>, sizes: map<Path, int>, counts: map<Path, int>, ghost owner: map<Address, Path>)
    ensures ok <==> forall a :: Reachable(heap, roots, a) ==> !Bad(heap, a)
    ensures ok ==> forall a :: a in visited <==> Reachable(heap, roots, a)
    ensures ok ==> owner.Keys == visited && forall a :: a in owner ==> ShortestAt(heap, roots, a, owner[a])
    ensures ok ==> Charged(heap, old_, owner, sizes, counts)
  {
    ok := true;
    visited, sizes, counts, owner := {}, map[], map[], map[];
    var queue := seq(|roots|, i requires 0 <= i < |roots| => (roots[i].1, [roots[i].0]));
    var offset := 0;
    ghost var level, dist := map[], seq(|roots|, _ => 0);
    SearchStarts(heap, roots, queue, dist);
    NothingCharged(heap, old_);
    while offset < |queue|
      invariant 0 <= offset <= |queue| && owner.Keys == visited && Searching(heap, roots, owner, level, queue, dist, offset)
      invariant Charged(heap, old_, owner, sizes, counts)
      invariant forall a :: a in owner ==> !Bad(heap, a)
      decreases heap.Keys - visited, |queue| - offset
    {
      var (addr, node) := queue[offset];
      if addr in visited {
        SkipVisited(heap, roots, owner, level, queue, dist, offset);
        offset := offset + 1;
        continue;
      }
      if Bad(heap, addr) {
        BadIsReached(heap, roots, addr, node, dist[offset]);
        ok := false;
        return;
      }
      var more := Entries(Edges(heap, heap[addr]), node);
      EdgesLead(heap, addr, Edges(heap, heap[addr]), node);
      VisitNext(heap, roots, owner, level, queue, dist, offset, more);
      sizes, counts := ChargeNew(heap, old_, owner, addr, node, sizes, counts);
      visited := visited + {addr};
      owner, level := owner[addr := node], level[addr := dist[offset]];
      queue, dist := queue + more, dist + seq(|more|, _ => dist[offset] + 1);
      offset := offset + 1;
    }
    SearchEnds(heap, roots, owner, level, queue, dist);
  }

  lemma {:induction false} BadIsReached(heap: Heap, roots: seq<(string, Address)>, a: Address, p: Path, n: nat)
    requires ReachableIn(heap, roots, a, p, n)
    ensures Reachable(heap, roots, a)
  {
    assert ReachableAt(heap, roots, a, p);
  }

  lemma {:induction false} NothingCharged(heap: Heap, old_: set<Address>)
    ensures Charged(heap, old_, map[], map[], map[])
  {
    assert NewSizes(heap, old_, map[]) == map[];
    forall p ensures ChargedSizes(heap, old_, map[], p) == map[] && ChargedCount(heap, old_, map[], p) == map[] {
    }
  }
}
