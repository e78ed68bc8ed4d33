/** A reader for the JSON values of syntax trees: it looks members up by name, and tells nodes apart by the
    name of their type. */
module AstReader {
  import opened Wrappers
  import opened Json
  import opened SyntaxTree

  // ----- members by name -----

  function Lookup(members: seq<Member>, name: string): Option<Value> {
    if members == [] then None else if members[0].name == name then Some(members[0].value) else Lookup(members[1..], name)
  }

  function StringAt(members: seq<Member>, name: string): Option<string> {
    var v := Lookup(members, name);
    if v.Some? && v.value.Str? then Some(v.value.s) else None
  }

  function BoolAt(members: seq<Member>, name: string): Option<bool> {
    var v := Lookup(members, name);
    if v.Some? && v.value.Bool? then Some(v.value.b) else None
  }

  function IntAt(members: seq<Member>, name: string): Option<int> {
    var v := Lookup(members, name);
    if v.Some? && v.value.Int? then Some(v.value.i) else None
  }

  function CharAt(members: seq<Member>, name: string): Option<char> {
    var s := StringAt(members, name);
    if s.Some? && |s.value| == 1 then Some(s.value[0]) else None
  }

  function OpAt(members: seq<Member>, name: string): Option<BinaryOp> {
    var s := StringAt(members, name);
    if s.Some? then ReadOp(s.value) else None
  }

  function ReadOp(s: string): Option<BinaryOp> {
    if s == "Add" then Some(Add) else if s == "Sub" then Some(Sub) else if s == "Mul" then Some(Mul)
    else if s == "Div" then Some(Div) else if s == "FloorDiv" then Some(FloorDiv) else if s == "Mod" then Some(Mod)
    else if s == "Pow" then Some(Pow) else if s == "Concat" then Some(Concat)
    else if s == "CompareNe" then Some(CompareNe) else if s == "CompareEq" then Some(CompareEq)
    else if s == "CompareLt" then Some(CompareLt) else if s == "CompareLe" then Some(CompareLe)
    else if s == "CompareGt" then Some(CompareGt) else if s == "CompareGe" then Some(CompareGe)
    else if s == "BitAnd" then Some(BitAnd) else if s == "BitOr" then Some(BitOr) else if s == "BitXor" then Some(BitXor)
    else if s == "ShiftLeft" then Some(ShiftLeft) else if s == "ShiftRight" then Some(ShiftRight)
    else if s == "And" then Some(And) else if s == "Or" then Some(Or) else None
  }

  function ReadKind(s: string): Option<ItemKind> {
    if s == "item" then Some(ListItem) else if s == "record" then Some(RecordItem)
    else if s == "general" then Some(GeneralItem) else None
  }

  // ----- locations -----

  function ReadNumber(s: string): Option<(nat, string)> {
    var n := DigitPrefix(s);
    if n == 0 then None else Some((DigitsValue(s[..n]), s[n..]))
  }

  /** What is behind a given beginning. */
  function After(s: string, start: string): Option<string> {
    if start <= s then Some(s[|start|..]) else None
  }

  /** Line and column, with a comma between them. */
  function ReadPosition(s: string): Option<(Position, string)> {
    var line := ReadNumber(s);
    if line.None? then None
    else
      var rest := After(line.value.1, ",");
      if rest.None? then None
      else
        var column := ReadNumber(rest.value);
        if column.None? then None else Some((Position(line.value.0, column.value.0), column.value.1))
  }

  /** Two positions with a dash between them. */
  function ReadLocation(s: string): Option<Location> {
    var begin := ReadPosition(s);
    if begin.None? then None
    else
      var rest := After(begin.value.1, " - ");
      if rest.None? then None
      else
        var end := ReadPosition(rest.value);
        if end.Some? && end.value.1 == "" then Some(Location(begin.value.0, end.value.0)) else None
  }

  function LocationAt(members: seq<Member>, name: string): Option<Location> {
    var s := StringAt(members, name);
    if s.Some? then ReadLocation(s.value) else None
  }

  // ----- nodes -----

  function Child(members: seq<Member>, name: string): Option<Ast>
    decreases members, 1
  {
    if members == [] then None else if members[0].name == name then FromJson(members[0].value) else Child(members[1..], name)
  }

  /** A member that may be left out. */
  function OptionalChild(members: seq<Member>, name: string): Option<Ast>
    decreases members, 2
  {
    if Lookup(members, name).None? then Some(Missing) else Child(members, name)
  }

  function Children(members: seq<Member>, name: string): Option<seq<Ast>>
    decreases members, 1
  {
    if members == [] then None
    else if members[0].name == name then
      match members[0].value
      case Arr(items) => FromJsons(items)
      case _ => None
    else Children(members[1..], name)
  }

  function ReadGroup(l: Location, members: seq<Member>): Option<Ast>
    decreases members, 3
  {
    var expr := Child(members, "expr");
    if expr.Some?
    then Some(Group(l, expr.value)) else None
  }

  function ReadConstantNil(l: Location, members: seq<Member>): Option<Ast> {
    Some(ConstantNil(l))
  }

  function ReadConstantBool(l: Location, members: seq<Member>): Option<Ast>
  {
    var flag := BoolAt(members, "value");
    if flag.Some?
    then Some(ConstantBool(l, flag.value)) else None
  }

  function ReadConstantInteger(l: Location, members: seq<Member>): Option<Ast>
  {
    var integer := IntAt(members, "value");
    if integer.Some?
    then Some(ConstantInteger(l, integer.value)) else None
  }

  function ReadConstantString(l: Location, members: seq<Member>): Option<Ast>
  {
    var text := StringAt(members, "value");
    if text.Some?
    then Some(ConstantString(l, text.value)) else None
  }

  function ReadLocalUse(l: Location, members: seq<Member>): Option<Ast>
    decreases members, 3
  {
    var local := Child(members, "local");
    if local.Some?
    then Some(LocalUse(l, local.value)) else None
  }

  function ReadCall(l: Location, members: seq<Member>): Option<Ast>
    decreases members, 3
  {
    var func, args, self, argLocation := Child(members, "func"), Children(members, "args"), BoolAt(members, "self"), LocationAt(members, "argLocation");
    if func.Some? && args.Some? && self.Some? && argLocation.Some?
    then Some(Call(l, func.value, args.value, self.value, argLocation.value)) else None
  }

  function ReadIndexName(l: Location, members: seq<Member>): Option<Ast>
    decreases members, 3
  {
    var expr, name, indexLocation, opChar := Child(members, "expr"), StringAt(members, "index"), LocationAt(members, "indexLocation"), CharAt(members, "op");
    if expr.Some? && name.Some? && indexLocation.Some? && opChar.Some?
    then Some(IndexName(l, expr.value, name.value, indexLocation.value, opChar.value)) else None
  }

  function ReadTable(l: Location, members: seq<Member>): Option<Ast>
    decreases members, 3
  {
    var items := Children(members, "items");
    if items.Some?
    then Some(Table(l, items.value)) else None
  }

  function ReadInterpString(l: Location, members: seq<Member>): Option<Ast>
    decreases members, 3
  {
    var strings, expressions := Children(members, "strings"), Children(members, "expressions");
    if strings.Some? && expressions.Some?
    then Some(InterpString(l, strings.value, expressions.value)) else None
  }

  function ReadBinary(l: Location, members: seq<Member>): Option<Ast>
    decreases members, 3
  {
    var binaryOp, left, right := OpAt(members, "op"), Child(members, "left"), Child(members, "right");
    if binaryOp.Some? && left.Some? && right.Some?
    then Some(Binary(l, binaryOp.value, left.value, right.value)) else None
  }

  function ReadBlock(l: Location, members: seq<Member>): Option<Ast>
    decreases members, 3
  {
    var hasEnd, stats := BoolAt(members, "hasEnd"), Children(members, "body");
    if hasEnd.Some? && stats.Some?
    then Some(Block(l, hasEnd.value, stats.value)) else None
  }

  function ReadIf(l: Location, members: seq<Member>): Option<Ast>
    decreases members, 3
  {
    var condition, thenbody, elsebody, hasThen := Child(members, "condition"), Child(members, "thenbody"), OptionalChild(members, "elsebody"), BoolAt(members, "hasThen");
    if condition.Some? && thenbody.Some? && elsebody.Some? && hasThen.Some?
    then Some(If(l, condition.value, thenbody.value, elsebody.value, hasThen.value)) else None
  }

  function ReadReturn(l: Location, members: seq<Member>): Option<Ast>
    decreases members, 3
  {
    var list := Children(members, "list");
    if list.Some?
    then Some(Return(l, list.value)) else None
  }

  function ReadStatLocal(l: Location, members: seq<Member>): Option<Ast>
    decreases members, 3
  {
    var vars, values := Children(members, "vars"), Children(members, "values");
    if vars.Some? && values.Some?
    then Some(StatLocal(l, vars.value, values.value)) else None
  }

  function ReadFor(l: Location, members: seq<Member>): Option<Ast>
    decreases members, 3
  {
    var local, from, to, step, body, hasDo := Child(members, "var"), Child(members, "from"), Child(members, "to"), OptionalChild(members, "step"), Child(members, "body"), BoolAt(members, "hasDo");
    if local.Some? && from.Some? && to.Some? && step.Some? && body.Some? && hasDo.Some?
    then Some(For(l, local.value, from.value, to.value, step.value, body.value, hasDo.value)) else None
  }

  function ReadTypeUnion(l: Location, members: seq<Member>): Option<Ast>
    decreases members, 3
  {
    var types := Children(members, "types");
    if types.Some?
    then Some(TypeUnion(l, types.value)) else None
  }

  function ReadLocal(l: Location, members: seq<Member>): Option<Ast>
    decreases members, 3
  {
    var name, annotation, isConst := StringAt(members, "name"), Child(members, "luauType"), BoolAt(members, "isConst");
    if name.Some? && annotation.Some? && isConst.Some? then Some(Local(l, name.value, annotation.value, isConst.value)) else None
  }

  /** Items of lists have no key. */
  function ReadTableItem(members: seq<Member>): Option<Ast>
    decreases members, 3
  {
    var kind := StringAt(members, "kind");
    var k := if kind.Some? then ReadKind(kind.value) else None;
    var value := Child(members, "value");
    if k.None? || value.None? then None
    else if k.value.ListItem? then Some(TableItem(ListItem, Missing, value.value))
    else
      var key := Child(members, "key");
      if key.Some? then Some(TableItem(k.value, key.value, value.value)) else None
  }

  function ReadNode(kind: string, l: Location, members: seq<Member>): Option<Ast>
    decreases members, 4
  {
    if kind == "AstExprGroup" then ReadGroup(l, members)
    else if kind == "AstExprConstantNil" then ReadConstantNil(l, members)
    else if kind == "AstExprConstantBool" then ReadConstantBool(l, members)
    else if kind == "AstExprConstantInteger" then ReadConstantInteger(l, members)
    else if kind == "AstExprConstantString" then ReadConstantString(l, members)
    else if kind == "AstExprLocal" then ReadLocalUse(l, members)
    else if kind == "AstExprCall" then ReadCall(l, members)
    else if kind == "AstExprIndexName" then ReadIndexName(l, members)
    else if kind == "AstExprTable" then ReadTable(l, members)
    else if kind == "AstExprInterpString" then ReadInterpString(l, members)
    else if kind == "AstExprBinary" then ReadBinary(l, members)
    else if kind == "AstStatBlock" then ReadBlock(l, members)
    else if kind == "AstStatIf" then ReadIf(l, members)
    else if kind == "AstStatReturn" then ReadReturn(l, members)
    else if kind == "AstStatLocal" then ReadStatLocal(l, members)
    else if kind == "AstStatFor" then ReadFor(l, members)
    else if kind == "AstTypeUnion" then ReadTypeUnion(l, members)
    else None
  }

  function FromLocated(kind: string, members: seq<Member>): Option<Ast>
    decreases members, 5
  {
    var l := LocationAt(members, "location");
    if l.None? then None
    else if kind == "AstLocal" then ReadLocal(l.value, members)
    else ReadNode(kind, l.value, members)
  }

  function FromTyped(kind: string, members: seq<Member>): Option<Ast>
    decreases members, 6
  {
    if kind == "AstExprTableItem" then ReadTableItem(members) else FromLocated(kind, members)
  }

  function FromObject(members: seq<Member>): Option<Ast>
    decreases members, 7
  {
    var kind := StringAt(members, "type");
    if kind.None? then None else FromTyped(kind.value, members)
  }

  /** The tree that a value stands for. */
  function FromJson(v: Value): Option<Ast>
    decreases v, 0
  {
    match v
    case Null => Some(Missing)
    case Str(s) => Some(Chars(s))
    case Obj(members) => FromObject(members)
    case _ => None
  }

  function FromJsons(items: seq<Value>): Option<seq<Ast>>
    decreases items, 0
  {
    if items == [] then Some([])
    else
      var head, tail := FromJson(items[0]), FromJsons(items[1..]);
      if head.Some? && tail.Some? then Some([head.value] + tail.value) else None
  }

  // ----- what is written of a tree -----

  /** The tree without what is not written: the keys of list items, and instantiations, of which only the
      expression is left. */
  function Written(a: Ast): Ast
    decreases a
  {
    match a
    case Local(l, name, annotation, isConst) => Local(l, name, Written(annotation), isConst)
    case TableItem(kind, key, value) => TableItem(kind, if kind.ListItem? then Missing else Written(key), Written(value))
    case Group(l, expr) => Group(l, Written(expr))
    case LocalUse(l, local) => LocalUse(l, Written(local))
    case Call(l, func, args, self, at) => Call(l, Written(func), WrittenAll(args), self, at)
    case Instantiate(_, expr, _) => Written(expr)
    case IndexName(l, expr, name, at, op) => IndexName(l, Written(expr), name, at, op)
    case Table(l, items) => Table(l, WrittenAll(items))
    case InterpString(l, strings, expressions) => InterpString(l, WrittenAll(strings), WrittenAll(expressions))
    case Binary(l, op, left, right) => Binary(l, op, Written(left), Written(right))
    case Block(l, hasEnd, stats) => Block(l, hasEnd, WrittenAll(stats))
    case If(l, condition, thenbody, elsebody, hasThen) => If(l, Written(condition), Written(thenbody), Written(elsebody), hasThen)
    case Return(l, list) => Return(l, WrittenAll(list))
    case StatLocal(l, vars, values) => StatLocal(l, WrittenAll(vars), WrittenAll(values))
    case For(l, local, from, to, step, body, hasDo) =>
      For(l, Written(local), Written(from), Written(to), Written(step), Written(body), hasDo)
    case TypeUnion(l, types) => TypeUnion(l, WrittenAll(types))
    case _ => a
  }

  function WrittenAll(items: seq<Ast>): seq<Ast>
    decreases items
  {
    seq(|items|, i requires 0 <= i < |items| => Written(items[i]))
  }

  // ----- reading back -----

  ghost predicate ReadBack(a: Ast) {
    FromJson(ToJson(a)) == Some(Written(a))
  }

  ghost predicate ReadBackAll(items: seq<Ast>) {
    FromJsons(ToJsons(items)) == Some(WrittenAll(items))
  }

  /** None of the first members has this name. */
  ghost predicate NotAmong(members: seq<Member>, n: nat, name: string)
    requires n <= |members|
    decreases n
  {
    n == 0 || (members[n - 1].name != name && NotAmong(members, n - 1, name))
  }

  lemma {:induction false} NotAmongRest(members: seq<Member>, n: nat, name: string)
    requires 0 < n <= |members| && NotAmong(members, n, name)
    ensures members[0].name != name && NotAmong(members[1..], n - 1, name)
    decreases n
  {
    if n > 1 {
      NotAmongRest(members, n - 1, name);
    }
  }

  lemma {:induction false} LookupAt(members: seq<Member>, i: nat, name: string)
    requires i < |members| && members[i].name == name && NotAmong(members, i, name)
    ensures Lookup(members, name) == Some(members[i].value)
  {
    if i > 0 {
      NotAmongRest(members, i, name);
      LookupAt(members[1..], i - 1, name);
    }
  }

  lemma {:induction false} LookupNone(members: seq<Member>, name: string)
    requires NotAmong(members, |members|, name)
    ensures Lookup(members, name) == None
  {
    if members != [] {
      NotAmongRest(members, |members|, name);
      LookupNone(members[1..], name);
    }
  }

  lemma {:induction false} ChildIs(members: seq<Member>, name: string)
    ensures var v := Lookup(members, name); Child(members, name) == if v.Some? then FromJson(v.value) else None
  {
    if members != [] && members[0].name != name {
      ChildIs(members[1..], name);
    }
  }

  lemma {:induction false} ChildrenIs(members: seq<Member>, name: string)
    ensures var v := Lookup(members, name); Children(members, name) == if v.Some? && v.value.Arr? then FromJsons(v.value.items) else None
  {
    if members != [] && members[0].name != name {
      ChildrenIs(members[1..], name);
    }
  }

  lemma {:induction false} OpReadsBack(op: BinaryOp)
    ensures ReadOp(BinaryName(op)) == Some(op)
  {
  }

  lemma {:induction false} NumberReadsBack(n: nat, rest: string)
    requires rest == [] || !IsDigit(rest[0])
    ensures ReadNumber(Digits(n) + rest) == Some((n, rest))
  {
    DigitsFacts(n);
    DigitPrefixAt(Digits(n), rest);
    assert (Digits(n) + rest)[..|Digits(n)|] == Digits(n) && (Digits(n) + rest)[|Digits(n)|..] == rest;
  }

  lemma {:induction false} AfterStart(start: string, rest: string)
    ensures After(start + rest, start) == Some(rest)
  {
    assert (start + rest)[|start|..] == rest;
  }

  lemma {:induction false} PositionReadsBack(p: Position, rest: string)
    requires rest == [] || !IsDigit(rest[0])
    ensures ReadPosition(PositionText(p) + rest) == Some((p, rest))
  {
    var line, column := Digits(p.line), Digits(p.column) + rest;
    assert PositionText(p) + rest == line + ("," + column) by {
      Assoc(line, ",", Digits(p.column));
      Assoc(line, "," + Digits(p.column), rest);
      Assoc(",", Digits(p.column), rest);
    }
    NumberReadsBack(p.column, rest);
    assert ("," + column)[0] == ',';
    NumberReadsBack(p.line, "," + column);
    AfterStart(",", column);
    PositionSteps(line + ("," + column), p, column, rest);
  }

  lemma {:induction false} PositionSteps(text: string, p: Position, column: string, rest: string)
    requires ReadNumber(text) == Some((p.line, "," + column)) && After("," + column, ",") == Some(column)
    requires ReadNumber(column) == Some((p.column, rest))
    ensures ReadPosition(text) == Some((p, rest))
  {
  }

  lemma {:induction false} LocationReadsBack(l: Location)
    ensures ReadLocation(LocationText(l)) == Some(l)
  {
    var begin, end := PositionText(l.begin), PositionText(l.end);
    assert LocationText(l) == begin + (" - " + end) by { Assoc(begin, " - ", end); }
    assert end + "" == end;
    PositionReadsBack(l.end, "");
    assert (" - " + end)[0] == ' ';
    PositionReadsBack(l.begin, " - " + end);
    AfterStart(" - ", end);
    LocationSteps(begin + (" - " + end), l, end);
  }

  lemma {:induction false} LocationSteps(text: string, l: Location, end: string)
    requires ReadPosition(text) == Some((l.begin, " - " + end)) && After(" - " + end, " - ") == Some(end)
    requires ReadPosition(end) == Some((l.end, ""))
    ensures ReadLocation(text) == Some(l)
  {
  }

  function WithHeader(a: Ast): seq<Member>
    requires !a.Missing? && !a.Chars? && !a.TableItem?
  {
    [Member("type", Str(TypeName(a))), Member("location", Str(LocationText(a.location)))] + Fields(a)
  }

  lemma {:induction false} GroupNames(ms: seq<Member>, v0: Value, v1: Value, v2: Value)
    requires ms == [Member("type", v0), Member("location", v1), Member("expr", v2)]
    ensures Lookup(ms, "expr") == Some(v2)
  {
    LookupAt(ms, 2, "expr");
  }

  lemma {:induction false} GroupReadsBack(a: Ast)
    requires a.Group? && ReadBack(a.expr)
    ensures ReadGroup(a.location, WithHeader(a)) == Some(Written(a))
  {
    var ms := WithHeader(a);
    assert ms == [Member("type", Str(TypeName(a))), Member("location", Str(LocationText(a.location))),
                  Member("expr", ToJson(a.expr))];
    GroupNames(ms, Str(TypeName(a)), Str(LocationText(a.location)), ToJson(a.expr));
    ChildIs(ms, "expr");
  }

  lemma {:induction false} ConstantNilReadsBack(a: Ast)
    requires a.ConstantNil?
    ensures ReadConstantNil(a.location, WithHeader(a)) == Some(Written(a))
  {
  }

  lemma {:induction false} ConstantBoolNames(ms: seq<Member>, v0: Value, v1: Value, v2: Value)
    requires ms == [Member("type", v0), Member("location", v1), Member("value", v2)]
    ensures Lookup(ms, "value") == Some(v2)
  {
    LookupAt(ms, 2, "value");
  }

  lemma {:induction false} ConstantBoolReadsBack(a: Ast)
    requires a.ConstantBool?
    ensures ReadConstantBool(a.location, WithHeader(a)) == Some(Written(a))
  {
    var ms := WithHeader(a);
    assert ms == [Member("type", Str(TypeName(a))), Member("location", Str(LocationText(a.location))),
                  Member("value", Bool(a.flag))];
    ConstantBoolNames(ms, Str(TypeName(a)), Str(LocationText(a.location)), Bool(a.flag));
  }

  lemma {:induction false} ConstantIntegerNames(ms: seq<Member>, v0: Value, v1: Value, v2: Value)
    requires ms == [Member("type", v0), Member("location", v1), Member("value", v2)]
    ensures Lookup(ms, "value") == Some(v2)
  {
    LookupAt(ms, 2, "value");
  }

  lemma {:induction false} ConstantIntegerReadsBack(a: Ast)
    requires a.ConstantInteger?
    ensures ReadConstantInteger(a.location, WithHeader(a)) == Some(Written(a))
  {
    var ms := WithHeader(a);
    assert ms == [Member("type", Str(TypeName(a))), Member("location", Str(LocationText(a.location))),
                  Member("value", Int(a.integer))];
    ConstantIntegerNames(ms, Str(TypeName(a)), Str(LocationText(a.location)), Int(a.integer));
  }

  lemma {:induction false} ConstantStringNames(ms: seq<Member>, v0: Value, v1: Value, v2: Value)
    requires ms == [Member("type", v0), Member("location", v1), Member("value", v2)]
    ensures Lookup(ms, "value") == Some(v2)
  {
    LookupAt(ms, 2, "value");
  }

  lemma {:induction false} ConstantStringReadsBack(a: Ast)
    requires a.ConstantString?
    ensures ReadConstantString(a.location, WithHeader(a)) == Some(Written(a))
  {
    var ms := WithHeader(a);
    assert ms == [Member("type", Str(TypeName(a))), Member("location", Str(LocationText(a.location))),
                  Member("value", Str(a.text))];
    ConstantStringNames(ms, Str(TypeName(a)), Str(LocationText(a.location)), Str(a.text));
  }

  lemma {:induction false} LocalUseNames(ms: seq<Member>, v0: Value, v1: Value, v2: Value)
    requires ms == [Member("type", v0), Member("location", v1), Member("local", v2)]
    ensures Lookup(ms, "local") == Some(v2)
  {
    LookupAt(ms, 2, "local");
  }

  lemma {:induction false} LocalUseReadsBack(a: Ast)
    requires a.LocalUse? && ReadBack(a.local)
    ensures ReadLocalUse(a.location, WithHeader(a)) == Some(Written(a))
  {
    var ms := WithHeader(a);
    assert ms == [Member("type", Str(TypeName(a))), Member("location", Str(LocationText(a.location))),
                  Member("local", ToJson(a.local))];
    LocalUseNames(ms, Str(TypeName(a)), Str(LocationText(a.location)), ToJson(a.local));
    ChildIs(ms, "local");
  }

  lemma {:induction false} CallNames(ms: seq<Member>, v0: Value, v1: Value, v2: Value, v3: Value, v4: Value, v5: Value)
    requires ms == [Member("type", v0), Member("location", v1), Member("func", v2), Member("args", v3), Member("self", v4), Member("argLocation", v5)]
    ensures Lookup(ms, "func") == Some(v2) && Lookup(ms, "args") == Some(v3) && Lookup(ms, "self") == Some(v4) && Lookup(ms, "argLocation") == Some(v5)
  {
    LookupAt(ms, 2, "func");
    LookupAt(ms, 3, "args");
    LookupAt(ms, 4, "self");
    LookupAt(ms, 5, "argLocation");
  }

  lemma {:induction false} CallReadsBack(a: Ast)
    requires a.Call? && ReadBack(a.func) && ReadBackAll(a.args)
    ensures ReadCall(a.location, WithHeader(a)) == Some(Written(a))
  {
    var ms := WithHeader(a);
    assert ms == [Member("type", Str(TypeName(a))), Member("location", Str(LocationText(a.location))),
                  Member("func", ToJson(a.func)), Member("args", Arr(ToJsons(a.args))), Member("self", Bool(a.self)), Member("argLocation", Str(LocationText(a.argLocation)))];
    CallNames(ms, Str(TypeName(a)), Str(LocationText(a.location)), ToJson(a.func), Arr(ToJsons(a.args)), Bool(a.self), Str(LocationText(a.argLocation)));
    assert Child(ms, "func") == Some(Written(a.func)) by { ChildIs(ms, "func"); }
    assert Children(ms, "args") == Some(WrittenAll(a.args)) by { ChildrenIs(ms, "args"); }
    LocationIs(ms, "argLocation", a.argLocation);
    MadeCall(a.location, ms, Written(a.func), WrittenAll(a.args), a.self, a.argLocation);
  }

  lemma {:induction false} MadeCall(l: Location, ms: seq<Member>, func: Ast, args: seq<Ast>, self: bool, at: Location)
    requires Child(ms, "func") == Some(func) && Children(ms, "args") == Some(args)
    requires BoolAt(ms, "self") == Some(self) && LocationAt(ms, "argLocation") == Some(at)
    ensures ReadCall(l, ms) == Some(Call(l, func, args, self, at))
  {
  }

  lemma {:induction false} IndexNameNames(ms: seq<Member>, v0: Value, v1: Value, v2: Value, v3: Value, v4: Value, v5: Value)
    requires ms == [Member("type", v0), Member("location", v1), Member("expr", v2), Member("index", v3), Member("indexLocation", v4), Member("op", v5)]
    ensures Lookup(ms, "expr") == Some(v2) && Lookup(ms, "index") == Some(v3) && Lookup(ms, "indexLocation") == Some(v4) && Lookup(ms, "op") == Some(v5)
  {
    LookupAt(ms, 2, "expr");
    LookupAt(ms, 3, "index");
    LookupAt(ms, 4, "indexLocation");
    LookupAt(ms, 5, "op");
  }

  lemma {:induction false} IndexNameReadsBack(a: Ast)
    requires a.IndexName? && ReadBack(a.expr)
    ensures ReadIndexName(a.location, WithHeader(a)) == Some(Written(a))
  {
    var ms := WithHeader(a);
    assert ms == [Member("type", Str(TypeName(a))), Member("location", Str(LocationText(a.location))),
                  Member("expr", ToJson(a.expr)), Member("index", Str(a.name)), Member("indexLocation", Str(LocationText(a.indexLocation))), Member("op", Str([a.opChar]))];
    IndexNameNames(ms, Str(TypeName(a)), Str(LocationText(a.location)), ToJson(a.expr), Str(a.name), Str(LocationText(a.indexLocation)), Str([a.opChar]));
    assert Child(ms, "expr") == Some(Written(a.expr)) by { ChildIs(ms, "expr"); }
    LocationIs(ms, "indexLocation", a.indexLocation);
    CharIs(ms, "op", a.opChar);
    MadeIndexName(a.location, ms, Written(a.expr), a.name, a.indexLocation, a.opChar);
  }

  lemma {:induction false} LocationIs(ms: seq<Member>, name: string, l: Location)
    requires Lookup(ms, name) == Some(Str(LocationText(l)))
    ensures LocationAt(ms, name) == Some(l)
  {
    LocationReadsBack(l);
  }

  lemma {:induction false} CharIs(ms: seq<Member>, name: string, c: char)
    requires Lookup(ms, name) == Some(Str([c]))
    ensures CharAt(ms, name) == Some(c)
  {
  }

  lemma {:induction false} MadeIndexName(l: Location, ms: seq<Member>, expr: Ast, name: string, at: Location, op: char)
    requires Child(ms, "expr") == Some(expr) && StringAt(ms, "index") == Some(name)
    requires LocationAt(ms, "indexLocation") == Some(at) && CharAt(ms, "op") == Some(op)
    ensures ReadIndexName(l, ms) == Some(IndexName(l, expr, name, at, op))
  {
  }

  lemma {:induction false} TableNames(ms: seq<Member>, v0: Value, v1: Value, v2: Value)
    requires ms == [Member("type", v0), Member("location", v1), Member("items", v2)]
    ensures Lookup(ms, "items") == Some(v2)
  {
    LookupAt(ms, 2, "items");
  }

  lemma {:induction false} TableReadsBack(a: Ast)
    requires a.Table? && ReadBackAll(a.items)
    ensures ReadTable(a.location, WithHeader(a)) == Some(Written(a))
  {
    var ms := WithHeader(a);
    assert ms == [Member("type", Str(TypeName(a))), Member("location", Str(LocationText(a.location))),
                  Member("items", Arr(ToJsons(a.items)))];
    TableNames(ms, Str(TypeName(a)), Str(LocationText(a.location)), Arr(ToJsons(a.items)));
    ChildrenIs(ms, "items");
  }

  lemma {:induction false} InterpStringNames(ms: seq<Member>, v0: Value, v1: Value, v2: Value, v3: Value)
    requires ms == [Member("type", v0), Member("location", v1), Member("strings", v2), Member("expressions", v3)]
    ensures Lookup(ms, "strings") == Some(v2) && Lookup(ms, "expressions") == Some(v3)
  {
    LookupAt(ms, 2, "strings");
    LookupAt(ms, 3, "expressions");
  }

  lemma {:induction false} InterpStringReadsBack(a: Ast)
    requires a.InterpString? && ReadBackAll(a.strings) && ReadBackAll(a.expressions)
    ensures ReadInterpString(a.location, WithHeader(a)) == Some(Written(a))
  {
    var ms := WithHeader(a);
    assert ms == [Member("type", Str(TypeName(a))), Member("location", Str(LocationText(a.location))),
                  Member("strings", Arr(ToJsons(a.strings))), Member("expressions", Arr(ToJsons(a.expressions)))];
    InterpStringNames(ms, Str(TypeName(a)), Str(LocationText(a.location)), Arr(ToJsons(a.strings)), Arr(ToJsons(a.expressions)));
    ChildrenIs(ms, "strings");
    ChildrenIs(ms, "expressions");
  }

  lemma {:induction false} BinaryNames(ms: seq<Member>, v0: Value, v1: Value, v2: Value, v3: Value, v4: Value)
    requires ms == [Member("type", v0), Member("location", v1), Member("op", v2), Member("left", v3), Member("right", v4)]
    ensures Lookup(ms, "op") == Some(v2) && Lookup(ms, "left") == Some(v3) && Lookup(ms, "right") == Some(v4)
  {
    LookupAt(ms, 2, "op");
    LookupAt(ms, 3, "left");
    LookupAt(ms, 4, "right");
  }

  lemma {:induction false} BinaryReadsBack(a: Ast)
    requires a.Binary? && ReadBack(a.left) && ReadBack(a.right)
    ensures ReadBinary(a.location, WithHeader(a)) == Some(Written(a))
  {
    var ms := WithHeader(a);
    assert ms == [Member("type", Str(TypeName(a))), Member("location", Str(LocationText(a.location))),
                  Member("op", Str(BinaryName(a.binaryOp))), Member("left", ToJson(a.left)), Member("right", ToJson(a.right))];
    BinaryNames(ms, Str(TypeName(a)), Str(LocationText(a.location)), Str(BinaryName(a.binaryOp)), ToJson(a.left), ToJson(a.right));
    OpReadsBack(a.binaryOp);
    ChildIs(ms, "left");
    ChildIs(ms, "right");
  }

  lemma {:induction false} BlockNames(ms: seq<Member>, v0: Value, v1: Value, v2: Value, v3: Value)
    requires ms == [Member("type", v0), Member("location", v1), Member("hasEnd", v2), Member("body", v3)]
    ensures Lookup(ms, "hasEnd") == Some(v2) && Lookup(ms, "body") == Some(v3)
  {
    LookupAt(ms, 2, "hasEnd");
    LookupAt(ms, 3, "body");
  }

  lemma {:induction false} BlockReadsBack(a: Ast)
    requires a.Block? && ReadBackAll(a.stats)
    ensures ReadBlock(a.location, WithHeader(a)) == Some(Written(a))
  {
    var ms := WithHeader(a);
    assert ms == [Member("type", Str(TypeName(a))), Member("location", Str(LocationText(a.location))),
                  Member("hasEnd", Bool(a.hasEnd)), Member("body", Arr(ToJsons(a.stats)))];
    BlockNames(ms, Str(TypeName(a)), Str(LocationText(a.location)), Bool(a.hasEnd), Arr(ToJsons(a.stats)));
    ChildrenIs(ms, "body");
  }

  lemma {:induction false} IfNames(ms: seq<Member>, v0: Value, v1: Value, v2: Value, v3: Value, v4: Value, v5: Value)
    requires ms == [Member("type", v0), Member("location", v1), Member("condition", v2), Member("thenbody", v3), Member("elsebody", v4), Member("hasThen", v5)]
    ensures Lookup(ms, "condition") == Some(v2) && Lookup(ms, "thenbody") == Some(v3) && Lookup(ms, "elsebody") == Some(v4) && Lookup(ms, "hasThen") == Some(v5)
  {
    LookupAt(ms, 2, "condition");
    LookupAt(ms, 3, "thenbody");
    LookupAt(ms, 4, "elsebody");
    LookupAt(ms, 5, "hasThen");
  }

  lemma {:induction false} IfWithoutNames(ms: seq<Member>, v0: Value, v1: Value, v2: Value, v3: Value, v4: Value)
    requires ms == [Member("type", v0), Member("location", v1), Member("condition", v2), Member("thenbody", v3), Member("hasThen", v4)]
    ensures Lookup(ms, "condition") == Some(v2) && Lookup(ms, "thenbody") == Some(v3) && Lookup(ms, "hasThen") == Some(v4)
    ensures Lookup(ms, "elsebody") == None
  {
    LookupAt(ms, 2, "condition");
    LookupAt(ms, 3, "thenbody");
    LookupAt(ms, 4, "hasThen");
    LookupNone(ms, "elsebody");
  }

  lemma {:induction false} IfReadsBack(a: Ast)
    requires a.If? && ReadBack(a.condition) && ReadBack(a.thenbody) && ReadBack(a.elsebody)
    ensures ReadIf(a.location, WithHeader(a)) == Some(Written(a))
  {
    var ms := WithHeader(a);
    if a.elsebody.Missing? {
      assert ms == [Member("type", Str(TypeName(a))), Member("location", Str(LocationText(a.location))),
                    Member("condition", ToJson(a.condition)), Member("thenbody", ToJson(a.thenbody)), Member("hasThen", Bool(a.hasThen))];
      IfWithoutNames(ms, Str(TypeName(a)), Str(LocationText(a.location)), ToJson(a.condition), ToJson(a.thenbody), Bool(a.hasThen));
      ChildIs(ms, "condition");
      ChildIs(ms, "thenbody");
    } else {
      assert ms == [Member("type", Str(TypeName(a))), Member("location", Str(LocationText(a.location))),
                    Member("condition", ToJson(a.condition)), Member("thenbody", ToJson(a.thenbody)), Member("elsebody", ToJson(a.elsebody)), Member("hasThen", Bool(a.hasThen))];
      IfNames(ms, Str(TypeName(a)), Str(LocationText(a.location)), ToJson(a.condition), ToJson(a.thenbody), ToJson(a.elsebody), Bool(a.hasThen));
      ChildIs(ms, "condition");
      ChildIs(ms, "thenbody");
      ChildIs(ms, "elsebody");
    }
  }

  lemma {:induction false} ReturnNames(ms: seq<Member>, v0: Value, v1: Value, v2: Value)
    requires ms == [Member("type", v0), Member("location", v1), Member("list", v2)]
    ensures Lookup(ms, "list") == Some(v2)
  {
    LookupAt(ms, 2, "list");
  }

  lemma {:induction false} ReturnReadsBack(a: Ast)
    requires a.Return? && ReadBackAll(a.list)
    ensures ReadReturn(a.location, WithHeader(a)) == Some(Written(a))
  {
    var ms := WithHeader(a);
    assert ms == [Member("type", Str(TypeName(a))), Member("location", Str(LocationText(a.location))),
                  Member("list", Arr(ToJsons(a.list)))];
    ReturnNames(ms, Str(TypeName(a)), Str(LocationText(a.location)), Arr(ToJsons(a.list)));
    ChildrenIs(ms, "list");
  }

  lemma {:induction false} StatLocalNames(ms: seq<Member>, v0: Value, v1: Value, v2: Value, v3: Value)
    requires ms == [Member("type", v0), Member("location", v1), Member("vars", v2), Member("values", v3)]
    ensures Lookup(ms, "vars") == Some(v2) && Lookup(ms, "values") == Some(v3)
  {
    LookupAt(ms, 2, "vars");
    LookupAt(ms, 3, "values");
  }

  lemma {:induction false} StatLocalReadsBack(a: Ast)
    requires a.StatLocal? && ReadBackAll(a.vars) && ReadBackAll(a.values)
    ensures ReadStatLocal(a.location, WithHeader(a)) == Some(Written(a))
  {
    var ms := WithHeader(a);
    assert ms == [Member("type", Str(TypeName(a))), Member("location", Str(LocationText(a.location))),
                  Member("vars", Arr(ToJsons(a.vars))), Member("values", Arr(ToJsons(a.values)))];
    StatLocalNames(ms, Str(TypeName(a)), Str(LocationText(a.location)), Arr(ToJsons(a.vars)), Arr(ToJsons(a.values)));
    ChildrenIs(ms, "vars");
    ChildrenIs(ms, "values");
  }

  lemma {:induction false} ForNames(ms: seq<Member>, v0: Value, v1: Value, v2: Value, v3: Value, v4: Value, v5: Value, v6: Value, v7: Value)
    requires ms == [Member("type", v0), Member("location", v1), Member("var", v2), Member("from", v3), Member("to", v4), Member("step", v5), Member("body", v6), Member("hasDo", v7)]
    ensures Lookup(ms, "var") == Some(v2) && Lookup(ms, "from") == Some(v3) && Lookup(ms, "to") == Some(v4) && Lookup(ms, "step") == Some(v5) && Lookup(ms, "body") == Some(v6) && Lookup(ms, "hasDo") == Some(v7)
  {
    LookupAt(ms, 2, "var");
    LookupAt(ms, 3, "from");
    LookupAt(ms, 4, "to");
    LookupAt(ms, 5, "step");
    LookupAt(ms, 6, "body");
    LookupAt(ms, 7, "hasDo");
  }

  lemma {:induction false} ForWithoutNames(ms: seq<Member>, v0: Value, v1: Value, v2: Value, v3: Value, v4: Value, v5: Value, v6: Value)
    requires ms == [Member("type", v0), Member("location", v1), Member("var", v2), Member("from", v3), Member("to", v4), Member("body", v5), Member("hasDo", v6)]
    ensures Lookup(ms, "var") == Some(v2) && Lookup(ms, "from") == Some(v3) && Lookup(ms, "to") == Some(v4) && Lookup(ms, "body") == Some(v5) && Lookup(ms, "hasDo") == Some(v6)
    ensures Lookup(ms, "step") == None
  {
    LookupAt(ms, 2, "var");
    LookupAt(ms, 3, "from");
    LookupAt(ms, 4, "to");
    LookupAt(ms, 5, "body");
    LookupAt(ms, 6, "hasDo");
    LookupNone(ms, "step");
  }

  lemma {:induction false} ForReadsBack(a: Ast)
    requires a.For? && ReadBack(a.local) && ReadBack(a.from) && ReadBack(a.to) && ReadBack(a.step) && ReadBack(a.body)
    ensures ReadFor(a.location, WithHeader(a)) == Some(Written(a))
  {
    var ms := WithHeader(a);
    if a.step.Missing? {
      assert ms == [Member("type", Str(TypeName(a))), Member("location", Str(LocationText(a.location))),
                    Member("var", ToJson(a.local)), Member("from", ToJson(a.from)), Member("to", ToJson(a.to)), Member("body", ToJson(a.body)), Member("hasDo", Bool(a.hasDo))];
      ForWithoutNames(ms, Str(TypeName(a)), Str(LocationText(a.location)), ToJson(a.local), ToJson(a.from), ToJson(a.to), ToJson(a.body), Bool(a.hasDo));
      ChildIs(ms, "var");
      ChildIs(ms, "from");
      ChildIs(ms, "to");
      ChildIs(ms, "body");
    } else {
      assert ms == [Member("type", Str(TypeName(a))), Member("location", Str(LocationText(a.location))),
                    Member("var", ToJson(a.local)), Member("from", ToJson(a.from)), Member("to", ToJson(a.to)), Member("step", ToJson(a.step)), Member("body", ToJson(a.body)), Member("hasDo", Bool(a.hasDo))];
      ForNames(ms, Str(TypeName(a)), Str(LocationText(a.location)), ToJson(a.local), ToJson(a.from), ToJson(a.to), ToJson(a.step), ToJson(a.body), Bool(a.hasDo));
      ChildIs(ms, "var");
      ChildIs(ms, "from");
      ChildIs(ms, "to");
      ChildIs(ms, "step");
      ChildIs(ms, "body");
    }
  }

  lemma {:induction false} TypeUnionNames(ms: seq<Member>, v0: Value, v1: Value, v2: Value)
    requires ms == [Member("type", v0), Member("location", v1), Member("types", v2)]
    ensures Lookup(ms, "types") == Some(v2)
  {
    LookupAt(ms, 2, "types");
  }

  lemma {:induction false} TypeUnionReadsBack(a: Ast)
    requires a.TypeUnion? && ReadBackAll(a.types)
    ensures ReadTypeUnion(a.location, WithHeader(a)) == Some(Written(a))
  {
    var ms := WithHeader(a);
    assert ms == [Member("type", Str(TypeName(a))), Member("location", Str(LocationText(a.location))),
                  Member("types", Arr(ToJsons(a.types)))];
    TypeUnionNames(ms, Str(TypeName(a)), Str(LocationText(a.location)), Arr(ToJsons(a.types)));
    ChildrenIs(ms, "types");
  }

  lemma {:induction false} LocalNames(ms: seq<Member>, v0: Value, v1: Value, v2: Value, v3: Value, v4: Value)
    requires ms == [Member("luauType", v0), Member("name", v1), Member("isConst", v2), Member("type", v3), Member("location", v4)]
    ensures Lookup(ms, "luauType") == Some(v0) && Lookup(ms, "name") == Some(v1) && Lookup(ms, "isConst") == Some(v2)
    ensures Lookup(ms, "type") == Some(v3) && Lookup(ms, "location") == Some(v4)
  {
    LookupAt(ms, 0, "luauType");
    LookupAt(ms, 1, "name");
    LookupAt(ms, 2, "isConst");
    LookupAt(ms, 3, "type");
    LookupAt(ms, 4, "location");
  }

  lemma {:induction false} LocalReadsBack(a: Ast)
    requires a.Local? && ReadBack(a.annotation)
    ensures ReadBack(a)
  {
    var ms := ToJson(a).members;
    LocalNames(ms, ToJson(a.annotation), Str(a.name), Bool(a.isConst), Str("AstLocal"), Str(LocationText(a.location)));
    assert ReadLocal(a.location, ms) == Some(Written(a)) by { ChildIs(ms, "luauType"); }
    assert FromJson(ToJson(a)) == FromObject(ms);
    ObjectIsTyped(ms, "AstLocal");
    TypedIsLocated(ms, "AstLocal", a.location);
  }

  lemma {:induction false} ObjectIsTyped(ms: seq<Member>, kind: string)
    requires Lookup(ms, "type") == Some(Str(kind))
    ensures FromObject(ms) == FromTyped(kind, ms)
  {
  }

  lemma {:induction false} ItemNames(ms: seq<Member>, v0: Value, v1: Value, v2: Value)
    requires ms == [Member("type", v0), Member("kind", v1), Member("value", v2)]
    ensures Lookup(ms, "type") == Some(v0) && Lookup(ms, "kind") == Some(v1) && Lookup(ms, "value") == Some(v2)
  {
    LookupAt(ms, 0, "type");
    LookupAt(ms, 1, "kind");
    LookupAt(ms, 2, "value");
  }

  lemma {:induction false} KeyedItemNames(ms: seq<Member>, v0: Value, v1: Value, v2: Value, v3: Value)
    requires ms == [Member("type", v0), Member("kind", v1), Member("key", v2), Member("value", v3)]
    ensures Lookup(ms, "type") == Some(v0) && Lookup(ms, "kind") == Some(v1)
    ensures Lookup(ms, "key") == Some(v2) && Lookup(ms, "value") == Some(v3)
  {
    LookupAt(ms, 0, "type");
    LookupAt(ms, 1, "kind");
    LookupAt(ms, 2, "key");
    LookupAt(ms, 3, "value");
  }

  lemma {:induction false} KindReadsBack(kind: ItemKind)
    ensures ReadKind(KindName(kind)) == Some(kind)
  {
  }

  lemma {:induction false} TableItemReadsBack(a: Ast)
    requires a.TableItem? && (a.kind.ListItem? || ReadBack(a.key)) && ReadBack(a.value)
    ensures ReadBack(a)
  {
    var ms, kind := ToJson(a).members, Str(KindName(a.kind));
    if a.kind.ListItem? {
      assert ms == [Member("type", Str("AstExprTableItem")), Member("kind", kind), Member("value", ToJson(a.value))];
      ItemNames(ms, Str("AstExprTableItem"), kind, ToJson(a.value));
    } else {
      assert ms == [Member("type", Str("AstExprTableItem")), Member("kind", kind), Member("key", ToJson(a.key)), Member("value", ToJson(a.value))];
      KeyedItemNames(ms, Str("AstExprTableItem"), kind, ToJson(a.key), ToJson(a.value));
    }
    assert ReadTableItem(ms) == Some(Written(a)) by {
      KindReadsBack(a.kind);
      ChildIs(ms, "key");
      ChildIs(ms, "value");
    }
    assert FromJson(ToJson(a)) == FromObject(ms);
    ObjectIsTyped(ms, "AstExprTableItem");
  }

  lemma {:induction false} HeaderNames(ms: seq<Member>, kind: Value, at: Value)
    requires |ms| >= 2 && ms[0] == Member("type", kind) && ms[1] == Member("location", at)
    ensures Lookup(ms, "type") == Some(kind) && Lookup(ms, "location") == Some(at)
  {
    LookupAt(ms, 0, "type");
    LookupAt(ms, 1, "location");
  }

  /** A node is read by the reader for its type. */
  lemma {:induction false} NodeReads(a: Ast, kind: string)
    requires !a.Missing? && !a.Chars? && !a.TableItem? && !a.Local? && !a.Instantiate?
    requires kind == TypeName(a) && kind != "AstLocal" && kind != "AstExprTableItem"
    ensures FromJson(ToJson(a)) == ReadNode(kind, a.location, WithHeader(a))
  {
    var ms := WithHeader(a);
    assert ToJson(a) == Obj(ms);
    HeaderNames(ms, Str(kind), Str(LocationText(a.location)));
    ObjectIsTyped(ms, kind);
    TypedIsLocated(ms, kind, a.location);
  }

  lemma {:induction false} TypedIsLocated(ms: seq<Member>, kind: string, l: Location)
    requires Lookup(ms, "location") == Some(Str(LocationText(l))) && kind != "AstExprTableItem"
    ensures FromTyped(kind, ms) == if kind == "AstLocal" then ReadLocal(l, ms) else ReadNode(kind, l, ms)
  {
    LocationIs(ms, "location", l);
    assert FromTyped(kind, ms) == FromLocated(kind, ms);
  }

  lemma {:induction false} GroupNode(a: Ast)
    requires a.Group? && ReadBack(a.expr)
    ensures ReadBack(a)
  {
    NodeReads(a, "AstExprGroup");
    GroupReadsBack(a);
    DispatchGroup(a.location, WithHeader(a));
  }

  lemma {:induction false} DispatchGroup(l: Location, ms: seq<Member>)
    ensures ReadNode("AstExprGroup", l, ms) == ReadGroup(l, ms)
  {
  }

  lemma {:induction false} ConstantNilNode(a: Ast)
    requires a.ConstantNil?
    ensures ReadBack(a)
  {
    NodeReads(a, "AstExprConstantNil");
    ConstantNilReadsBack(a);
    DispatchConstantNil(a.location, WithHeader(a));
  }

  lemma {:induction false} DispatchConstantNil(l: Location, ms: seq<Member>)
    ensures ReadNode("AstExprConstantNil", l, ms) == ReadConstantNil(l, ms)
  {
  }

  lemma {:induction false} ConstantBoolNode(a: Ast)
    requires a.ConstantBool?
    ensures ReadBack(a)
  {
    NodeReads(a, "AstExprConstantBool");
    ConstantBoolReadsBack(a);
    DispatchConstantBool(a.location, WithHeader(a));
  }

  lemma {:induction false} DispatchConstantBool(l: Location, ms: seq<Member>)
    ensures ReadNode("AstExprConstantBool", l, ms) == ReadConstantBool(l, ms)
  {
  }

  lemma {:induction false} ConstantIntegerNode(a: Ast)
    requires a.ConstantInteger?
    ensures ReadBack(a)
  {
    NodeReads(a, "AstExprConstantInteger");
    ConstantIntegerReadsBack(a);
    DispatchConstantInteger(a.location, WithHeader(a));
  }

  lemma {:induction false} DispatchConstantInteger(l: Location, ms: seq<Member>)
    ensures ReadNode("AstExprConstantInteger", l, ms) == ReadConstantInteger(l, ms)
  {
  }

  lemma {:induction false} ConstantStringNode(a: Ast)
    requires a.ConstantString?
    ensures ReadBack(a)
  {
    NodeReads(a, "AstExprConstantString");
    ConstantStringReadsBack(a);
    DispatchConstantString(a.location, WithHeader(a));
  }

  lemma {:induction false} DispatchConstantString(l: Location, ms: seq<Member>)
    ensures ReadNode("AstExprConstantString", l, ms) == ReadConstantString(l, ms)
  {
  }

  lemma {:induction false} LocalUseNode(a: Ast)
    requires a.LocalUse? && ReadBack(a.local)
    ensures ReadBack(a)
  {
    NodeReads(a, "AstExprLocal");
    LocalUseReadsBack(a);
    DispatchLocalUse(a.location, WithHeader(a));
  }

  lemma {:induction false} DispatchLocalUse(l: Location, ms: seq<Member>)
    ensures ReadNode("AstExprLocal", l, ms) == ReadLocalUse(l, ms)
  {
  }

  lemma {:induction false} CallNode(a: Ast)
    requires a.Call? && ReadBack(a.func) && ReadBackAll(a.args)
    ensures ReadBack(a)
  {
    NodeReads(a, "AstExprCall");
    CallReadsBack(a);
    DispatchCall(a.location, WithHeader(a));
  }

  lemma {:induction false} DispatchCall(l: Location, ms: seq<Member>)
    ensures ReadNode("AstExprCall", l, ms) == ReadCall(l, ms)
  {
  }

  lemma {:induction false} IndexNameNode(a: Ast)
    requires a.IndexName? && ReadBack(a.expr)
    ensures ReadBack(a)
  {
    NodeReads(a, "AstExprIndexName");
    IndexNameReadsBack(a);
    DispatchIndexName(a.location, WithHeader(a));
  }

  lemma {:induction false} DispatchIndexName(l: Location, ms: seq<Member>)
    ensures ReadNode("AstExprIndexName", l, ms) == ReadIndexName(l, ms)
  {
  }

  lemma {:induction false} TableNode(a: Ast)
    requires a.Table? && ReadBackAll(a.items)
    ensures ReadBack(a)
  {
    NodeReads(a, "AstExprTable");
    TableReadsBack(a);
    DispatchTable(a.location, WithHeader(a));
  }

  lemma {:induction false} DispatchTable(l: Location, ms: seq<Member>)
    ensures ReadNode("AstExprTable", l, ms) == ReadTable(l, ms)
  {
  }

  lemma {:induction false} InterpStringNode(a: Ast)
    requires a.InterpString? && ReadBackAll(a.strings) && ReadBackAll(a.expressions)
    ensures ReadBack(a)
  {
    NodeReads(a, "AstExprInterpString");
    InterpStringReadsBack(a);
    DispatchInterpString(a.location, WithHeader(a));
  }

  lemma {:induction false} DispatchInterpString(l: Location, ms: seq<Member>)
    ensures ReadNode("AstExprInterpString", l, ms) == ReadInterpString(l, ms)
  {
  }

  lemma {:induction false} BinaryNode(a: Ast)
    requires a.Binary? && ReadBack(a.left) && ReadBack(a.right)
    ensures ReadBack(a)
  {
    NodeReads(a, "AstExprBinary");
    BinaryReadsBack(a);
    DispatchBinary(a.location, WithHeader(a));
  }

  lemma {:induction false} DispatchBinary(l: Location, ms: seq<Member>)
    ensures ReadNode("AstExprBinary", l, ms) == ReadBinary(l, ms)
  {
  }

  lemma {:induction false} BlockNode(a: Ast)
    requires a.Block? && ReadBackAll(a.stats)
    ensures ReadBack(a)
  {
    NodeReads(a, "AstStatBlock");
    BlockReadsBack(a);
    DispatchBlock(a.location, WithHeader(a));
  }

  lemma {:induction false} DispatchBlock(l: Location, ms: seq<Member>)
    ensures ReadNode("AstStatBlock", l, ms) == ReadBlock(l, ms)
  {
  }

  lemma {:induction false} IfNode(a: Ast)
    requires a.If? && ReadBack(a.condition) && ReadBack(a.thenbody) && ReadBack(a.elsebody)
    ensures ReadBack(a)
  {
    NodeReads(a, "AstStatIf");
    IfReadsBack(a);
    DispatchIf(a.location, WithHeader(a));
  }

  lemma {:induction false} DispatchIf(l: Location, ms: seq<Member>)
    ensures ReadNode("AstStatIf", l, ms) == ReadIf(l, ms)
  {
  }

  lemma {:induction false} ReturnNode(a: Ast)
    requires a.Return? && ReadBackAll(a.list)
    ensures ReadBack(a)
  {
    NodeReads(a, "AstStatReturn");
    ReturnReadsBack(a);
    DispatchReturn(a.location, WithHeader(a));
  }

  lemma {:induction false} DispatchReturn(l: Location, ms: seq<Member>)
    ensures ReadNode("AstStatReturn", l, ms) == ReadReturn(l, ms)
  {
  }

  lemma {:induction false} StatLocalNode(a: Ast)
    requires a.StatLocal? && ReadBackAll(a.vars) && ReadBackAll(a.values)
    ensures ReadBack(a)
  {
    NodeReads(a, "AstStatLocal");
    StatLocalReadsBack(a);
    DispatchStatLocal(a.location, WithHeader(a));
  }

  lemma {:induction false} DispatchStatLocal(l: Location, ms: seq<Member>)
    ensures ReadNode("AstStatLocal", l, ms) == ReadStatLocal(l, ms)
  {
  }

  lemma {:induction false} ForNode(a: Ast)
    requires a.For? && ReadBack(a.local) && ReadBack(a.from) && ReadBack(a.to) && ReadBack(a.step) && ReadBack(a.body)
    ensures ReadBack(a)
  {
    NodeReads(a, "AstStatFor");
    ForReadsBack(a);
    DispatchFor(a.location, WithHeader(a));
  }

  lemma {:induction false} DispatchFor(l: Location, ms: seq<Member>)
    ensures ReadNode("AstStatFor", l, ms) == ReadFor(l, ms)
  {
  }

  lemma {:induction false} TypeUnionNode(a: Ast)
    requires a.TypeUnion? && ReadBackAll(a.types)
    ensures ReadBack(a)
  {
    NodeReads(a, "AstTypeUnion");
    TypeUnionReadsBack(a);
    DispatchTypeUnion(a.location, WithHeader(a));
  }

  lemma {:induction false} DispatchTypeUnion(l: Location, ms: seq<Member>)
    ensures ReadNode("AstTypeUnion", l, ms) == ReadTypeUnion(l, ms)
  {
  }

  lemma {:induction false} ReadsBackAll(items: seq<Ast>)
    requires CleanAll(items)
    ensures ReadBackAll(items)
    decreases items, 1
  {
    if items != [] {
      ReadsBack(items[0]);
      ReadsBackAll(items[1..]);
      assert WrittenAll(items) == [Written(items[0])] + WrittenAll(items[1..]);
      assert ToJsons(items)[1..] == ToJsons(items[1..]);
    }
  }

  lemma {:induction false} ExpressionReadsBack(a: Ast)
    requires Clean(a) && (a.Group? || a.ConstantNil? || a.ConstantBool? || a.ConstantInteger? || a.ConstantString? || a.LocalUse? || a.Call? || a.IndexName? || a.Table?)
    ensures ReadBack(a)
    decreases a, 0
  {
    if a.Group? {
      ReadsBack(a.expr);
      GroupNode(a);
    } else if a.ConstantNil? {
      ConstantNilNode(a);
    } else if a.ConstantBool? {
      ConstantBoolNode(a);
    } else if a.ConstantInteger? {
      ConstantIntegerNode(a);
    } else if a.ConstantString? {
      ConstantStringNode(a);
    } else if a.LocalUse? {
      ReadsBack(a.local);
      LocalUseNode(a);
    } else if a.Call? {
      ReadsBack(a.func);
      ReadsBackAll(a.args);
      CallNode(a);
    } else if a.IndexName? {
      ReadsBack(a.expr);
      IndexNameNode(a);
    } else if a.Table? {
      ReadsBackAll(a.items);
      TableNode(a);
    }
  }

  lemma {:induction false} OtherReadsBack(a: Ast)
    requires Clean(a) && (a.InterpString? || a.Binary? || a.Block? || a.If? || a.Return? || a.StatLocal? || a.For? || a.TypeUnion?)
    ensures ReadBack(a)
    decreases a, 0
  {
    if a.InterpString? {
      ReadsBackAll(a.strings);
      ReadsBackAll(a.expressions);
      InterpStringNode(a);
    } else if a.Binary? {
      ReadsBack(a.left);
      ReadsBack(a.right);
      BinaryNode(a);
    } else if a.Block? {
      ReadsBackAll(a.stats);
      BlockNode(a);
    } else if a.If? {
      ReadsBack(a.condition);
      ReadsBack(a.thenbody);
      ReadsBack(a.elsebody);
      IfNode(a);
    } else if a.Return? {
      ReadsBackAll(a.list);
      ReturnNode(a);
    } else if a.StatLocal? {
      ReadsBackAll(a.vars);
      ReadsBackAll(a.values);
      StatLocalNode(a);
    } else if a.For? {
      ReadsBack(a.local);
      ReadsBack(a.from);
      ReadsBack(a.to);
      ReadsBack(a.step);
      ReadsBack(a.body);
      ForNode(a);
    } else if a.TypeUnion? {
      ReadsBackAll(a.types);
      TypeUnionNode(a);
    }
  }

  /** Reading the value of a clean tree gives back the tree, as far as it is written. */
  lemma {:induction false} ReadsBack(a: Ast)
    requires Clean(a)
    ensures ReadBack(a)
    decreases a, 1
  {
    if a.Missing? || a.Chars? {
    } else if a.Local? {
      ReadsBack(a.annotation);
      LocalReadsBack(a);
    } else if a.TableItem? {
      ReadsBack(a.value);
      if !a.kind.ListItem? {
        ReadsBack(a.key);
      }
      TableItemReadsBack(a);
    } else if a.Instantiate? {
      ReadsBack(a.expr);
      assert ToJsons(a.typeArguments) == [];
    } else if a.Group? || a.ConstantNil? || a.ConstantBool? || a.ConstantInteger? || a.ConstantString? || a.LocalUse? || a.Call? || a.IndexName? || a.Table? {
      ExpressionReadsBack(a);
    } else {
      OtherReadsBack(a);
    }
  }
}
