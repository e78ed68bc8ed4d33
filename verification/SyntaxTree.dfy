/** Syntax trees, and the JSON value that stands for one. */
module SyntaxTree {
  import opened Json

  // ----- syntax trees -----

  datatype Position = Position(line: nat, column: nat)
  datatype Location = Location(begin: Position, end: Position)

  datatype BinaryOp =
    | Add | Sub | Mul | Div | FloorDiv | Mod | Pow | Concat
    | CompareNe | CompareEq | CompareLt | CompareLe | CompareGt | CompareGe
    | BitAnd | BitOr | BitXor | ShiftLeft | ShiftRight | And | Or

  datatype ItemKind = ListItem | RecordItem | GeneralItem

  /** What the encoder writes: nodes, the locals and table items inside them, strings that stand on
      their own in arrays, and null pointers. */
  datatype Ast =
    | Missing
    | Chars(text: string)
    | Local(location: Location, name: string, annotation: Ast, isConst: bool)
    | TableItem(kind: ItemKind, key: Ast, value: Ast)
    | Group(location: Location, expr: Ast)
    | ConstantNil(location: Location)
    | ConstantBool(location: Location, flag: bool)
    | ConstantInteger(location: Location, integer: int)
    | ConstantString(location: Location, text: string)
    | LocalUse(location: Location, local: Ast)
    | Call(location: Location, func: Ast, args: seq<Ast>, self: bool, argLocation: Location)
    | Instantiate(location: Location, expr: Ast, typeArguments: seq<Ast>)
    | IndexName(location: Location, expr: Ast, name: string, indexLocation: Location, opChar: char)
    | Table(location: Location, items: seq<Ast>)
    | InterpString(location: Location, strings: seq<Ast>, expressions: seq<Ast>)
    | Binary(location: Location, binaryOp: BinaryOp, left: Ast, right: Ast)
    | Block(location: Location, hasEnd: bool, stats: seq<Ast>)
    | If(location: Location, condition: Ast, thenbody: Ast, elsebody: Ast, hasThen: bool)
    | Return(location: Location, list: seq<Ast>)
    | StatLocal(location: Location, vars: seq<Ast>, values: seq<Ast>)
    | For(location: Location, local: Ast, from: Ast, to: Ast, step: Ast, body: Ast, hasDo: bool)
    | TypeUnion(location: Location, types: seq<Ast>)

  function PositionText(p: Position): string {
    Digits(p.line) + "," + Digits(p.column)
  }

  function LocationText(l: Location): string {
    PositionText(l.begin) + " - " + PositionText(l.end)
  }

  function BinaryName(op: BinaryOp): string {
    match op
    case Add => "Add" case Sub => "Sub" case Mul => "Mul" case Div => "Div" case FloorDiv => "FloorDiv"
    case Mod => "Mod" case Pow => "Pow" case Concat => "Concat"
    case CompareNe => "CompareNe" case CompareEq => "CompareEq" case CompareLt => "CompareLt"
    case CompareLe => "CompareLe" case CompareGt => "CompareGt" case CompareGe => "CompareGe"
    case BitAnd => "BitAnd" case BitOr => "BitOr" case BitXor => "BitXor"
    case ShiftLeft => "ShiftLeft" case ShiftRight => "ShiftRight" case And => "And" case Or => "Or"
  }

  function KindName(kind: ItemKind): string {
    match kind
    case ListItem => "item" case RecordItem => "record" case GeneralItem => "general"
  }

  function TypeName(a: Ast): string {
    match a
    case Missing => "" case Chars(_) => "" case Instantiate(_, _, _) => "" case Local(_, _, _, _) => "AstLocal" case TableItem(_, _, _) => "AstExprTableItem"
    case Group(_, _) => "AstExprGroup" case ConstantNil(_) => "AstExprConstantNil"
    case ConstantBool(_, _) => "AstExprConstantBool" case ConstantInteger(_, _) => "AstExprConstantInteger"
    case ConstantString(_, _) => "AstExprConstantString" case LocalUse(_, _) => "AstExprLocal"
    case Call(_, _, _, _, _) => "AstExprCall" case IndexName(_, _, _, _, _) => "AstExprIndexName"
    case Table(_, _) => "AstExprTable" case InterpString(_, _, _) => "AstExprInterpString"
    case Binary(_, _, _, _) => "AstExprBinary" case Block(_, _, _) => "AstStatBlock" case If(_, _, _, _, _) => "AstStatIf"
    case Return(_, _) => "AstStatReturn" case StatLocal(_, _, _) => "AstStatLocal" case For(_, _, _, _, _, _, _) => "AstStatFor"
    case TypeUnion(_, _) => "AstTypeUnion"
  }

  // ----- the value a tree denotes -----

  function Node(a: Ast, fields: seq<Member>): Value
    requires !a.Missing? && !a.Chars? && !a.TableItem?
  {
    Obj([Member("type", Str(TypeName(a))), Member("location", Str(LocationText(a.location)))] + fields)
  }

  function Optional(name: string, present: bool, v: Value): seq<Member> {
    if present then [Member(name, v)] else []
  }

  /** Values written directly behind each other. */
  function RowOf(v: Value, more: seq<Value>): Value {
    if more == [] then v else Row(RowOf(v, more[..|more| - 1]), more[|more| - 1])
  }

  /** The value of a tree. An instantiation has no writer of its own: its expression and its type
      arguments are written one behind the other. */
  function ToJson(a: Ast): Value
    decreases a, 1
  {
    match a
    case Missing => Null
    case Chars(text) => Str(text)
    case Local(location, name, annotation, isConst) =>
      Obj([Member("luauType", ToJson(annotation)), Member("name", Str(name)), Member("isConst", Bool(isConst)),
           Member("type", Str("AstLocal")), Member("location", Str(LocationText(location)))])
    case TableItem(kind, key, value) =>
      Obj([Member("type", Str("AstExprTableItem")), Member("kind", Str(KindName(kind)))]
          + (if kind.ListItem? then [] else [Member("key", ToJson(key))]) + [Member("value", ToJson(value))])
    case Instantiate(_, expr, typeArguments) => RowOf(ToJson(expr), ToJsons(typeArguments))
    case _ => Node(a, Fields(a))
  }

  function ToJsons(items: seq<Ast>): seq<Value>
    decreases items, 2
  {
    if items == [] then [] else [ToJson(items[0])] + ToJsons(items[1..])
  }

  function ForRange(local: Value, from: Value, to: Value, hasStep: bool, step: Value): seq<Member> {
    [Member("var", local)] + [Member("from", from)] + [Member("to", to)] + Optional("step", hasStep, step)
  }

  function Fields(a: Ast): seq<Member>
    decreases a, 0
  {
    match a
    case Group(_, expr) => [Member("expr", ToJson(expr))]
    case ConstantBool(_, flag) => [Member("value", Bool(flag))]
    case ConstantInteger(_, integer) => [Member("value", Int(integer))]
    case ConstantString(_, text) => [Member("value", Str(text))]
    case LocalUse(_, local) => [Member("local", ToJson(local))]
    case Call(_, func, args, self, argLocation) =>
      [Member("func", ToJson(func)), Member("args", Arr(ToJsons(args))), Member("self", Bool(self)),
       Member("argLocation", Str(LocationText(argLocation)))]
    case IndexName(_, expr, name, indexLocation, opChar) =>
      [Member("expr", ToJson(expr)), Member("index", Str(name)), Member("indexLocation", Str(LocationText(indexLocation))),
       Member("op", Str([opChar]))]
    case Table(_, items) => [Member("items", Arr(ToJsons(items)))]
    case InterpString(_, strings, expressions) =>
      [Member("strings", Arr(ToJsons(strings))), Member("expressions", Arr(ToJsons(expressions)))]
    case Binary(_, op, left, right) =>
      [Member("op", Str(BinaryName(op))), Member("left", ToJson(left)), Member("right", ToJson(right))]
    case Block(_, hasEnd, stats) => [Member("hasEnd", Bool(hasEnd)), Member("body", Arr(ToJsons(stats)))]
    case If(_, condition, thenbody, elsebody, hasThen) =>
      [Member("condition", ToJson(condition))] + [Member("thenbody", ToJson(thenbody))]
      + Optional("elsebody", !elsebody.Missing?, ToJson(elsebody)) + [Member("hasThen", Bool(hasThen))]
    case Return(_, list) => [Member("list", Arr(ToJsons(list)))]
    case StatLocal(_, vars, values) => [Member("vars", Arr(ToJsons(vars))), Member("values", Arr(ToJsons(values)))]
    case For(_, local, from, to, step, body, hasDo) =>
      ForRange(ToJson(local), ToJson(from), ToJson(to), !step.Missing?, ToJson(step)) + [Member("body", ToJson(body))] + [Member("hasDo", Bool(hasDo))]
    case TypeUnion(_, types) => [Member("types", Arr(ToJsons(types)))]
    case _ => []
  }

  // ----- which trees have a JSON text -----

  /** Nothing that is written instantiates with type arguments. */
  predicate Clean(a: Ast)
    decreases a
  {
    match a
    case Local(_, _, annotation, _) => Clean(annotation)
    case TableItem(kind, key, value) => (kind.ListItem? || Clean(key)) && Clean(value)
    case Group(_, expr) => Clean(expr)
    case LocalUse(_, local) => Clean(local)
    case Call(_, func, args, _, _) => Clean(func) && CleanAll(args)
    case Instantiate(_, expr, typeArguments) => typeArguments == [] && Clean(expr)
    case IndexName(_, expr, _, _, _) => Clean(expr)
    case Table(_, items) => CleanAll(items)
    case InterpString(_, strings, expressions) => CleanAll(strings) && CleanAll(expressions)
    case Binary(_, _, left, right) => Clean(left) && Clean(right)
    case Block(_, _, stats) => CleanAll(stats)
    case If(_, condition, thenbody, elsebody, _) => Clean(condition) && Clean(thenbody) && Clean(elsebody)
    case Return(_, list) => CleanAll(list)
    case StatLocal(_, vars, values) => CleanAll(vars) && CleanAll(values)
    case For(_, local, from, to, step, body, _) => Clean(local) && Clean(from) && Clean(to) && Clean(step) && Clean(body)
    case TypeUnion(_, types) => CleanAll(types)
    case _ => true
  }

  predicate CleanAll(items: seq<Ast>)
    decreases items
  {
    forall i :: 0 <= i < |items| ==> Clean(items[i])
  }
}
