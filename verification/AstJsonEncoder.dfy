/** The JSON encoder for syntax trees: a printer that appends to a chunked buffer and decides about
    commas with one flag that every nested write saves and restores. */
module AstJsonEncoder {
  import opened Json
  import opened SyntaxTree
  import opened Wrappers
  import AstReader

  // ----- texts under construction -----

  /** Characters that stand for themselves inside a string. */
  predicate Plain(s: string) {
    forall c :: c in s ==> ' ' <= c && c != '"' && c != '\\'
  }

  lemma {:induction false} PlainIsUnescaped(s: string)
    requires Plain(s)
    ensures EscapeAll(s) == s
  {
    if s != [] {
      assert s[0] in s && forall c :: c in s[1..] ==> c in s;
      PlainIsUnescaped(s[1..]);
      PlainChar(s[0]);
      assert s == [s[0]] + s[1..];
    }
  }

  lemma {:induction false} PlainChar(c: char)
    requires ' ' <= c && c != '"' && c != '\\'
    ensures Escape(c) == [c]
  {
  }

  /** An object that has been opened and holds these members so far. */
  function Opened(base: string, ms: seq<Member>): string {
    base + ("{" + RenderMembers(ms))
  }

  /** ... with the name of the next member written. */
  function Named(base: string, ms: seq<Member>, name: string): string {
    Opened(base, ms) + ((if ms == [] then "" else ",") + (Quoted(name) + ":"))
  }

  lemma {:induction false} MembersAppend(ms: seq<Member>, m: Member)
    ensures RenderMembers(ms + [m]) == RenderMembers(ms) + ((if ms == [] then "" else ",") + RenderMember(m))
  {
    MemberTextsAppend(ms, m);
    CommasAppend(MemberTexts(ms), RenderMember(m));
  }

  lemma {:induction false} ItemsAppend(vs: seq<Value>, v: Value)
    ensures RenderItems(vs + [v]) == RenderItems(vs) + ((if vs == [] then "" else ",") + Render(v))
  {
    ItemTextsAppend(vs, v);
    CommasAppend(ItemTexts(vs), Render(v));
  }

  lemma {:induction false} MemberDone(base: string, ms: seq<Member>, name: string, v: Value)
    ensures Named(base, ms, name) + Render(v) == Opened(base, ms + [Member(name, v)])
  {
    MembersAppend(ms, Member(name, v));
    var sep, head := if ms == [] then "" else ",", Quoted(name) + ":";
    var open, member, v' := "{" + RenderMembers(ms), sep + head, Render(v);
    FourParts(base, open, member, v');
    FourParts(open, sep, head, v');
    Assoc(Quoted(name), ":", v');
    Assoc("{", RenderMembers(ms), sep + RenderMember(Member(name, v)));
  }

  lemma {:induction false} ObjectDone(base: string, ms: seq<Member>)
    ensures Opened(base, ms) + "}" == base + Render(Obj(ms))
  {
  }

  lemma {:induction false} ToJsonsPrefix(items: seq<Ast>, i: nat)
    requires i < |items|
    ensures ToJsons(items[..i + 1]) == ToJsons(items[..i]) + [ToJson(items[i])]
  {
    if i == 0 {
      assert items[..1] == [items[0]] && items[..1][1..] == [];
    } else {
      ToJsonsPrefix(items[1..], i - 1);
      assert items[..i + 1][1..] == items[1..][..i] && items[..i][1..] == items[1..][..i - 1];
    }
  }

  // ----- the encoder -----

  const CHUNK_SIZE: nat := 1024

  /** `join(chunks, "")`. */
  function Join(chunks: seq<string>): string {
    if chunks == [] then [] else Join(chunks[..|chunks| - 1]) + chunks[|chunks| - 1]
  }

  lemma {:induction false} JoinAppend(chunks: seq<string>, chunk: string)
    ensures Join(chunks + [chunk]) == Join(chunks) + chunk
  {
    assert (chunks + [chunk])[..|chunks|] == chunks;
  }

  class Encoder {
    var chunks: seq<string>
    var comma: bool

    /** The innermost object being written: the text in front of it and its members so far. */
    ghost var base: string
    ghost var members: seq<Member>

    /** The last chunk has room left, so splitting a write never underflows. */
    ghost predicate Valid()
      reads this
    {
      chunks != [] && |chunks[|chunks| - 1]| < CHUNK_SIZE
    }

    /** `str()`. */
    function Text(): string
      reads this
    {
      Join(chunks)
    }

    ghost predicate Open()
      reads this
    {
      Valid() && Text() == Opened(base, members) && comma == (members != [])
    }

    constructor ()
      ensures Valid() && Text() == "" && !comma
    {
      chunks := [""];
      comma := false;
    }

    method NewChunk()
      requires chunks != []
      modifies this`chunks
      ensures Valid() && Text() == old(Text()) && chunks == old(chunks) + [""]
    {
      chunks := chunks + [""];
      JoinAppend(old(chunks), "");
    }

    method AppendToLast(sv: string)
      requires chunks != []
      modifies this`chunks
      ensures chunks == old(chunks)[..|old(chunks)| - 1] + [old(chunks)[|old(chunks)| - 1] + sv]
      ensures Text() == old(Text()) + sv
    {
      ghost var front, last := chunks[..|chunks| - 1], chunks[|chunks| - 1];
      chunks := chunks[..|chunks| - 1] + [chunks[|chunks| - 1] + sv];
      JoinAppend(front, last + sv);
    }

    /** Short writes fill up the last chunk and spill into a new one; long ones get their own. */
    method AppendChunk(sv: string)
      requires Valid()
      modifies this`chunks
      ensures Valid() && Text() == old(Text()) + sv
      ensures |chunks| >= |old(chunks)| && chunks[..|old(chunks)| - 1] == old(chunks)[..|old(chunks)| - 1]
    {
      if |sv| > CHUNK_SIZE {
        chunks := chunks + [sv];
        JoinAppend(old(chunks), sv);
        NewChunk();
        return;
      }
      if |chunks[|chunks| - 1]| + |sv| < CHUNK_SIZE {
        AppendToLast(sv);
        return;
      }
      var prefix := CHUNK_SIZE - |chunks[|chunks| - 1]|;
      AppendToLast(sv[..prefix]);
      NewChunk();
      AppendToLast(sv[prefix..]);
      assert sv == sv[..prefix] + sv[prefix..];
    }

    method WriteRaw(sv: string)
      requires Valid()
      modifies this`chunks
      ensures Valid() && Text() == old(Text()) + sv
    {
      AppendChunk(sv);
    }

    method WriteChar(c: char)
      requires Valid()
      modifies this`chunks
      ensures Valid() && Text() == old(Text()) + Escape(c)
    {
      if c == '"' {
        WriteRaw("\\\"");
      } else if c == '\\' {
        WriteRaw("\\\\");
      } else if c == '\U{8}' {
        WriteRaw("\\b");
      } else if c == '\U{C}' {
        WriteRaw("\\f");
      } else if c == '\n' {
        WriteRaw("\\n");
      } else if c == '\r' {
        WriteRaw("\\r");
      } else if c == '\t' {
        WriteRaw("\\t");
      } else if c < ' ' {
        WriteRaw("\\u00" + [HEX_DIGITS[c as int / 16], HEX_DIGITS[c as int % 16]]);
      } else {
        WriteRaw([c]);
      }
    }

    method WriteString(s: string)
      requires Valid()
      modifies this`chunks
      ensures Valid() && Text() == old(Text()) + Quoted(s)
    {
      WriteRaw("\"");
      ghost var start := Text();
      for i := 0 to |s|
        invariant Valid() && Text() == start + EscapeAll(s[..i])
      {
        WriteChar(s[i]);
        EscapedSoFar(start, s, i);
      }
      WriteRaw("\"");
      QuoteDone(old(Text()), s);
    }

    method WriteInt(i: int)
      requires Valid()
      modifies this`chunks
      ensures Valid() && Text() == old(Text()) + Decimal(i)
    {
      WriteRaw(Decimal(i));
    }

    method WritePosition(p: Position)
      requires Valid()
      modifies this`chunks
      ensures Valid() && Text() == old(Text()) + PositionText(p)
    {
      WriteInt(p.line);
      WriteRaw(",");
      WriteInt(p.column);
    }

    method WriteLocation(l: Location)
      requires Valid()
      modifies this`chunks
      ensures Valid() && Text() == old(Text()) + Quoted(LocationText(l))
    {
      WriteRaw("\"");
      WritePosition(l.begin);
      WriteRaw(" - ");
      WritePosition(l.end);
      WriteRaw("\"");
      LocationDone(old(Text()), l);
    }

    method BeginProp(name: string)
      requires Open() && Plain(name)
      modifies this`chunks, this`comma
      ensures Valid() && Text() == Named(base, members, name) && comma
    {
      ghost var open := Text();
      if comma {
        WriteRaw(",");
      }
      assert Text() == open + (if members == [] then "" else ",");
      comma := true;
      WriteRaw("\"");
      WriteRaw(name);
      WriteRaw("\":");
      NameDone(base, members, name);
    }

    method PropString(name: string, s: string)
      requires Open() && Plain(name)
      modifies this
      ensures Open() && base == old(base) && members == old(members) + [Member(name, Str(s))]
    {
      BeginProp(name);
      WriteString(s);
      MemberDone(base, members, name, Str(s));
      members := members + [Member(name, Str(s))];
    }

    method PropBool(name: string, b: bool)
      requires Open() && Plain(name)
      modifies this
      ensures Open() && base == old(base) && members == old(members) + [Member(name, Bool(b))]
    {
      BeginProp(name);
      WriteBool(b);
      MemberDone(base, members, name, Bool(b));
      members := members + [Member(name, Bool(b))];
    }

    method WriteBool(b: bool)
      requires Valid()
      modifies this`chunks
      ensures Valid() && Text() == old(Text()) + Render(Bool(b))
    {
      if b {
        WriteRaw("true");
      } else {
        WriteRaw("false");
      }
    }

    method PropInt(name: string, i: int)
      requires Open() && Plain(name)
      modifies this
      ensures Open() && base == old(base) && members == old(members) + [Member(name, Int(i))]
    {
      BeginProp(name);
      WriteInt(i);
      MemberDone(base, members, name, Int(i));
      members := members + [Member(name, Int(i))];
    }

    method PropLocation(name: string, l: Location)
      requires Open() && Plain(name)
      modifies this
      ensures Open() && base == old(base) && members == old(members) + [Member(name, Str(LocationText(l)))]
    {
      BeginProp(name);
      WriteLocation(l);
      MemberDone(base, members, name, Str(LocationText(l)));
      members := members + [Member(name, Str(LocationText(l)))];
    }

    method PropNode(name: string, a: Ast)
      requires Open() && Plain(name)
      modifies this
      ensures Open() && base == old(base) && members == old(members) + [Member(name, ToJson(a))]
      decreases a, 5
    {
      BeginProp(name);
      Write(a);
      MemberDone(base, members, name, ToJson(a));
      members := members + [Member(name, ToJson(a))];
    }

    /** Properties written only when the pointer is set. */
    method PropOptional(name: string, a: Ast)
      requires Open() && Plain(name)
      modifies this
      ensures Open() && base == old(base) && members == old(members) + Optional(name, !a.Missing?, ToJson(a))
      decreases a, 6
    {
      if !a.Missing? {
        PropNode(name, a);
      }
    }

    method PropArray(name: string, items: seq<Ast>)
      requires Open() && Plain(name)
      modifies this
      ensures Open() && base == old(base) && members == old(members) + [Member(name, Arr(ToJsons(items)))]
      decreases items, 4
    {
      BeginProp(name);
      WriteArray(items);
      MemberDone(base, members, name, Arr(ToJsons(items)));
      members := members + [Member(name, Arr(ToJsons(items)))];
    }

    /** Arrays keep their own comma flag in a local variable. */
    method WriteArray(items: seq<Ast>)
      requires Valid()
      modifies this
      ensures Valid() && Text() == old(Text()) + Render(Arr(ToJsons(items)))
      ensures comma == old(comma) && base == old(base) && members == old(members)
      decreases items, 3
    {
      WriteRaw("[");
      ghost var start := Text();
      var needsComma := false;
      for i := 0 to |items|
        invariant Valid() && needsComma == (i > 0)
        invariant Text() == start + RenderItems(ToJsons(items[..i]))
        invariant comma == old(comma) && base == old(base) && members == old(members)
      {
        if needsComma {
          WriteRaw(",");
        } else {
          needsComma := true;
        }
        Write(items[i]);
        ArraySoFar(start, items, i);
      }
      WriteRaw("]");
      ArrayDone(old(Text()), items);
    }

    /** Opening an object saves the comma flag and starts without one; `Close` brings it back. */
    method OpenObject() returns (c: bool, ghost outerBase: string, ghost outerMembers: seq<Member>)
      requires Valid()
      modifies this
      ensures Open() && base == old(Text()) && members == []
      ensures c == old(comma) && outerBase == old(base) && outerMembers == old(members)
    {
      outerBase, outerMembers := base, members;
      base, members := Text(), [];
      WriteRaw("{");
      c := comma;
      comma := false;
    }

    method CloseObject(c: bool, ghost outerBase: string, ghost outerMembers: seq<Member>)
      requires Open()
      modifies this
      ensures Valid() && Text() == old(base) + Render(Obj(old(members)))
      ensures comma == c && base == outerBase && members == outerMembers
    {
      comma := c;
      WriteRaw("}");
      ObjectDone(base, members);
      base, members := outerBase, outerMembers;
    }

    /** Every `write` overload and `visit`: appends the text of the value and restores the flag. */
    method Write(a: Ast)
      requires Valid()
      modifies this
      ensures Valid() && Text() == old(Text()) + Render(ToJson(a))
      ensures comma == old(comma) && base == old(base) && members == old(members)
      decreases a, 4
    {
      match a
      case Missing => WriteRaw("null");
      case Chars(text) => WriteString(text);
      case Local(_, _, _, _) => WriteLocal(a);
      case TableItem(_, _, _) => WriteTableItem(a);
      case Instantiate(_, _, _) => WriteInstantiate(a);
      case _ => WriteNode(a);
    }

    /** The default visit: it writes nothing itself and goes on to the children. */
    method WriteInstantiate(a: Ast)
      requires Valid() && a.Instantiate?
      modifies this
      ensures Valid() && Text() == old(Text()) + Render(ToJson(a))
      ensures comma == old(comma) && base == old(base) && members == old(members)
      decreases a, 3
    {
      Write(a.expr);
      var types := a.typeArguments;
      assert ToJsons(types[..0]) == [];
      for i := 0 to |types|
        invariant Valid() && Text() == old(Text()) + Render(RowOf(ToJson(a.expr), ToJsons(types[..i])))
        invariant comma == old(comma) && base == old(base) && members == old(members)
      {
        Write(types[i]);
        RowSoFar(old(Text()), a.expr, types, i);
      }
      assert types[..|types|] == types;
    }

    method WriteLocal(a: Ast)
      requires Valid() && a.Local?
      modifies this
      ensures Valid() && Text() == old(Text()) + Render(ToJson(a))
      ensures comma == old(comma) && base == old(base) && members == old(members)
      decreases a, 3
    {
      var c, b, m := OpenObject();
      PropNode("luauType", a.annotation);
      PropString("name", a.name);
      PropBool("isConst", a.isConst);
      PropString("type", "AstLocal");
      PropLocation("location", a.location);
      assert members == ToJson(a).members;
      CloseObject(c, b, m);
    }

    method WriteTableItem(a: Ast)
      requires Valid() && a.TableItem?
      modifies this
      ensures Valid() && Text() == old(Text()) + Render(ToJson(a))
      ensures comma == old(comma) && base == old(base) && members == old(members)
      decreases a, 3
    {
      var c, b, m := OpenObject();
      PropString("type", "AstExprTableItem");
      PropString("kind", KindName(a.kind));
      if !a.kind.ListItem? {
        PropNode("key", a.key);
      }
      PropNode("value", a.value);
      assert members == ToJson(a).members;
      CloseObject(c, b, m);
    }

    method WriteNode(a: Ast)
      requires Valid() && !a.Missing? && !a.Chars? && !a.Local? && !a.TableItem? && !a.Instantiate?
      modifies this
      ensures Valid() && Text() == old(Text()) + Render(ToJson(a))
      ensures comma == old(comma) && base == old(base) && members == old(members)
      decreases a, 3
    {
      var c, b, m := OpenNode(TypeName(a), a.location);
      WriteFields(a);
      CloseObject(c, b, m);
    }

    method OpenNode(name: string, location: Location)
      returns (c: bool, ghost outerBase: string, ghost outerMembers: seq<Member>)
      requires Valid()
      modifies this
      ensures Open() && base == old(Text())
      ensures members == [Member("type", Str(name)), Member("location", Str(LocationText(location)))]
      ensures c == old(comma) && outerBase == old(base) && outerMembers == old(members)
    {
      c, outerBase, outerMembers := OpenObject();
      PropString("type", name);
      PropLocation("location", location);
    }

    /** The part of a node behind its type and location. */
    method WriteFields(a: Ast)
      requires Open() && members != []
      modifies this
      ensures Open() && base == old(base) && members == old(members) + Fields(a)
      decreases a, 2
    {
      match a
      case Group(_, expr) => PropNode("expr", expr);
      case ConstantBool(_, _) => WriteConstantFields(a);
      case ConstantInteger(_, _) => WriteConstantFields(a);
      case ConstantString(_, _) => WriteConstantFields(a);
      case LocalUse(_, local) => PropNode("local", local);
      case Call(_, _, _, _, _) => WriteCallFields(a);
      case IndexName(_, _, _, _, _) => WriteIndexNameFields(a);
      case Table(_, _) => WriteListFields(a);
      case InterpString(_, _, _) => WriteInterpStringFields(a);
      case Binary(_, _, _, _) => WriteBinaryFields(a);
      case Block(_, _, _) => WriteBlockFields(a);
      case If(_, _, _, _, _) => WriteIfFields(a);
      case Return(_, _) => WriteListFields(a);
      case StatLocal(_, _, _) => WriteStatLocalFields(a);
      case For(_, _, _, _, _, _, _) => WriteForFields(a);
      case TypeUnion(_, _) => WriteListFields(a);
      case _ =>
    }

    method WriteConstantFields(a: Ast)
      requires Open() && members != [] && (a.ConstantBool? || a.ConstantInteger? || a.ConstantString?)
      modifies this
      ensures Open() && base == old(base) && members == old(members) + Fields(a)
    {
      match a
      case ConstantBool(_, flag) => PropBool("value", flag);
      case ConstantInteger(_, integer) => PropInt("value", integer);
      case ConstantString(_, text) => PropString("value", text);
    }

    method WriteListFields(a: Ast)
      requires Open() && members != [] && (a.Table? || a.Return? || a.TypeUnion?)
      modifies this
      ensures Open() && base == old(base) && members == old(members) + Fields(a)
      decreases a, 1
    {
      match a
      case Table(_, items) => PropArray("items", items);
      case Return(_, list) => PropArray("list", list);
      case TypeUnion(_, types) => PropArray("types", types);
    }

    method WriteCallFields(a: Ast)
      requires Open() && members != [] && a.Call?
      modifies this
      ensures Open() && base == old(base) && members == old(members) + Fields(a)
      decreases a, 1
    {
      PropNode("func", a.func);
      PropArray("args", a.args);
      PropBool("self", a.self);
      PropLocation("argLocation", a.argLocation);
    }

    method WriteIndexNameFields(a: Ast)
      requires Open() && members != [] && a.IndexName?
      modifies this
      ensures Open() && base == old(base) && members == old(members) + Fields(a)
      decreases a, 1
    {
      PropNode("expr", a.expr);
      PropString("index", a.name);
      PropLocation("indexLocation", a.indexLocation);
      PropString("op", [a.opChar]);
    }

    method WriteInterpStringFields(a: Ast)
      requires Open() && members != [] && a.InterpString?
      modifies this
      ensures Open() && base == old(base) && members == old(members) + Fields(a)
      decreases a, 1
    {
      PropArray("strings", a.strings);
      PropArray("expressions", a.expressions);
    }

    method WriteBinaryFields(a: Ast)
      requires Open() && members != [] && a.Binary?
      modifies this
      ensures Open() && base == old(base) && members == old(members) + Fields(a)
      decreases a, 1
    {
      PropString("op", BinaryName(a.binaryOp));
      PropNode("left", a.left);
      PropNode("right", a.right);
    }

    method WriteIfFields(a: Ast)
      requires Open() && members != [] && a.If?
      modifies this
      ensures Open() && base == old(base) && members == old(members) + Fields(a)
      decreases a, 1
    {
      WriteIfHead(a);
      PropOptional("elsebody", a.elsebody);
      PropBool("hasThen", a.hasThen);
      Regroup(old(members), [Member("condition", ToJson(a.condition))], [Member("thenbody", ToJson(a.thenbody))],
              Optional("elsebody", !a.elsebody.Missing?, ToJson(a.elsebody)), [Member("hasThen", Bool(a.hasThen))]);
    }

    method WriteIfHead(a: Ast)
      requires Open() && members != [] && a.If?
      modifies this
      ensures Open() && base == old(base)
      ensures members == old(members) + [Member("condition", ToJson(a.condition))] + [Member("thenbody", ToJson(a.thenbody))]
      decreases a, 0
    {
      PropNode("condition", a.condition);
      PropNode("thenbody", a.thenbody);
    }

    method WriteStatLocalFields(a: Ast)
      requires Open() && members != [] && a.StatLocal?
      modifies this
      ensures Open() && base == old(base) && members == old(members) + Fields(a)
      decreases a, 1
    {
      PropArray("vars", a.vars);
      PropArray("values", a.values);
    }

    method WriteForFields(a: Ast)
      requires Open() && members != [] && a.For?
      modifies this
      ensures Open() && base == old(base) && members == old(members) + Fields(a)
      decreases a, 1
    {
      WriteForRange(a);
      PropNode("body", a.body);
      PropBool("hasDo", a.hasDo);
      Regroup(old(members), ForRange(ToJson(a.local), ToJson(a.from), ToJson(a.to), !a.step.Missing?, ToJson(a.step)), [Member("body", ToJson(a.body))],
              [Member("hasDo", Bool(a.hasDo))], []);
    }

    method WriteForRange(a: Ast)
      requires Open() && members != [] && a.For?
      modifies this
      ensures Open() && base == old(base) && members == old(members) + ForRange(ToJson(a.local), ToJson(a.from), ToJson(a.to), !a.step.Missing?, ToJson(a.step))
      decreases a, 0
    {
      PropNode("var", a.local);
      PropNode("from", a.from);
      PropNode("to", a.to);
      PropOptional("step", a.step);
      Regroup(old(members), [Member("var", ToJson(a.local))], [Member("from", ToJson(a.from))],
              [Member("to", ToJson(a.to))], Optional("step", !a.step.Missing?, ToJson(a.step)));
    }

    /** Blocks bypass the comma flag: their two members are written raw, each behind a comma. */
    method WriteBlockFields(a: Ast)
      requires Open() && members != [] && a.Block?
      modifies this
      ensures Open() && base == old(base) && members == old(members) + Fields(a)
      decreases a, 1
    {
      WriteHasEnd(a.hasEnd);
      RawProp("body");
      WriteArray(a.stats);
      MemberDone(base, members, "body", Arr(ToJsons(a.stats)));
      members := members + [Member("body", Arr(ToJsons(a.stats)))];
    }

    method WriteHasEnd(hasEnd: bool)
      requires Open() && members != []
      modifies this
      ensures Open() && base == old(base) && members == old(members) + [Member("hasEnd", Bool(hasEnd))]
    {
      RawProp("hasEnd");
      WriteBool(hasEnd);
      MemberDone(base, members, "hasEnd", Bool(hasEnd));
      members := members + [Member("hasEnd", Bool(hasEnd))];
    }

    /** A comma, the quoted name and a colon, in one literal. */
    method RawProp(name: string)
      requires Open() && members != [] && Plain(name)
      modifies this`chunks
      ensures Valid() && Text() == Named(base, members, name)
    {
      WriteRaw(",\"" + name + "\":");
      RawName(base, members, name);
    }
  }

  lemma {:induction false} Regroup(m: seq<Member>, a: seq<Member>, b: seq<Member>, c: seq<Member>, d: seq<Member>)
    ensures m + a + b + c + d == m + (a + b + c + d)
  {
  }

  lemma {:induction false} RawName(base: string, ms: seq<Member>, name: string)
    requires ms != [] && Plain(name)
    ensures Opened(base, ms) + (",\"" + name + "\":") == Named(base, ms, name)
  {
    PlainIsUnescaped(name);
    assert ",\"" + name + "\":" == "," + (Quoted(name) + ":");
  }

  lemma {:induction false} NameDone(base: string, ms: seq<Member>, name: string)
    requires Plain(name)
    ensures Opened(base, ms) + (if ms == [] then "" else ",") + "\"" + name + "\":" == Named(base, ms, name)
  {
    PlainIsUnescaped(name);
    var open, sep := Opened(base, ms), if ms == [] then "" else ",";
    assert Quoted(name) + ":" == "\"" + name + "\":";
    FourParts(open + sep, "\"", name, "\":");
    Assoc(open, sep, "\"" + (name + "\":"));
  }

  lemma {:induction false} ArraySoFar(start: string, items: seq<Ast>, i: nat)
    requires i < |items|
    ensures start + RenderItems(ToJsons(items[..i])) + (if i == 0 then "" else ",") + Render(ToJson(items[i]))
            == start + RenderItems(ToJsons(items[..i + 1]))
  {
    ToJsonsPrefix(items, i);
    var vs, v := ToJsons(items[..i]), ToJson(items[i]);
    ItemsAppend(vs, v);
    ToJsonsLength(items[..i]);
    var sep := if i == 0 then "" else ",";
    FourParts(start, RenderItems(vs), sep, Render(v));
  }

  lemma {:induction false} FourParts(a: string, b: string, c: string, d: string)
    ensures a + b + c + d == a + (b + (c + d))
  {
  }

  lemma {:induction false} ToJsonsLength(items: seq<Ast>)
    ensures |ToJsons(items)| == |items|
  {
    if items != [] {
      ToJsonsLength(items[1..]);
    }
  }

  lemma {:induction false} ArrayDone(base: string, items: seq<Ast>)
    ensures base + "[" + RenderItems(ToJsons(items[..|items|])) + "]" == base + Render(Arr(ToJsons(items)))
  {
    assert items[..|items|] == items;
  }

  lemma {:induction false} RowSoFar(start: string, expr: Ast, types: seq<Ast>, i: nat)
    requires i < |types|
    ensures start + Render(RowOf(ToJson(expr), ToJsons(types[..i]))) + Render(ToJson(types[i])) ==
            start + Render(RowOf(ToJson(expr), ToJsons(types[..i + 1])))
  {
    ToJsonsPrefix(types, i);
    var before, after := ToJsons(types[..i]), ToJsons(types[..i + 1]);
    assert after[..|after| - 1] == before && after[|after| - 1] == ToJson(types[i]);
    Assoc(start, Render(RowOf(ToJson(expr), before)), Render(ToJson(types[i])));
  }

  // ----- which trees have a JSON text -----

  ghost predicate MembersJson(ms: seq<Member>) {
    forall i :: 0 <= i < |ms| ==> IsJson(ms[i].value)
  }

  ghost predicate MembersEnd(ms: seq<Member>) {
    forall i :: 0 <= i < |ms| ==> RowsEnd(ms[i].value)
  }

  /** The value of a tree is JSON exactly when the tree is clean, and its rows can be told apart. */
  ghost predicate AsClean(a: Ast) {
    var v := ToJson(a);
    RowsEnd(v) && SelfEnding(v) && (IsJson(v) <==> Clean(a))
  }

  ghost predicate ListAsClean(items: seq<Ast>) {
    RowsEnd(Arr(ToJsons(items))) && (IsJson(Arr(ToJsons(items))) <==> CleanAll(items))
  }

  ghost predicate FieldsAsClean(a: Ast) {
    MembersEnd(Fields(a)) && (MembersJson(Fields(a)) <==> Clean(a))
  }

  lemma {:induction false} ValueIsClean(a: Ast)
    ensures AsClean(a)
    decreases a, 2
  {
    match a
    case Missing =>
    case Chars(_) =>
    case Local(_, _, annotation, _) =>
      ValueIsClean(annotation);
      LocalIsClean(a);
    case TableItem(_, key, value) =>
      ValueIsClean(key);
      ValueIsClean(value);
      TableItemIsClean(a);
    case Instantiate(_, expr, typeArguments) =>
      ValueIsClean(expr);
      ValuesAreClean(typeArguments);
      RowIsClean(ToJson(expr), ToJsons(typeArguments));
    case _ =>
      FieldsAreClean(a);
      NodeIsClean(a);
  }

  lemma {:induction false} LocalIsClean(a: Ast)
    requires a.Local? && AsClean(a.annotation)
    ensures AsClean(a)
  {
    assert ToJson(a).members[0].value == ToJson(a.annotation);
  }

  lemma {:induction false} TableItemIsClean(a: Ast)
    requires a.TableItem? && AsClean(a.key) && AsClean(a.value)
    ensures AsClean(a)
  {
    var start := [Member("type", Str("AstExprTableItem")), Member("kind", Str(KindName(a.kind)))];
    OneMember("key", !a.kind.ListItem?, a.key);
    OneMember("value", true, a.value);
    var key, value := Optional("key", !a.kind.ListItem?, ToJson(a.key)), [Member("value", ToJson(a.value))];
    MembersConcat(start, key);
    MembersConcat(start + key, value);
    assert ToJson(a).members == start + key + value;
  }

  lemma {:induction false} OneMember(name: string, present: bool, a: Ast)
    requires AsClean(a)
    ensures MembersEnd(Optional(name, present, ToJson(a)))
    ensures MembersJson(Optional(name, present, ToJson(a))) <==> (present ==> Clean(a))
    ensures MembersEnd([Member(name, ToJson(a))]) && (MembersJson([Member(name, ToJson(a))]) <==> Clean(a))
  {
    assert [Member(name, ToJson(a))][0].value == ToJson(a);
  }

  lemma {:induction false} MembersConcat(a: seq<Member>, b: seq<Member>)
    ensures MembersJson(a + b) <==> MembersJson(a) && MembersJson(b)
    ensures MembersEnd(a + b) <==> MembersEnd(a) && MembersEnd(b)
  {
    assert forall i :: 0 <= i < |a| ==> (a + b)[i] == a[i];
    assert forall i :: 0 <= i < |b| ==> (a + b)[|a| + i] == b[i];
  }

  lemma {:induction false} NodeIsClean(a: Ast)
    requires !a.Missing? && !a.Chars? && !a.TableItem? && !a.Local? && !a.Instantiate? && FieldsAsClean(a)
    ensures AsClean(a)
  {
    var head, v := [Member("type", Str(TypeName(a))), Member("location", Str(LocationText(a.location)))], ToJson(a);
    assert v == Obj(head + Fields(a));
    assert (IsJson(v) <==> MembersJson(Fields(a))) && (RowsEnd(v) <==> MembersEnd(Fields(a))) by {
      MembersConcat(head, Fields(a));
    }
  }

  lemma {:induction false} RowIsClean(v: Value, more: seq<Value>)
    requires RowsEnd(v) && SelfEnding(v)
    requires forall i :: 0 <= i < |more| ==> RowsEnd(more[i]) && SelfEnding(more[i])
    ensures RowsEnd(RowOf(v, more)) && SelfEnding(RowOf(v, more)) && (more != [] ==> !IsJson(RowOf(v, more)))
  {
    if more != [] {
      RowIsClean(v, more[..|more| - 1]);
    }
  }

  lemma {:induction false} ToJsonsAt(items: seq<Ast>, i: nat)
    requires i < |items|
    ensures |ToJsons(items)| == |items| && ToJsons(items)[i] == ToJson(items[i])
  {
    if i > 0 {
      ToJsonsAt(items[1..], i - 1);
    } else if |items| > 1 {
      ToJsonsAt(items[1..], 0);
    }
  }

  lemma {:induction false} ValuesAreClean(items: seq<Ast>)
    ensures |ToJsons(items)| == |items| && ListAsClean(items)
    ensures forall i :: 0 <= i < |items| ==> RowsEnd(ToJsons(items)[i]) && SelfEnding(ToJsons(items)[i])
    decreases items, 3
  {
    ToJsonsLength(items);
    forall i | 0 <= i < |items| ensures ToJsons(items)[i] == ToJson(items[i]) && AsClean(items[i]) {
      ToJsonsAt(items, i);
      ValueIsClean(items[i]);
    }
  }

  lemma {:induction false} FieldsAreClean(a: Ast)
    requires !a.Missing? && !a.Chars? && !a.TableItem? && !a.Local? && !a.Instantiate?
    ensures FieldsAsClean(a)
    decreases a, 1
  {
    if a.Group? {
      ValueIsClean(a.expr);
      OneMember("expr", true, a.expr);
    } else if a.LocalUse? {
      ValueIsClean(a.local);
      OneMember("local", true, a.local);
    } else if a.IndexName? {
      ValueIsClean(a.expr);
      IndexNameIsClean(a);
    } else if a.Binary? {
      ValueIsClean(a.left);
      ValueIsClean(a.right);
      BinaryIsClean(a);
    } else if a.If? {
      ValueIsClean(a.condition);
      ValueIsClean(a.thenbody);
      ValueIsClean(a.elsebody);
      IfIsClean(a);
    } else if a.For? {
      ValueIsClean(a.local);
      ValueIsClean(a.from);
      ValueIsClean(a.to);
      ValueIsClean(a.step);
      ValueIsClean(a.body);
      ForIsClean(a);
    } else {
      ListsAreClean(a);
    }
  }

  /** Nodes with lists, and constants. */
  lemma {:induction false} ListsAreClean(a: Ast)
    requires a.Call? || a.Table? || a.InterpString? || a.Block? || a.Return? || a.StatLocal? || a.TypeUnion?
             || a.ConstantNil? || a.ConstantBool? || a.ConstantInteger? || a.ConstantString?
    ensures FieldsAsClean(a)
    decreases a, 0
  {
    if a.Call? {
      ValueIsClean(a.func);
      ValuesAreClean(a.args);
      CallIsClean(a);
    } else if a.Table? {
      ValuesAreClean(a.items);
      TableIsClean(a);
    } else if a.Return? {
      ValuesAreClean(a.list);
      ReturnIsClean(a);
    } else if a.TypeUnion? {
      ValuesAreClean(a.types);
      TypeUnionIsClean(a);
    } else if a.InterpString? {
      ValuesAreClean(a.strings);
      ValuesAreClean(a.expressions);
      InterpStringIsClean(a);
    } else if a.StatLocal? {
      ValuesAreClean(a.vars);
      ValuesAreClean(a.values);
      StatLocalIsClean(a);
    } else if a.Block? {
      ValuesAreClean(a.stats);
      BlockIsClean(a);
    } else {
      ConstantIsClean(a);
    }
  }

  lemma {:induction false} ConstantIsClean(a: Ast)
    requires a.ConstantNil? || a.ConstantBool? || a.ConstantInteger? || a.ConstantString?
    ensures FieldsAsClean(a)
  {
  }

  lemma {:induction false} TableIsClean(a: Ast)
    requires a.Table? && ListAsClean(a.items)
    ensures FieldsAsClean(a)
  {
    ListMember("items", a.items);
  }

  lemma {:induction false} ReturnIsClean(a: Ast)
    requires a.Return? && ListAsClean(a.list)
    ensures FieldsAsClean(a)
  {
    ListMember("list", a.list);
  }

  lemma {:induction false} TypeUnionIsClean(a: Ast)
    requires a.TypeUnion? && ListAsClean(a.types)
    ensures FieldsAsClean(a)
  {
    ListMember("types", a.types);
  }

  lemma {:induction false} InterpStringIsClean(a: Ast)
    requires a.InterpString? && ListAsClean(a.strings) && ListAsClean(a.expressions)
    ensures FieldsAsClean(a)
  {
    ListMembers("strings", a.strings, "expressions", a.expressions);
  }

  lemma {:induction false} StatLocalIsClean(a: Ast)
    requires a.StatLocal? && ListAsClean(a.vars) && ListAsClean(a.values)
    ensures FieldsAsClean(a)
  {
    ListMembers("vars", a.vars, "values", a.values);
  }

  lemma {:induction false} BlockIsClean(a: Ast)
    requires a.Block? && ListAsClean(a.stats)
    ensures FieldsAsClean(a)
  {
    assert Fields(a)[1].value == Arr(ToJsons(a.stats));
  }

  lemma {:induction false} IndexNameIsClean(a: Ast)
    requires a.IndexName? && AsClean(a.expr)
    ensures FieldsAsClean(a)
  {
    assert Fields(a)[0].value == ToJson(a.expr);
  }

  lemma {:induction false} BinaryIsClean(a: Ast)
    requires a.Binary? && AsClean(a.left) && AsClean(a.right)
    ensures FieldsAsClean(a)
  {
    assert Fields(a)[1].value == ToJson(a.left) && Fields(a)[2].value == ToJson(a.right);
  }

  lemma {:induction false} CallIsClean(a: Ast)
    requires a.Call? && AsClean(a.func) && ListAsClean(a.args)
    ensures FieldsAsClean(a)
  {
    assert Fields(a)[0].value == ToJson(a.func) && Fields(a)[1].value == Arr(ToJsons(a.args));
  }

  lemma {:induction false} ListMember(name: string, items: seq<Ast>)
    requires ListAsClean(items)
    ensures var ms := [Member(name, Arr(ToJsons(items)))]; MembersEnd(ms) && (MembersJson(ms) <==> CleanAll(items))
  {
    assert [Member(name, Arr(ToJsons(items)))][0].value == Arr(ToJsons(items));
  }

  lemma {:induction false} ListMembers(name: string, items: seq<Ast>, other: string, others: seq<Ast>)
    requires ListAsClean(items) && ListAsClean(others)
    ensures var ms := [Member(name, Arr(ToJsons(items))), Member(other, Arr(ToJsons(others)))];
            MembersEnd(ms) && (MembersJson(ms) <==> CleanAll(items) && CleanAll(others))
  {
    ListMember(name, items);
    ListMember(other, others);
    var a, b := [Member(name, Arr(ToJsons(items)))], [Member(other, Arr(ToJsons(others)))];
    MembersConcat(a, b);
    assert [a[0], b[0]] == a + b;
  }

  lemma {:induction false} IfIsClean(a: Ast)
    requires a.If? && AsClean(a.condition) && AsClean(a.thenbody) && AsClean(a.elsebody)
    ensures FieldsAsClean(a)
  {
    OneMember("condition", true, a.condition);
    OneMember("thenbody", true, a.thenbody);
    OneMember("elsebody", !a.elsebody.Missing?, a.elsebody);
    var c, t := [Member("condition", ToJson(a.condition))], [Member("thenbody", ToJson(a.thenbody))];
    var e := Optional("elsebody", !a.elsebody.Missing?, ToJson(a.elsebody));
    MembersConcat(c, t);
    MembersConcat(c + t, e);
    MembersConcat(c + t + e, [Member("hasThen", Bool(a.hasThen))]);
  }

  lemma {:induction false} ForIsClean(a: Ast)
    requires a.For? && AsClean(a.local) && AsClean(a.from) && AsClean(a.to) && AsClean(a.step) && AsClean(a.body)
    ensures FieldsAsClean(a)
  {
    var range := ForRange(ToJson(a.local), ToJson(a.from), ToJson(a.to), !a.step.Missing?, ToJson(a.step));
    ForFields(a);
    ForMembersAreClean(a, range, [Member("body", ToJson(a.body))], [Member("hasDo", Bool(a.hasDo))]);
  }

  lemma {:induction false} ForFields(a: Ast)
    requires a.For?
    ensures Fields(a) == ForRange(ToJson(a.local), ToJson(a.from), ToJson(a.to), !a.step.Missing?, ToJson(a.step))
                         + [Member("body", ToJson(a.body))] + [Member("hasDo", Bool(a.hasDo))]
    ensures Clean(a) <==> Clean(a.local) && Clean(a.from) && Clean(a.to) && Clean(a.step) && Clean(a.body)
  {
  }

  lemma {:induction false} ForMembersAreClean(a: Ast, range: seq<Member>, body: seq<Member>, hasDo: seq<Member>)
    requires a.For? && AsClean(a.local) && AsClean(a.from) && AsClean(a.to) && AsClean(a.step) && AsClean(a.body)
    requires range == ForRange(ToJson(a.local), ToJson(a.from), ToJson(a.to), !a.step.Missing?, ToJson(a.step))
    requires body == [Member("body", ToJson(a.body))] && hasDo == [Member("hasDo", Bool(a.hasDo))]
    ensures MembersEnd(range + body + hasDo)
    ensures MembersJson(range + body + hasDo) <==>
            Clean(a.local) && Clean(a.from) && Clean(a.to) && Clean(a.step) && Clean(a.body)
  {
    RangeIsClean(a);
    OneMember("body", true, a.body);
    MembersConcat(range, body);
    MembersConcat(range + body, hasDo);
  }

  lemma {:induction false} RangeIsClean(a: Ast)
    requires a.For? && AsClean(a.local) && AsClean(a.from) && AsClean(a.to) && AsClean(a.step)
    ensures var range := ForRange(ToJson(a.local), ToJson(a.from), ToJson(a.to), !a.step.Missing?, ToJson(a.step));
            MembersEnd(range) && (MembersJson(range) <==> Clean(a.local) && Clean(a.from) && Clean(a.to) && Clean(a.step))
  {
    OneMember("var", true, a.local);
    OneMember("from", true, a.from);
    OneMember("to", true, a.to);
    OneMember("step", !a.step.Missing?, a.step);
    var l, f, t := [Member("var", ToJson(a.local))], [Member("from", ToJson(a.from))], [Member("to", ToJson(a.to))];
    MembersConcat(l, f);
    MembersConcat(l + f, t);
    MembersConcat(l + f + t, Optional("step", !a.step.Missing?, ToJson(a.step)));
  }

  /** `toJson`: the encoder's text parses, under the grammar, to a value that reads as the tree, as far as
      it is written, if and only if no node instantiates with type arguments. */
  method Encode(a: Ast) returns (text: string)
    ensures Clean(a) ==> ParseText(text) == Ok(ToJson(a), [])
    ensures Clean(a) ==> AstReader.FromJson(ToJson(a)) == Some(AstReader.Written(a))
    ensures !Clean(a) ==> ParseText(text) == Fail
  {
    var encoder := new Encoder();
    encoder.Write(a);
    text := encoder.Text();
    assert text == Render(ToJson(a));
    ValueIsClean(a);
    if Clean(a) {
      TextRoundTrip(ToJson(a));
      AstReader.ReadsBack(a);
    } else {
      TextBreaks(ToJson(a));
    }
  }

  /** `f<<T>>(...)`, with a type argument: the text of the call is no JSON. */
  lemma {:induction false} InstantiatedCallBreaks(l: Location, f: Ast, t: Ast, args: seq<Ast>)
    ensures !Clean(Call(l, Instantiate(l, f, [t]), args, false, l))
    ensures ParseText(Render(ToJson(Call(l, Instantiate(l, f, [t]), args, false, l)))) == Fail
  {
    var call := Call(l, Instantiate(l, f, [t]), args, false, l);
    assert !Clean(call.func);
    ValueIsClean(call);
    TextBreaks(ToJson(call));
  }

  lemma {:induction false} EscapeAllAppend(s: string, c: char)
    ensures EscapeAll(s + [c]) == EscapeAll(s) + Escape(c)
  {
    if s == [] {
      assert s + [c] == [c];
    } else {
      EscapeAllAppend(s[1..], c);
      assert (s + [c])[0] == s[0] && (s + [c])[1..] == s[1..] + [c];
      Assoc(Escape(s[0]), EscapeAll(s[1..]), Escape(c));
    }
  }

  lemma {:induction false} EscapedSoFar(start: string, s: string, i: nat)
    requires i < |s|
    ensures start + EscapeAll(s[..i]) + Escape(s[i]) == start + EscapeAll(s[..i + 1])
  {
    EscapeAllAppend(s[..i], s[i]);
    assert s[..i + 1] == s[..i] + [s[i]];
    Assoc(start, EscapeAll(s[..i]), Escape(s[i]));
  }

  lemma {:induction false} QuoteDone(base: string, s: string)
    ensures base + "\"" + EscapeAll(s[..|s|]) + "\"" == base + Quoted(s)
  {
    assert s[..|s|] == s;
  }

  lemma {:induction false} LocationDone(base: string, l: Location)
    ensures base + "\"" + PositionText(l.begin) + " - " + PositionText(l.end) + "\"" == base + Quoted(LocationText(l))
  {
    LocationIsPlain(l);
    PlainIsUnescaped(LocationText(l));
    var a, b := PositionText(l.begin), PositionText(l.end);
    assert base + "\"" + a + " - " + b + "\"" == base + ("\"" + (a + " - " + b) + "\"");
  }

  lemma {:induction false} LocationIsPlain(l: Location)
    ensures Plain(LocationText(l))
  {
    forall n: nat ensures Plain(Digits(n)) {
      DigitsFacts(n);
    }
  }
}
