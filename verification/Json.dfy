/** JSON texts and values: the compact text of a value, and a parser for the grammar of RFC 8259
    (values in section 3, objects in section 4, arrays in section 5, strings in section 7, and the
    integers of section 6). Characters stand for the bytes of a text. */
module Json {

  datatype Member = Member(name: string, value: Value)

  /** Values, and rows: one value directly behind another, which is no JSON. */
  datatype Value =
    | Null
    | Bool(b: bool)
    | Int(i: int)
    | Str(s: string)
    | Arr(items: seq<Value>)
    | Obj(members: seq<Member>)
    | Row(first: Value, second: Value)

  // ----- texts -----

  const HEX_DIGITS: string := "0123456789abcdef"

  /** How a character appears inside a string. */
  function Escape(c: char): string {
    if c == '"' then "\\\""
    else if c == '\\' then "\\\\"
    else if c == '\U{8}' then "\\b"
    else if c == '\U{C}' then "\\f"
    else if c == '\n' then "\\n"
    else if c == '\r' then "\\r"
    else if c == '\t' then "\\t"
    else if c < ' ' then "\\u00" + [HEX_DIGITS[c as int / 16], HEX_DIGITS[c as int % 16]]
    else [c]
  }

  function EscapeAll(s: string): string {
    if s == [] then [] else Escape(s[0]) + EscapeAll(s[1..])
  }

  function Quoted(s: string): string {
    "\"" + EscapeAll(s) + "\""
  }

  function DigitChar(d: nat): char
    requires d < 10
  {
    '0' + d as char
  }

  predicate IsDigit(c: char) {
    '0' <= c <= '9'
  }

  function Digits(n: nat): string {
    if n < 10 then [DigitChar(n)] else Digits(n / 10) + [DigitChar(n % 10)]
  }

  function Decimal(i: int): string {
    if i < 0 then "-" + Digits(-i) else Digits(i)
  }

  function Render(v: Value): string
    decreases v, 0
  {
    match v
    case Null => "null"
    case Bool(b) => if b then "true" else "false"
    case Int(i) => Decimal(i)
    case Str(s) => Quoted(s)
    case Arr(items) => "[" + RenderItems(items) + "]"
    case Obj(members) => "{" + RenderMembers(members) + "}"
    case Row(first, second) => Render(first) + Render(second)
  }

  /** There is no row anywhere in the value. */
  predicate IsJson(v: Value) {
    match v
    case Arr(items) => forall i :: 0 <= i < |items| ==> IsJson(items[i])
    case Obj(members) => forall i :: 0 <= i < |members| ==> IsJson(members[i].value)
    case Row(_, _) => false
    case _ => true
  }

  /** Where the text of the value ends does not depend on what follows it. */
  predicate SelfEnding(v: Value) {
    !v.Int? && (v.Row? ==> SelfEnding(v.second))
  }

  /** In all rows the first part is told apart from the second. */
  predicate RowsEnd(v: Value) {
    match v
    case Arr(items) => forall i :: 0 <= i < |items| ==> RowsEnd(items[i])
    case Obj(members) => forall i :: 0 <= i < |members| ==> RowsEnd(members[i].value)
    case Row(first, second) => SelfEnding(first) && RowsEnd(first) && RowsEnd(second)
    case _ => true
  }

  function RenderItems(items: seq<Value>): string
    decreases items, 2
  {
    Commas(ItemTexts(items))
  }

  function ItemTexts(items: seq<Value>): seq<string>
    decreases items, 1
  {
    if items == [] then [] else [Render(items[0])] + ItemTexts(items[1..])
  }

  function RenderMember(m: Member): string
    decreases m, 1
  {
    Quoted(m.name) + (":" + Render(m.value))
  }

  function RenderMembers(members: seq<Member>): string
    decreases members, 3
  {
    Commas(MemberTexts(members))
  }

  function MemberTexts(members: seq<Member>): seq<string>
    decreases members, 2
  {
    if members == [] then [] else [RenderMember(members[0])] + MemberTexts(members[1..])
  }

  /** Texts separated by commas. */
  function Commas(parts: seq<string>): string {
    if parts == [] then []
    else if |parts| == 1 then parts[0]
    else parts[0] + ("," + Commas(parts[1..]))
  }

  lemma {:induction false} CommasAppend(parts: seq<string>, p: string)
    ensures Commas(parts + [p]) == Commas(parts) + ((if parts == [] then "" else ",") + p)
  {
    var all := parts + [p];
    if parts == [] {
      assert all == [p];
    } else {
      assert all[0] == parts[0] && all[1..] == parts[1..] + [p];
      CommasAppend(parts[1..], p);
      if |parts| == 1 {
        assert all[1..] == [p];
      } else {
        AppendText(parts[0], Commas(parts[1..]), p);
      }
    }
  }

  lemma {:induction false} CommasHead(parts: seq<string>)
    requires parts != [] && parts[0] != []
    ensures Commas(parts) != [] && Commas(parts)[0] == parts[0][0]
  {
  }

  lemma {:induction false} AppendText(first: string, tail: string, last: string)
    ensures first + ("," + (tail + ("," + last))) == (first + ("," + tail)) + ("," + last)
  {
  }

  lemma {:induction false} ItemTextsAppend(vs: seq<Value>, v: Value)
    ensures ItemTexts(vs + [v]) == ItemTexts(vs) + [Render(v)]
  {
    if vs == [] {
      assert vs + [v] == [v];
    } else {
      ItemTextsAppend(vs[1..], v);
      assert (vs + [v])[0] == vs[0] && (vs + [v])[1..] == vs[1..] + [v];
    }
  }

  lemma {:induction false} MemberTextsAppend(ms: seq<Member>, m: Member)
    ensures MemberTexts(ms + [m]) == MemberTexts(ms) + [RenderMember(m)]
  {
    if ms == [] {
      assert ms + [m] == [m];
    } else {
      MemberTextsAppend(ms[1..], m);
      assert (ms + [m])[0] == ms[0] && (ms + [m])[1..] == ms[1..] + [m];
    }
  }

  // ----- the grammar -----

  datatype Parsed<+T> = Fail | Ok(value: T, rest: string)

  predicate IsWhitespace(c: char) {
    c == ' ' || c == '\t' || c == '\n' || c == '\r'
  }

  function SkipWhitespace(s: string): (r: string)
    ensures |r| <= |s|
  {
    if s != [] && IsWhitespace(s[0]) then SkipWhitespace(s[1..]) else s
  }

  /** Skip whitespace, then expect one structural character. */
  function Expect(s: string, c: char): (r: Parsed<()>)
    ensures r.Ok? ==> |r.rest| < |s|
  {
    var t := SkipWhitespace(s);
    if t != [] && t[0] == c then Ok((), t[1..]) else Fail
  }

  function HexValue(c: char): Parsed<nat> {
    if '0' <= c <= '9' then Ok(c as int - '0' as int, [])
    else if 'a' <= c <= 'f' then Ok(c as int - 'a' as int + 10, [])
    else if 'A' <= c <= 'F' then Ok(c as int - 'A' as int + 10, [])
    else Fail
  }

  /** The escape sequence behind a backslash. Code units that are no characters are not accepted. */
  function ParseEscape(s: string): (r: Parsed<char>)
    ensures r.Ok? ==> |r.rest| < |s|
  {
    if s == [] then Fail
    else if s[0] == '"' || s[0] == '\\' || s[0] == '/' then Ok(s[0], s[1..])
    else if s[0] == 'b' then Ok('\U{8}', s[1..])
    else if s[0] == 'f' then Ok('\U{C}', s[1..])
    else if s[0] == 'n' then Ok('\n', s[1..])
    else if s[0] == 'r' then Ok('\r', s[1..])
    else if s[0] == 't' then Ok('\t', s[1..])
    else if s[0] == 'u' && |s| >= 5 then
      var a, b, c, d := HexValue(s[1]), HexValue(s[2]), HexValue(s[3]), HexValue(s[4]);
      if a.Ok? && b.Ok? && c.Ok? && d.Ok? then
        var code := ((a.value * 16 + b.value) * 16 + c.value) * 16 + d.value;
        if code < 0xD800 || 0xE000 <= code < 0x10000 then Ok(code as char, s[5..]) else Fail
      else Fail
    else Fail
  }

  /** The rest of a string behind its opening quotation mark. */
  function ParseString(s: string): (r: Parsed<string>)
    ensures r.Ok? ==> |r.rest| < |s|
    decreases |s|
  {
    if s == [] || s[0] < ' ' then Fail
    else if s[0] == '"' then Ok([], s[1..])
    else if s[0] == '\\' then
      var e := ParseEscape(s[1..]);
      if e.Fail? then Fail
      else
        var r := ParseString(e.rest);
        if r.Fail? then Fail else Ok([e.value] + r.value, r.rest)
    else
      var r := ParseString(s[1..]);
      if r.Fail? then Fail else Ok([s[0]] + r.value, r.rest)
  }

  function DigitPrefix(s: string): (n: nat)
    ensures n <= |s| && forall i :: 0 <= i < n ==> IsDigit(s[i])
  {
    if s != [] && IsDigit(s[0]) then 1 + DigitPrefix(s[1..]) else 0
  }

  function DigitsValue(s: string): nat
    requires forall i :: 0 <= i < |s| ==> IsDigit(s[i])
  {
    if s == [] then 0
    else
      assert IsDigit(s[|s| - 1]);
      DigitsValue(s[..|s| - 1]) * 10 + (s[|s| - 1] as int - '0' as int)
  }

  /** An integer without sign; a fraction or an exponent is outside this fragment. */
  function ParseDigits(s: string): (r: Parsed<nat>)
    ensures r.Ok? ==> |r.rest| < |s|
  {
    var n := DigitPrefix(s);
    if n == 0 || (n > 1 && s[0] == '0') || (n < |s| && s[n] in ".eE") then Fail
    else Ok(DigitsValue(s[..n]), s[n..])
  }

  function ParseLiteral(s: string, word: string, v: Value): (r: Parsed<Value>)
    requires word != []
    ensures r.Ok? ==> |r.rest| < |s|
  {
    if word <= s then Ok(v, s[|word|..]) else Fail
  }

  function ParseValue(s0: string): (r: Parsed<Value>)
    ensures r.Ok? ==> |r.rest| < |s0|
    decreases |s0|, 1
  {
    var s := SkipWhitespace(s0);
    if s == [] then Fail
    else if s[0] == '"' then
      var r := ParseString(s[1..]);
      if r.Fail? then Fail else Ok(Str(r.value), r.rest)
    else if s[0] == '[' then
      var close := Expect(s[1..], ']');
      if close.Ok? then Ok(Arr([]), close.rest)
      else
        var r := ParseItems(s[1..]);
        if r.Fail? then Fail else Ok(Arr(r.value), r.rest)
    else if s[0] == '{' then
      var close := Expect(s[1..], '}');
      if close.Ok? then Ok(Obj([]), close.rest)
      else
        var r := ParseMembers(s[1..]);
        if r.Fail? then Fail else Ok(Obj(r.value), r.rest)
    else if s[0] == 't' then ParseLiteral(s, "true", Bool(true))
    else if s[0] == 'f' then ParseLiteral(s, "false", Bool(false))
    else if s[0] == 'n' then ParseLiteral(s, "null", Null)
    else if s[0] == '-' then
      var r := ParseDigits(s[1..]);
      if r.Fail? then Fail else Ok(Int(-(r.value as int)), r.rest)
    else
      var r := ParseDigits(s);
      if r.Fail? then Fail else Ok(Int(r.value), r.rest)
  }

  /** One or more values separated by commas, up to the closing bracket. */
  function ParseItems(s: string): (r: Parsed<seq<Value>>)
    ensures r.Ok? ==> |r.rest| < |s|
    decreases |s|, 2
  {
    var v := ParseValue(s);
    if v.Fail? then Fail
    else
      var close, comma := Expect(v.rest, ']'), Expect(v.rest, ',');
      if close.Ok? then Ok([v.value], close.rest)
      else if comma.Fail? then Fail
      else
        var r := ParseItems(comma.rest);
        if r.Fail? then Fail else Ok([v.value] + r.value, r.rest)
  }

  function ParseMember(s: string): (r: Parsed<Member>)
    ensures r.Ok? ==> |r.rest| < |s|
    decreases |s|, 2
  {
    var open := Expect(s, '"');
    if open.Fail? then Fail
    else
      var name := ParseString(open.rest);
      if name.Fail? then Fail
      else
        var colon := Expect(name.rest, ':');
        if colon.Fail? then Fail
        else
          var v := ParseValue(colon.rest);
          if v.Fail? then Fail else Ok(Member(name.value, v.value), v.rest)
  }

  function ParseMembers(s: string): (r: Parsed<seq<Member>>)
    ensures r.Ok? ==> |r.rest| < |s|
    decreases |s|, 3
  {
    var m := ParseMember(s);
    if m.Fail? then Fail
    else
      var close, comma := Expect(m.rest, '}'), Expect(m.rest, ',');
      if close.Ok? then Ok([m.value], close.rest)
      else if comma.Fail? then Fail
      else
        var r := ParseMembers(comma.rest);
        if r.Fail? then Fail else Ok([m.value] + r.value, r.rest)
  }

  /** A JSON text: one value with nothing but whitespace around it. */
  function ParseText(s: string): Parsed<Value> {
    var r := ParseValue(s);
    if r.Ok? && SkipWhitespace(r.rest) == [] then Ok(r.value, []) else Fail
  }

  // ----- round trips -----

  /** What may follow a value in a compact text. */
  predicate Delimited(rest: string) {
    rest == [] || rest[0] in ",]}"
  }

  lemma {:induction false} EscapeParses(c: char, rest: string)
    ensures var e := Escape(c);
            if e == [c] then c >= ' ' && c != '"' && c != '\\'
            else e[0] == '\\' && ParseEscape(e[1..] + rest) == Ok(c, rest)
  {
    var e := Escape(c);
    var t := e[1..] + rest;
    if |e| == 2 {
      assert e[1..] == [e[1]] && t[0] == e[1] && t[1..] == rest;
    } else if |e| == 6 {
      var hi, lo := c as int / 16, c as int % 16;
      assert e == ['\\', 'u', '0', '0', HEX_DIGITS[hi], HEX_DIGITS[lo]];
      assert HexValue(HEX_DIGITS[hi]) == Ok(hi, []) && HexValue(HEX_DIGITS[lo]) == Ok(lo, []);
      assert t[5..] == rest;
      assert t[1] == '0' && t[2] == '0' && t[3] == HEX_DIGITS[hi] && t[4] == HEX_DIGITS[lo];
      assert (hi * 16 + lo) as char == c;
    }
  }

  /** Reading one escaped character in front of a string that is known to read back. */
  lemma {:induction false} StringStep(c: char, e: string, escaped: string, quote: string, s: string, rest: string)
    requires e != [] && ParseString(escaped + quote) == Ok(s, rest)
    requires if e == [c] then c >= ' ' && c != '"' && c != '\\'
             else e[0] == '\\' && ParseEscape(e[1..] + (escaped + quote)) == Ok(c, escaped + quote)
    ensures ParseString((e + escaped) + quote) == Ok([c] + s, rest)
  {
    var tail := escaped + quote;
    var text := (e + escaped) + quote;
    assert text[0] == e[0] && text[1..] == e[1..] + tail;
    if e == [c] {
      assert text[1..] == tail;
    }
  }

  lemma {:induction false} EscapedStep(c: char, escaped: string, quote: string, s: string, rest: string)
    requires ParseString(escaped + quote) == Ok(s, rest)
    ensures ParseString((Escape(c) + escaped) + quote) == Ok([c] + s, rest)
  {
    EscapeParses(c, escaped + quote);
    StringStep(c, Escape(c), escaped, quote, s, rest);
  }

  lemma {:induction false} StringEnd(rest: string)
    ensures ParseString("\"" + rest) == Ok([], rest)
  {
    assert ("\"" + rest)[1..] == rest;
  }

  lemma {:induction false} Assoc(a: string, b: string, c: string)
    ensures (a + b) + c == a + (b + c)
  {
  }

  /** Reading an escaped string gives back every string. */
  lemma {:induction false} StringRoundTrip(s: string, rest: string)
    ensures ParseString(EscapeAll(s) + ("\"" + rest)) == Ok(s, rest)
  {
    var quote := "\"" + rest;
    if s == [] {
      StringEnd(rest);
      assert EscapeAll(s) + quote == quote;
    } else {
      StringRoundTrip(s[1..], rest);
      EscapedStep(s[0], EscapeAll(s[1..]), quote, s[1..], rest);
      assert s == [s[0]] + s[1..];
    }
  }

  lemma {:induction false} DigitsFacts(n: nat)
    ensures var s := Digits(n);
            && s != [] && (forall i :: 0 <= i < |s| ==> IsDigit(s[i]))
            && DigitsValue(s) == n && (s[0] == '0' ==> n == 0 && |s| == 1)
  {
    if n >= 10 {
      DigitsFacts(n / 10);
      var s := Digits(n);
      assert s[..|s| - 1] == Digits(n / 10);
      assert s[0] == Digits(n / 10)[0];
    }
  }

  lemma {:induction false} DigitPrefixAt(s: string, rest: string)
    requires forall i :: 0 <= i < |s| ==> IsDigit(s[i])
    requires rest == [] || !IsDigit(rest[0])
    ensures DigitPrefix(s + rest) == |s|
  {
    if s != [] {
      DigitPrefixAt(s[1..], rest);
      assert (s + rest)[1..] == s[1..] + rest;
    } else {
      assert s + rest == rest;
    }
  }

  lemma {:induction false} DigitsRoundTrip(n: nat, rest: string)
    requires Delimited(rest)
    ensures ParseDigits(Digits(n) + rest) == Ok(n, rest)
  {
    var s := Digits(n);
    DigitsFacts(n);
    DigitPrefixAt(s, rest);
    assert (s + rest)[..|s|] == s && (s + rest)[|s|..] == rest;
    assert rest != [] ==> (s + rest)[|s|] == rest[0];
  }

  lemma {:induction false} NoWhitespace(s: string)
    requires s == [] || !IsWhitespace(s[0])
    ensures SkipWhitespace(s) == s
  {
  }

  lemma {:induction false} RenderHead(v: Value)
    ensures Render(v) != [] && !IsWhitespace(Render(v)[0]) && Render(v)[0] !in "]},:"
  {
    if v.Int? {
      DigitsFacts(if v.i < 0 then -v.i else v.i);
    } else if v.Row? {
      RenderHead(v.first);
    }
  }

  lemma {:induction false} QuotedParses(s: string, rest: string)
    ensures var text := Quoted(s) + rest;
            text[0] == '"' && ParseString(text[1..]) == Ok(s, rest)
  {
    var text, behind := Quoted(s) + rest, EscapeAll(s) + ("\"" + rest);
    assert text[0] == '"';
    assert text[1..] == behind;
    assert ParseString(behind) == Ok(s, rest) by {
      StringRoundTrip(s, rest);
    }
  }

  lemma {:induction false} NumberAt(text: string)
    requires text != [] && (IsDigit(text[0]) || text[0] == '-')
    ensures text[0] == '-' ==> var r := ParseDigits(text[1..]);
              ParseValue(text) == if r.Fail? then Fail else Ok(Int(-(r.value as int)), r.rest)
    ensures text[0] != '-' ==> var r := ParseDigits(text);
              ParseValue(text) == if r.Fail? then Fail else Ok(Int(r.value), r.rest)
  {
    NoWhitespace(text);
  }

  lemma {:induction false} IntParses(i: int, rest: string)
    requires Delimited(rest)
    ensures ParseValue(Decimal(i) + rest) == Ok(Int(i), rest)
  {
    var n := if i < 0 then -i else i;
    var digits := Digits(n) + rest;
    DigitsFacts(n);
    DigitsRoundTrip(n, rest);
    if i < 0 {
      Assoc("-", Digits(n), rest);
      assert ("-" + digits)[1..] == digits;
      NumberAt("-" + digits);
    } else {
      NumberAt(digits);
    }
  }

  /** Expecting the character that comes next, or another one, in a compact text. */
  lemma {:induction false} ExpectAt(c: char, rest: string, want: char)
    requires !IsWhitespace(c)
    ensures Expect([c] + rest, want) == if c == want then Ok((), rest) else Fail
  {
    NoWhitespace([c] + rest);
    assert ([c] + rest)[1..] == rest;
  }

  /** Parsing the compact text of a value gives back the value and leaves what follows it. */
  lemma {:induction false} RoundTrip(v: Value, rest: string)
    requires IsJson(v) && (Delimited(rest) || SelfEnding(v))
    ensures ParseValue(Render(v) + rest) == Ok(v, rest)
    decreases v, 1
  {
    var text := Render(v) + rest;
    RenderHead(v);
    NoWhitespace(text);
    match v
    case Null => assert text[4..] == rest;
    case Bool(b) => assert text[if b then 4 else 5..] == rest;
    case Int(i) => IntParses(i, rest);
    case Str(s) => QuotedParses(s, rest);
    case Arr(items) => ArrayParses(items, rest);
    case Obj(members) => ObjectParses(members, rest);
  }

  lemma {:induction false} ArrayParses(items: seq<Value>, rest: string)
    requires IsJson(Arr(items))
    ensures ParseValue("[" + RenderItems(items) + "]" + rest) == Ok(Arr(items), rest)
    decreases items, 2
  {
    var text := "[" + RenderItems(items) + "]" + rest;
    NoWhitespace(text);
    var inside := RenderItems(items) + ("]" + rest);
    assert text[1..] == inside;
    if items == [] {
      assert ItemTexts(items) == [];
      assert inside == [']'] + rest;
      ExpectAt(']', rest, ']');
    } else {
      ItemsParse(items, rest);
      RenderHead(items[0]);
      CommasHead(ItemTexts(items));
      NoWhitespace(inside);
    }
  }

  lemma {:induction false} ItemsLast(text: string, v: Value, rest: string)
    requires ParseValue(text) == Ok(v, "]" + rest)
    ensures ParseItems(text) == Ok([v], rest)
  {
    ExpectAt(']', rest, ']');
  }

  lemma {:induction false} ItemsMore(text: string, v: Value, more: string, vs: seq<Value>, rest: string)
    requires ParseValue(text) == Ok(v, "," + more) && ParseItems(more) == Ok(vs, rest)
    ensures ParseItems(text) == Ok([v] + vs, rest)
  {
    ExpectAt(',', more, ']');
    ExpectAt(',', more, ',');
  }

  /** The text of a list is the text of its first element and what is behind it. */
  lemma {:induction false} ItemsSplit(items: seq<Value>, close: string) returns (behind: string)
    requires items != []
    ensures behind == if |items| == 1 then close else "," + (RenderItems(items[1..]) + close)
    ensures RenderItems(items) + close == Render(items[0]) + behind
  {
    var texts := ItemTexts(items);
    assert texts[0] == Render(items[0]) && texts[1..] == ItemTexts(items[1..]);
    behind := if |items| == 1 then close else "," + (RenderItems(items[1..]) + close);
    if |items| > 1 {
      assert items[1..] != [] && |texts| > 1;
      ThreeParts(texts[0], RenderItems(items[1..]), close);
    }
  }

  lemma {:induction false} ItemsParse(items: seq<Value>, rest: string)
    requires items != [] && IsJson(Arr(items))
    ensures ParseItems(RenderItems(items) + ("]" + rest)) == Ok(items, rest)
    decreases items, 1
  {
    var close := "]" + rest;
    var behind := ItemsSplit(items, close);
    RoundTrip(items[0], behind);
    if |items| == 1 {
      ItemsLast(Render(items[0]) + behind, items[0], rest);
      assert items == [items[0]];
    } else {
      RestIsJson(items, []);
      ItemsParse(items[1..], rest);
      ItemsMore(Render(items[0]) + behind, items[0], RenderItems(items[1..]) + close, items[1..], rest);
      assert items == [items[0]] + items[1..];
    }
  }

  lemma {:induction false} ThreeParts(first: string, tail: string, close: string)
    ensures first + ("," + tail) + close == first + ("," + (tail + close))
  {
  }

  lemma {:induction false} ObjectParses(members: seq<Member>, rest: string)
    requires IsJson(Obj(members))
    ensures ParseValue("{" + RenderMembers(members) + "}" + rest) == Ok(Obj(members), rest)
    decreases members, 3
  {
    var text := "{" + RenderMembers(members) + "}" + rest;
    NoWhitespace(text);
    var inside := RenderMembers(members) + ("}" + rest);
    assert text[1..] == inside;
    if members == [] {
      assert MemberTexts(members) == [];
      assert inside == ['}'] + rest;
      ExpectAt('}', rest, '}');
    } else {
      MembersParse(members, rest);
      assert MemberTexts(members)[0] == RenderMember(members[0]);
      CommasHead(MemberTexts(members));
      assert inside[0] == '"';
      NoWhitespace(inside);
    }
  }

  lemma {:induction false} MemberSteps(text: string, name: string, value: string)
    requires text != [] && text[0] == '"' && ParseString(text[1..]) == Ok(name, ":" + value)
    ensures var v := ParseValue(value);
            ParseMember(text) == if v.Fail? then Fail else Ok(Member(name, v.value), v.rest)
  {
    assert text == ['"'] + text[1..];
    ExpectAt('"', text[1..], '"');
    ExpectAt(':', value, ':');
  }

  /** A member parses as its value does. */
  lemma {:induction false} MemberAt(m: Member, rest: string)
    ensures var v := ParseValue(Render(m.value) + rest);
            ParseMember(RenderMember(m) + rest) == if v.Fail? then Fail else Ok(Member(m.name, v.value), v.rest)
  {
    var value := Render(m.value) + rest;
    Assoc(Quoted(m.name), ":" + Render(m.value), rest);
    Assoc(":", Render(m.value), rest);
    QuotedParses(m.name, ":" + value);
    MemberSteps(RenderMember(m) + rest, m.name, value);
  }

  lemma {:induction false} MemberParses(m: Member, rest: string)
    requires IsJson(m.value) && Delimited(rest)
    ensures ParseMember(RenderMember(m) + rest) == Ok(m, rest)
    decreases m, 1
  {
    MemberAt(m, rest);
    RoundTrip(m.value, rest);
  }

  lemma {:induction false} MembersLast(text: string, m: Member, rest: string)
    requires ParseMember(text) == Ok(m, "}" + rest)
    ensures ParseMembers(text) == Ok([m], rest)
  {
    ExpectAt('}', rest, '}');
  }

  lemma {:induction false} MembersMore(text: string, m: Member, more: string, ms: seq<Member>, rest: string)
    requires ParseMember(text) == Ok(m, "," + more) && ParseMembers(more) == Ok(ms, rest)
    ensures ParseMembers(text) == Ok([m] + ms, rest)
  {
    ExpectAt(',', more, '}');
    ExpectAt(',', more, ',');
  }

  /** The text of a list is the text of its first element and what is behind it. */
  lemma {:induction false} MembersSplit(members: seq<Member>, close: string) returns (behind: string)
    requires members != []
    ensures behind == if |members| == 1 then close else "," + (RenderMembers(members[1..]) + close)
    ensures RenderMembers(members) + close == RenderMember(members[0]) + behind
  {
    var texts := MemberTexts(members);
    assert texts[0] == RenderMember(members[0]) && texts[1..] == MemberTexts(members[1..]);
    behind := if |members| == 1 then close else "," + (RenderMembers(members[1..]) + close);
    if |members| > 1 {
      assert members[1..] != [] && |texts| > 1;
      ThreeParts(texts[0], RenderMembers(members[1..]), close);
    }
  }

  lemma {:induction false} MembersParse(members: seq<Member>, rest: string)
    requires members != [] && IsJson(Obj(members))
    ensures ParseMembers(RenderMembers(members) + ("}" + rest)) == Ok(members, rest)
    decreases members, 2
  {
    var close := "}" + rest;
    var behind := MembersSplit(members, close);
    MemberParses(members[0], behind);
    if |members| == 1 {
      MembersLast(RenderMember(members[0]) + behind, members[0], rest);
      assert members == [members[0]];
    } else {
      RestIsJson([], members);
      MembersParse(members[1..], rest);
      MembersMore(RenderMember(members[0]) + behind, members[0], RenderMembers(members[1..]) + close, members[1..], rest);
      assert members == [members[0]] + members[1..];
    }
  }

  lemma {:induction false} TextRoundTrip(v: Value)
    requires IsJson(v)
    ensures ParseText(Render(v)) == Ok(v, [])
  {
    RoundTrip(v, []);
    assert Render(v) + [] == Render(v);
  }

  // ----- rows do not parse -----

  /** Parsing failed, or stopped in front of something that can follow no value. */
  predicate Stuck<T>(r: Parsed<T>) {
    r.Ok? ==> r.rest != [] && !IsWhitespace(r.rest[0]) && r.rest[0] !in ",]}"
  }

  lemma {:induction false} StuckEnds(rest: string, c: char)
    requires rest != [] && !IsWhitespace(rest[0]) && rest[0] !in ",]}" && c in ",]}"
    ensures Expect(rest, c) == Fail
  {
    NoWhitespace(rest);
  }

  /** Whatever follows it, the text of a value with a row in it does not parse as a value. */
  lemma {:induction false} RowBreaks(v: Value, rest: string)
    requires !IsJson(v) && RowsEnd(v)
    ensures Stuck(ParseValue(Render(v) + rest))
    decreases v, 1
  {
    match v
    case Row(first, second) =>
      Assoc(Render(first), Render(second), rest);
      if IsJson(first) {
        RoundTrip(first, Render(second) + rest);
        RenderHead(second);
      } else {
        RowBreaks(first, Render(second) + rest);
      }
    case Arr(items) => ArrayBreaks(items, rest);
    case Obj(members) => ObjectBreaks(members, rest);
  }

  lemma {:induction false} ArrayBreaks(items: seq<Value>, rest: string)
    requires !IsJson(Arr(items)) && RowsEnd(Arr(items))
    ensures ParseValue("[" + RenderItems(items) + "]" + rest) == Fail
    decreases items, 2
  {
    var text := "[" + RenderItems(items) + "]" + rest;
    NoWhitespace(text);
    var inside := RenderItems(items) + ("]" + rest);
    assert text[1..] == inside;
    ItemsBreak(items, rest);
    assert ItemTexts(items)[0] == Render(items[0]);
    RenderHead(items[0]);
    CommasHead(ItemTexts(items));
    NoWhitespace(inside);
  }

  lemma {:induction false} ItemsBreak(items: seq<Value>, rest: string)
    requires !IsJson(Arr(items)) && RowsEnd(Arr(items))
    ensures ParseItems(RenderItems(items) + ("]" + rest)) == Fail
    decreases items, 1
  {
    var close := "]" + rest;
    var behind := ItemsSplit(items, close);
    if !IsJson(items[0]) {
      RowBreaks(items[0], behind);
      ItemsStuck(Render(items[0]) + behind);
    } else {
      OtherItem(items);
      ItemsBreak(items[1..], rest);
      RoundTrip(items[0], behind);
      ItemsFail(Render(items[0]) + behind, items[0], RenderItems(items[1..]) + close);
    }
  }

  lemma {:induction false} RestIsJson(items: seq<Value>, members: seq<Member>)
    ensures items != [] && IsJson(Arr(items)) ==> IsJson(Arr(items[1..]))
    ensures members != [] && IsJson(Obj(members)) ==> IsJson(Obj(members[1..]))
  {
  }

  lemma {:induction false} OtherItem(items: seq<Value>)
    requires !IsJson(Arr(items)) && RowsEnd(Arr(items)) && IsJson(items[0])
    ensures |items| > 1 && !IsJson(Arr(items[1..])) && RowsEnd(Arr(items[1..]))
  {
    var i :| 0 <= i < |items| && !IsJson(items[i]);
    assert items[1..][i - 1] == items[i];
  }

  lemma {:induction false} ItemsStuck(text: string)
    requires Stuck(ParseValue(text))
    ensures ParseItems(text) == Fail
  {
    var v := ParseValue(text);
    if v.Ok? {
      StuckEnds(v.rest, ']');
      StuckEnds(v.rest, ',');
    }
  }

  lemma {:induction false} ItemsFail(text: string, v: Value, more: string)
    requires ParseValue(text) == Ok(v, "," + more) && ParseItems(more) == Fail
    ensures ParseItems(text) == Fail
  {
    ExpectAt(',', more, ']');
    ExpectAt(',', more, ',');
  }

  lemma {:induction false} ObjectBreaks(members: seq<Member>, rest: string)
    requires !IsJson(Obj(members)) && RowsEnd(Obj(members))
    ensures ParseValue("{" + RenderMembers(members) + "}" + rest) == Fail
    decreases members, 3
  {
    var text := "{" + RenderMembers(members) + "}" + rest;
    NoWhitespace(text);
    var inside := RenderMembers(members) + ("}" + rest);
    assert text[1..] == inside;
    MembersBreak(members, rest);
    assert MemberTexts(members)[0] == RenderMember(members[0]);
    CommasHead(MemberTexts(members));
    assert inside[0] == '"';
    NoWhitespace(inside);
  }

  lemma {:induction false} MemberBreaks(m: Member, rest: string)
    requires !IsJson(m.value) && RowsEnd(m.value)
    ensures Stuck(ParseMember(RenderMember(m) + rest))
    decreases m, 1
  {
    RowBreaks(m.value, rest);
    MemberAt(m, rest);
  }

  lemma {:induction false} MembersBreak(members: seq<Member>, rest: string)
    requires !IsJson(Obj(members)) && RowsEnd(Obj(members))
    ensures ParseMembers(RenderMembers(members) + ("}" + rest)) == Fail
    decreases members, 2
  {
    var close := "}" + rest;
    var behind := MembersSplit(members, close);
    if !IsJson(members[0].value) {
      MemberBreaks(members[0], behind);
      MembersStuck(RenderMember(members[0]) + behind);
    } else {
      OtherMember(members);
      MembersBreak(members[1..], rest);
      MemberParses(members[0], behind);
      MembersFail(RenderMember(members[0]) + behind, members[0], RenderMembers(members[1..]) + close);
    }
  }

  lemma {:induction false} OtherMember(members: seq<Member>)
    requires !IsJson(Obj(members)) && RowsEnd(Obj(members)) && IsJson(members[0].value)
    ensures |members| > 1 && !IsJson(Obj(members[1..])) && RowsEnd(Obj(members[1..]))
  {
    var i :| 0 <= i < |members| && !IsJson(members[i].value);
    assert members[1..][i - 1] == members[i];
  }

  lemma {:induction false} MembersStuck(text: string)
    requires Stuck(ParseMember(text))
    ensures ParseMembers(text) == Fail
  {
    var m := ParseMember(text);
    if m.Ok? {
      StuckEnds(m.rest, '}');
      StuckEnds(m.rest, ',');
    }
  }

  lemma {:induction false} MembersFail(text: string, m: Member, more: string)
    requires ParseMember(text) == Ok(m, "," + more) && ParseMembers(more) == Fail
    ensures ParseMembers(text) == Fail
  {
    ExpectAt(',', more, '}');
    ExpectAt(',', more, ',');
  }

  lemma {:induction false} TextBreaks(v: Value)
    requires !IsJson(v) && RowsEnd(v)
    ensures ParseText(Render(v)) == Fail
  {
    RowBreaks(v, []);
    assert Render(v) + [] == Render(v);
    var r := ParseValue(Render(v));
    if r.Ok? {
      NoWhitespace(r.rest);
    }
  }
}
