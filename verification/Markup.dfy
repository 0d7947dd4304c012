/** A strict reader for the markup the document projection writes: tags with quoted
    attributes, the four escapes, and nothing else. It shares nothing with the writer. */
module Markup {
  import opened Prelude

  datatype Attribute = Attribute(key: string, value: string)

  datatype Token = Open(name: string, attrs: seq<Attribute>) | Close(name: string) | Char(c: char)

  predicate NameChar(c: char) {
    'a' <= c <= 'z' || '0' <= c <= '9'
  }

  predicate IsName(s: string) {
    s != "" && forall i :: 0 <= i < |s| ==> NameChar(s[i])
  }

  // ---- Reading -----------------------------------------------------------------------

  function TakeName(s: string): (n: nat)
    ensures n <= |s|
  {
    if s != "" && NameChar(s[0]) then 1 + TakeName(s[1..]) else 0
  }

  /** One character of text: itself, or one of the four escapes. */
  function ReadChar(s: string): (r: Option<(char, string)>)
    ensures r.Some? ==> |r.value.1| < |s|
  {
    if s == "" then None
    else if "&amp;" <= s then Some(('&', s[5..]))
    else if "&lt;" <= s then Some(('<', s[4..]))
    else if "&gt;" <= s then Some(('>', s[4..]))
    else if "&quot;" <= s then Some(('"', s[6..]))
    else if s[0] == '&' || s[0] == '<' || s[0] == '>' || s[0] == '"' then None
    else Some((s[0], s[1..]))
  }

  function ReadValue(s: string): (r: Option<(string, string)>)
    ensures r.Some? ==> |r.value.1| < |s|
    decreases |s|
  {
    if s != "" && s[0] == '"' then Some(("", s[1..]))
    else match ReadChar(s)
      case None => None
      case Some((c, rest)) =>
        match ReadValue(rest)
        case None => None
        case Some((value, end)) => Some(([c] + value, end))
  }

  function ReadAttributes(s: string): (r: Option<(seq<Attribute>, string)>)
    ensures r.Some? ==> |r.value.1| < |s|
    decreases |s|
  {
    if s == "" then None
    else if s[0] == '>' then Some(([], s[1..]))
    else if s[0] != ' ' then None
    else
      var n := TakeName(s[1..]);
      var rest := s[1 + n..];
      if n == 0 || !("=\"" <= rest) then None
      else match ReadValue(rest[2..])
        case None => None
        case Some((value, after)) =>
          match ReadAttributes(after)
          case None => None
          case Some((attrs, end)) => Some(([Attribute(s[1..1 + n], value)] + attrs, end))
  }

  function ReadToken(s: string): (r: Option<(Token, string)>)
    ensures r.Some? ==> |r.value.1| < |s|
  {
    if "</" <= s then
      var n := TakeName(s[2..]);
      var rest := s[2 + n..];
      if n == 0 || rest == "" || rest[0] != '>' then None else Some((Close(s[2..2 + n]), rest[1..]))
    else if s != "" && s[0] == '<' then
      var n := TakeName(s[1..]);
      if n == 0 then None
      else match ReadAttributes(s[1 + n..])
        case None => None
        case Some((attrs, rest)) => Some((Open(s[1..1 + n], attrs), rest))
    else match ReadChar(s)
      case None => None
      case Some((c, rest)) => Some((Char(c), rest))
  }

  function Lex(s: string): Option<seq<Token>>
    decreases |s|
  {
    if s == "" then Some([])
    else match ReadToken(s)
      case None => None
      case Some((t, rest)) =>
        match Lex(rest)
        case None => None
        case Some(ts) => Some([t] + ts)
  }

  // ---- Writing -----------------------------------------------------------------------

  function EscapeChar(c: char): string {
    match c
    case '&' => "&amp;"
    case '<' => "&lt;"
    case '>' => "&gt;"
    case '"' => "&quot;"
    case _ => [c]
  }

  function EscapeAll(s: string): string {
    if s == "" then "" else EscapeChar(s[0]) + EscapeAll(s[1..])
  }

  function WriteAttributes(attrs: seq<Attribute>): string {
    if attrs == [] then ""
    else " " + attrs[0].key + "=\"" + EscapeAll(attrs[0].value) + "\"" + WriteAttributes(attrs[1..])
  }

  function WriteToken(t: Token): string {
    match t
    case Open(name, attrs) => "<" + name + WriteAttributes(attrs) + ">"
    case Close(name) => "</" + name + ">"
    case Char(c) => EscapeChar(c)
  }

  function Write(ts: seq<Token>): string {
    if ts == [] then "" else WriteToken(ts[0]) + Write(ts[1..])
  }

  predicate Writable(t: Token) {
    match t
    case Open(name, attrs) => IsName(name) && forall i :: 0 <= i < |attrs| ==> IsName(attrs[i].key)
    case Close(name) => IsName(name)
    case Char(_) => true
  }

  // ---- Reading undoes writing ------------------------------------------------------------

  lemma {:induction false} TakeNameStops(name: string, rest: string)
    requires forall i :: 0 <= i < |name| ==> NameChar(name[i])
    requires rest != "" && !NameChar(rest[0])
    ensures TakeName(name + rest) == |name|
  {
    if name == "" {
      assert name + rest == rest;
    } else {
      assert (name + rest)[1..] == name[1..] + rest;
      TakeNameStops(name[1..], rest);
    }
  }

  lemma ReadCharEscaped(c: char, rest: string)
    ensures ReadChar(EscapeChar(c) + rest) == Some((c, rest))
    ensures (EscapeChar(c) + rest)[0] != '"' && (EscapeChar(c) + rest)[0] != '<'
  {
    var s := EscapeChar(c) + rest;
    assert EscapeChar(c) <= s && s[|EscapeChar(c)|..] == rest;
    match c
    case '&' => assert s[1] == 'a';
    case '<' => assert s[1] == 'l';
    case '>' => assert s[1] == 'g';
    case '"' => assert s[1] == 'q';
    case _ => assert s[0] == c;
  }

  lemma {:induction false} ReadValueEscaped(value: string, rest: string)
    ensures ReadValue(EscapeAll(value) + "\"" + rest) == Some((value, rest))
  {
    var s := EscapeAll(value) + "\"" + rest;
    if value == "" {
      assert s[1..] == rest;
    } else {
      var s' := EscapeAll(value[1..]) + "\"" + rest;
      ReadValueEscaped(value[1..], rest);
      ReadCharEscaped(value[0], s');
      assert s == EscapeChar(value[0]) + s';
      assert [value[0]] + value[1..] == value;
    }
  }

  lemma ReadOneAttribute(s: string, a: Attribute, more: string)
    requires IsName(a.key)
    requires s == " " + a.key + "=\"" + (EscapeAll(a.value) + "\"" + more)
    ensures s[0] == ' ' && TakeName(s[1..]) == |a.key| && s[1..1 + |a.key|] == a.key
    ensures "=\"" <= s[1 + |a.key|..]
    ensures ReadValue(s[1 + |a.key|..][2..]) == Some((a.value, more))
  {
    var tail := EscapeAll(a.value) + "\"" + more;
    var rest := "=\"" + tail;
    assert s == " " + a.key + rest;
    ReadKey(s, a.key, rest);
    assert rest[2..] == tail;
    ReadValueEscaped(a.value, more);
  }

  lemma ReadKey(s: string, key: string, rest: string)
    requires IsName(key) && rest != "" && !NameChar(rest[0]) && s == " " + key + rest
    ensures s[0] == ' ' && TakeName(s[1..]) == |key| && s[1..1 + |key|] == key && s[1 + |key|..] == rest
  {
    TakeNameStops(key, rest);
    assert s[1..] == key + rest;
  }

  lemma ReadAttributesStep(s: string, a: Attribute, more: string, attrs: seq<Attribute>, rest: string)
    requires IsName(a.key)
    requires s == " " + a.key + "=\"" + (EscapeAll(a.value) + "\"" + more)
    requires ReadAttributes(more) == Some((attrs, rest))
    ensures ReadAttributes(s) == Some(([a] + attrs, rest))
  {
    ReadOneAttribute(s, a, more);
  }

  lemma {:induction false} ReadAttributesWritten(attrs: seq<Attribute>, rest: string)
    requires forall i :: 0 <= i < |attrs| ==> IsName(attrs[i].key)
    ensures ReadAttributes(WriteAttributes(attrs) + ">" + rest) == Some((attrs, rest))
  {
    var s := WriteAttributes(attrs) + ">" + rest;
    if attrs == [] {
      assert s[1..] == rest;
    } else {
      var more := WriteAttributes(attrs[1..]) + ">" + rest;
      assert s == " " + attrs[0].key + "=\"" + (EscapeAll(attrs[0].value) + "\"" + more);
      ReadAttributesWritten(attrs[1..], rest);
      ReadAttributesStep(s, attrs[0], more, attrs[1..], rest);
      assert [attrs[0]] + attrs[1..] == attrs;
    }
  }

  lemma ReadTokenWritten(t: Token, rest: string)
    requires Writable(t)
    ensures ReadToken(WriteToken(t) + rest) == Some((t, rest))
  {
    match t
    case Open(name, attrs) =>
      var tail := WriteAttributes(attrs) + ">" + rest;
      var s := WriteToken(t) + rest;
      assert s == "<" + name + tail;
      assert s[1..] == name + tail;
      assert s[1] == name[0] != '/';
      TakeNameStops(name, tail);
      assert s[1 + |name|..] == tail;
      ReadAttributesWritten(attrs, rest);
      assert s[1..1 + |name|] == name;
    case Close(name) =>
      var s := WriteToken(t) + rest;
      assert s == "</" + name + (">" + rest);
      assert s[2..] == name + (">" + rest);
      TakeNameStops(name, ">" + rest);
      assert s[2 + |name|..] == ">" + rest;
      assert (">" + rest)[1..] == rest;
      assert s[2..2 + |name|] == name;
    case Char(c) =>
      ReadCharEscaped(c, rest);
  }

  predicate AllWritable(ts: seq<Token>) {
    forall i :: 0 <= i < |ts| ==> Writable(ts[i])
  }

  /** Reading back what was written gives the tokens that were written, so the text is
      unambiguous: nothing inside a value or a run can be taken for markup. */
  lemma {:induction false} LexWrite(ts: seq<Token>)
    requires AllWritable(ts)
    ensures Lex(Write(ts)) == Some(ts)
  {
    if ts != [] {
      ReadTokenWritten(ts[0], Write(ts[1..]));
      LexWrite(ts[1..]);
      assert [ts[0]] + ts[1..] == ts;
      WriteTokenNonEmpty(ts[0]);
    }
  }

  lemma WriteTokenNonEmpty(t: Token)
    ensures WriteToken(t) != ""
  {}

  lemma {:induction false} WriteAppend(a: seq<Token>, b: seq<Token>)
    ensures Write(a + b) == Write(a) + Write(b)
  {
    if a == [] {
      assert a + b == b;
    } else {
      assert (a + b)[1..] == a[1..] + b;
      WriteAppend(a[1..], b);
    }
  }

  // ---- Nesting and text --------------------------------------------------------------------

  predicate IsVoid(name: string) {
    name == "br" || name == "hr"
  }

  /** The stack of open tags after reading `ts`, or None when a closing tag closes
      something other than the innermost open tag. Void tags open nothing. */
  function Nest(ts: seq<Token>, stack: seq<string>): Option<seq<string>> {
    if ts == [] then Some(stack)
    else match ts[0]
      case Open(name, _) => Nest(ts[1..], if IsVoid(name) then stack else stack + [name])
      case Close(name) =>
        if stack != [] && stack[|stack| - 1] == name then Nest(ts[1..], stack[..|stack| - 1]) else None
      case Char(_) => Nest(ts[1..], stack)
  }

  lemma {:induction false} NestAppend(a: seq<Token>, b: seq<Token>, stack: seq<string>)
    ensures Nest(a + b, stack) == match Nest(a, stack) case None => None case Some(st) => Nest(b, st)
  {
    if a == [] {
      assert a + b == b;
    } else {
      assert (a + b)[1..] == a[1..] + b;
      match a[0]
      case Open(name, _) => NestAppend(a[1..], b, if IsVoid(name) then stack else stack + [name]);
      case Close(name) =>
        if stack != [] && stack[|stack| - 1] == name {
          NestAppend(a[1..], b, stack[..|stack| - 1]);
        }
      case Char(_) => NestAppend(a[1..], b, stack);
    }
  }

  /** The text a reader shows: the character tokens, tags dropped. */
  function Shown(ts: seq<Token>): string {
    if ts == [] then "" else (if ts[0].Char? then [ts[0].c] else "") + Shown(ts[1..])
  }

  lemma {:induction false} ShownAppend(a: seq<Token>, b: seq<Token>)
    ensures Shown(a + b) == Shown(a) + Shown(b)
  {
    if a == [] {
      assert a + b == b;
    } else {
      assert (a + b)[1..] == a[1..] + b;
      ShownAppend(a[1..], b);
    }
  }
}
