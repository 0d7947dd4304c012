/** The HTML an element of a document room is shown as (src/api/docprops.rs). The method
    builds strings exactly as the source does; the claims about them are made by reading
    the result back with the strict reader of `Markup`. */
module ElementHtml {
  import opened Prelude
  import opened Markup
  import opened Text

  const MIN_I64 := -0x8000_0000_0000_0000
  const MAX_I64 := 0x7FFF_FFFF_FFFF_FFFF
  const MAX_U64 := 0xFFFF_FFFF_FFFF_FFFF

  type I64 = x: int | MIN_I64 <= x <= MAX_I64

  datatype Float = Finite(value: real) | Infinite(positive: bool) | NotANumber

  datatype Any =
    | Null
    | Undefined
    | Bool(b: bool)
    | Number(n: Float)
    | BigInt(i: I64)
    | String(s: string)
    | Buffer
    | Array(items: seq<Any>)
    | Map(entries: map<string, Any>)

  datatype Run = Run(insert: string, marks: map<string, Any>)

  /** `resolved` is the text a section reference resolves to. */
  datatype Node =
    | Element(tag: string, resolved: string, attributes: map<string, Any>, children: seq<Node>)
    | Text(runs: seq<Run>)
    | Fragment

  // ---- Attribute values --------------------------------------------------------------

  function Truncated(r: real): int {
    if r < 0.0 then -(-r).Floor else r.Floor
  }

  function Clamp(x: int, low: int, high: int): int {
    if x < low then low else if x > high then high else x
  }

  /** A float cast to a 64-bit integer: toward zero, saturating, and zero for NaN. */
  function Cast(f: Float, low: int, high: int): (x: int)
    requires low <= 0 <= high
    ensures low <= x <= high
  {
    match f
    case Finite(r) => Clamp(Truncated(r), low, high)
    case Infinite(positive) => if positive then high else low
    case NotANumber => 0
  }

  predicate Digits(s: string) {
    s != "" && forall i :: 0 <= i < |s| ==> '0' <= s[i] <= '9'
  }

  function DigitsValue(s: string): int
    requires Digits(s)
  {
    var last := s[|s| - 1] as int - '0' as int;
    if |s| == 1 then last else 10 * DigitsValue(s[..|s| - 1]) + last
  }

  function ParseI64(s: string): Option<I64> {
    var signed := s != "" && (s[0] == '+' || s[0] == '-');
    var digits := if signed then s[1..] else s;
    if !Digits(digits) then None
    else
      var n := if signed && s[0] == '-' then -DigitsValue(digits) else DigitsValue(digits);
      if MIN_I64 <= n <= MAX_I64 then Some(n) else None
  }

  function AttrInt(attributes: map<string, Any>, key: string): Option<I64> {
    if key !in attributes then None
    else match attributes[key]
      case Number(n) => Some(Cast(n, MIN_I64, MAX_I64))
      case BigInt(n) => Some(n)
      case String(s) => ParseI64(s)
      case _ => None
  }

  function TagName(tag: string, attributes: map<string, Any>): string {
    if tag == "table" then "table"
    else if tag == "tableRow" then "tr"
    else if tag == "tableCell" then "td"
    else if tag == "tableHeader" then "th"
    else if tag == "paragraph" then "p"
    else if tag == "bulletList" then "ul"
    else if tag == "orderedList" then "ol"
    else if tag == "listItem" then "li"
    else if tag == "blockquote" then "blockquote"
    else if tag == "codeBlock" then "pre"
    else if tag == "hardBreak" then "br"
    else if tag == "horizontalRule" then "hr"
    else if tag == "heading" then HeadingName(match AttrInt(attributes, "level") case None => 1 case Some(n) => n)
    else "div"
  }

  function HeadingName(level: int): string {
    if level == 2 then "h2"
    else if level == 3 then "h3"
    else if level == 4 then "h4"
    else if level == 5 then "h5"
    else if level == 6 then "h6"
    else "h1"
  }

  // ---- What the output must read back as ---------------------------------------------

  function SpanAttribute(attributes: map<string, Any>, key: string): seq<Attribute> {
    match AttrInt(attributes, key)
    case Some(n) => if n > 0 then [Attribute(key, DecimalInt(n))] else []
    case None => []
  }

  predicate IsWidth(item: Any) {
    item.Number? && match item.n
                    case Finite(r) => r >= 0.0
                    case Infinite(positive) => positive
                    case NotANumber => false
  }

  function Width(item: Any): string
    requires IsWidth(item)
  {
    Decimal(Cast(item.n, 0, MAX_U64))
  }

  function Widths(items: seq<Any>): seq<string> {
    if items == [] then []
    else
      var item := items[|items| - 1];
      Widths(items[..|items| - 1]) + if IsWidth(item) then [Width(item)] else []
  }

  function ColwidthAttribute(attributes: map<string, Any>): seq<Attribute> {
    if "colwidth" in attributes && attributes["colwidth"].Array? && Widths(attributes["colwidth"].items) != []
    then [Attribute("colwidth", Join(Widths(attributes["colwidth"].items), ","))]
    else []
  }

  predicate IsAlignment(s: string) {
    s == "left" || s == "center" || s == "right"
  }

  function AlignAttribute(attributes: map<string, Any>): seq<Attribute> {
    if "align" in attributes && attributes["align"].String? && IsAlignment(attributes["align"].s)
    then [Attribute("align", attributes["align"].s)]
    else []
  }

  function StartAttribute(attributes: map<string, Any>): seq<Attribute> {
    match AttrInt(attributes, "start")
    case Some(n) => [Attribute("start", DecimalInt(n))]
    case None => []
  }

  function ElementAttributes(name: string, attributes: map<string, Any>): seq<Attribute> {
    if name == "td" || name == "th" then
      SpanAttribute(attributes, "colspan") + SpanAttribute(attributes, "rowspan")
      + ColwidthAttribute(attributes) + AlignAttribute(attributes)
    else if name == "ol" then StartAttribute(attributes)
    else []
  }

  function Chars(s: string): seq<Token> {
    if s == "" then [] else [Char(s[0])] + Chars(s[1..])
  }

  function Wrap(name: string, attrs: seq<Attribute>, inner: seq<Token>): seq<Token> {
    [Open(name, attrs)] + inner + [Close(name)]
  }

  const MARKS: seq<(string, string)> :=
    [("bold", "strong"), ("italic", "em"), ("strike", "s"), ("underline", "u"), ("code", "code")]

  predicate MarkOn(marks: map<string, Any>, key: string) {
    key in marks && !marks[key].Null? && marks[key] != Bool(false)
  }

  /** A run inside the first `k` of the marks it carries, the later ones outermost. */
  function Marked(inner: seq<Token>, marks: map<string, Any>, k: nat): seq<Token>
    requires k <= |MARKS|
  {
    if k == 0 then inner
    else
      var sofar := Marked(inner, marks, k - 1);
      if MarkOn(marks, MARKS[k - 1].0) then Wrap(MARKS[k - 1].1, [], sofar) else sofar
  }

  function LinkTarget(marks: map<string, Any>): Option<string> {
    if "link" in marks && marks["link"].Map? && "href" in marks["link"].entries
       && marks["link"].entries["href"].String?
    then Some(marks["link"].entries["href"].s)
    else None
  }

  function RunTokens(run: Run): seq<Token> {
    var marked := Marked(Chars(run.insert), run.marks, |MARKS|);
    match LinkTarget(run.marks)
    case Some(href) => Wrap("a", [Attribute("href", href)], marked)
    case None => marked
  }

  function RunsTokens(runs: seq<Run>): seq<Token> {
    if runs == [] then [] else RunsTokens(runs[..|runs| - 1]) + RunTokens(runs[|runs| - 1])
  }

  /** The tags and characters of a node, in order. */
  function Tokens(node: Node): seq<Token>
    decreases node
  {
    match node
    case Fragment => []
    case Text(runs) => RunsTokens(runs)
    case Element(tag, resolved, attributes, children) =>
      if tag == "sectionReference" then Wrap("span", [], Chars(resolved))
      else Enclose(TagName(tag, attributes), attributes, AllTokens(children))
  }

  function Enclose(name: string, attributes: map<string, Any>, body: seq<Token>): seq<Token> {
    if IsVoid(name) then [Open(name, [])]
    else if name == "pre" then Wrap("pre", [], Wrap("code", [], body))
    else Wrap(name, ElementAttributes(name, attributes), body)
  }

  function AllTokens(nodes: seq<Node>): seq<Token>
    decreases nodes
  {
    if nodes == [] then [] else AllTokens(nodes[..|nodes| - 1]) + Tokens(nodes[|nodes| - 1])
  }

  // ---- The claims --------------------------------------------------------------------------

  /** The text of a tree in document order, which knows nothing of tags: a section
      reference contributes the text it resolves to, a break or a rule nothing. */
  function TreeText(node: Node): string
    decreases node
  {
    match node
    case Fragment => ""
    case Text(runs) => RunsText(runs)
    case Element(tag, resolved, _, children) =>
      if tag == "sectionReference" then resolved
      else if tag == "hardBreak" || tag == "horizontalRule" then ""
      else AllText(children)
  }

  function AllText(nodes: seq<Node>): string
    decreases nodes
  {
    if nodes == [] then "" else AllText(nodes[..|nodes| - 1]) + TreeText(nodes[|nodes| - 1])
  }

  function RunsText(runs: seq<Run>): string {
    if runs == [] then "" else RunsText(runs[..|runs| - 1]) + runs[|runs| - 1].insert
  }

  predicate IsTag(name: string) {
    || name == "table" || name == "tr" || name == "td" || name == "th" || name == "p" || name == "ul"
    || name == "ol" || name == "li" || name == "blockquote" || name == "pre" || name == "br" || name == "hr"
    || name == "h1" || name == "h2" || name == "h3" || name == "h4" || name == "h5" || name == "h6"
    || name == "div" || name == "span" || IsMarkTag(name)
  }

  predicate IsMarkTag(name: string) {
    name == "strong" || name == "em" || name == "s" || name == "u" || name == "code" || name == "a"
  }

  /** What each attribute may be on, and what its value may be. */
  ghost predicate AttributeAllowed(name: string, a: Attribute) {
    if a.key == "href" then name == "a"
    else if a.key == "start" then name == "ol" && exists n: I64 :: a.value == DecimalInt(n)
    else
      && (name == "td" || name == "th")
      && if a.key == "align" then IsAlignment(a.value)
         else if a.key == "colwidth" then DigitsAndCommas(a.value)
         else (a.key == "colspan" || a.key == "rowspan") && exists n: I64 :: n > 0 && a.value == DecimalInt(n)
  }

  predicate DigitsAndCommas(s: string) {
    s != "" && forall i :: 0 <= i < |s| ==> s[i] == ',' || '0' <= s[i] <= '9'
  }

  ghost predicate Allowed(t: Token) {
    match t
    case Open(name, attrs) => IsTag(name) && forall i :: 0 <= i < |attrs| ==> AttributeAllowed(name, attrs[i])
    case Close(name) => IsTag(name)
    case Char(_) => true
  }

  ghost predicate AllAllowed(ts: seq<Token>) {
    forall i :: 0 <= i < |ts| ==> Allowed(ts[i])
  }

  ghost predicate Balanced(ts: seq<Token>) {
    forall stack: seq<string> :: Nest(ts, stack) == Some(stack)
  }

  /** Everything the projection promises of a stretch of tokens standing for `text`. */
  ghost predicate Shows(ts: seq<Token>, text: string) {
    AllAllowed(ts) && Balanced(ts) && Shown(ts) == text
  }

  lemma ShowsAppend(a: seq<Token>, x: string, b: seq<Token>, y: string)
    requires Shows(a, x) && Shows(b, y)
    ensures Shows(a + b, x + y)
  {
    ShownAppend(a, b);
    forall stack: seq<string> ensures Nest(a + b, stack) == Some(stack) {
      NestAppend(a, b, stack);
    }
  }

  lemma ShowsWrap(name: string, attrs: seq<Attribute>, inner: seq<Token>, text: string)
    requires Shows(inner, text) && Allowed(Open(name, attrs)) && !IsVoid(name)
    ensures Shows(Wrap(name, attrs, inner), text)
  {
    var whole := Wrap(name, attrs, inner);
    var tail := inner + [Close(name)];
    assert whole == [Open(name, attrs)] + tail && whole[1..] == tail;
    ShownAppend(inner, [Close(name)]);
    assert Shown(whole) == Shown(tail);
    forall stack: seq<string> ensures Nest(whole, stack) == Some(stack) {
      WrapNests(name, attrs, inner, stack);
    }
  }

  lemma WrapNests(name: string, attrs: seq<Attribute>, inner: seq<Token>, stack: seq<string>)
    requires Balanced(inner) && !IsVoid(name)
    ensures Nest(Wrap(name, attrs, inner), stack) == Some(stack)
  {
    var whole := Wrap(name, attrs, inner);
    var tail := inner + [Close(name)];
    var deeper := stack + [name];
    assert whole[0] == Open(name, attrs) && whole[1..] == tail;
    NestAppend(inner, [Close(name)], deeper);
    assert Nest(inner, deeper) == Some(deeper);
    assert deeper[..|deeper| - 1] == stack;
    assert Nest([Close(name)], deeper) == Nest([Close(name)][1..], stack);
  }

  lemma {:induction false} ShowsChars(s: string)
    ensures Shows(Chars(s), s)
  {
    if s != "" {
      ShowsChars(s[1..]);
      ShowsOneChar(s[0]);
      ShowsAppend([Char(s[0])], [s[0]], Chars(s[1..]), s[1..]);
      assert [s[0]] + s[1..] == s;
    }
  }

  lemma ShowsOneChar(c: char)
    ensures Shows([Char(c)], [c])
  {
    var one := [Char(c)];
    assert one[1..] == [];
    forall stack: seq<string> ensures Nest(one, stack) == Some(stack) {
      assert Nest(one, stack) == Nest(one[1..], stack);
    }
  }

  lemma {:induction false} ShowsMarked(inner: seq<Token>, text: string, marks: map<string, Any>, k: nat)
    requires k <= |MARKS| && Shows(inner, text)
    ensures Shows(Marked(inner, marks, k), text)
  {
    if k > 0 {
      ShowsMarked(inner, text, marks, k - 1);
      if MarkOn(marks, MARKS[k - 1].0) {
        ShowsWrap(MARKS[k - 1].1, [], Marked(inner, marks, k - 1), text);
      }
    }
  }

  lemma ShowsRun(run: Run)
    ensures Shows(RunTokens(run), run.insert)
  {
    ShowsChars(run.insert);
    var k := |MARKS|;
    ShowsMarked(Chars(run.insert), run.insert, run.marks, k);
    if LinkTarget(run.marks).Some? {
      ShowsWrap("a", [Attribute("href", LinkTarget(run.marks).value)],
                Marked(Chars(run.insert), run.marks, k), run.insert);
    }
  }

  lemma {:induction false} ShowsRuns(runs: seq<Run>)
    ensures Shows(RunsTokens(runs), RunsText(runs))
  {
    if runs != [] {
      var init, last := runs[..|runs| - 1], runs[|runs| - 1];
      ShowsRuns(init);
      ShowsRun(last);
      ShowsAppend(RunsTokens(init), RunsText(init), RunTokens(last), last.insert);
    }
  }

  lemma WidthDigits(item: Any)
    requires IsWidth(item)
    ensures Digits(Width(item))
  {}

  lemma {:induction false} WidthsDigits(items: seq<Any>)
    ensures forall i :: 0 <= i < |Widths(items)| ==> Digits(Widths(items)[i])
  {
    if items != [] {
      WidthsDigits(items[..|items| - 1]);
      if IsWidth(items[|items| - 1]) {
        WidthDigits(items[|items| - 1]);
      }
    }
  }

  lemma {:induction false} JoinedDigits(parts: seq<string>)
    requires parts != [] && forall i :: 0 <= i < |parts| ==> Digits(parts[i])
    ensures DigitsAndCommas(Join(parts, ","))
  {
    if |parts| > 1 {
      JoinedDigits(parts[1..]);
    }
  }

  lemma CellAttributesAllowed(name: string, attributes: map<string, Any>)
    requires name == "td" || name == "th"
    ensures forall a :: a in SpanAttribute(attributes, "colspan") ==> AttributeAllowed(name, a)
    ensures forall a :: a in SpanAttribute(attributes, "rowspan") ==> AttributeAllowed(name, a)
    ensures forall a :: a in ColwidthAttribute(attributes) ==> AttributeAllowed(name, a)
    ensures forall a :: a in AlignAttribute(attributes) ==> AttributeAllowed(name, a)
  {
    if ColwidthAttribute(attributes) != [] {
      WidthsDigits(attributes["colwidth"].items);
      JoinedDigits(Widths(attributes["colwidth"].items));
    }
  }

  lemma AttributesAllowed(name: string, attributes: map<string, Any>)
    requires IsTag(name)
    ensures Allowed(Open(name, ElementAttributes(name, attributes)))
  {
    var attrs := ElementAttributes(name, attributes);
    forall i | 0 <= i < |attrs| ensures AttributeAllowed(name, attrs[i]) {
      if name == "td" || name == "th" {
        CellAttributesAllowed(name, attributes);
        assert attrs[i] in attrs;
      }
    }
  }

  lemma ShowsEnclosed(name: string, attributes: map<string, Any>, body: seq<Token>, text: string)
    requires Shows(body, text) && IsTag(name)
    ensures Shows(Enclose(name, attributes, body), if IsVoid(name) then "" else text)
  {
    if IsVoid(name) {
      var one := [Open(name, [])];
      assert one[1..] == [];
      forall stack: seq<string> ensures Nest(one, stack) == Some(stack) {
        assert Nest(one, stack) == Nest(one[1..], stack);
      }
    } else if name == "pre" {
      ShowsWrap("code", [], body, text);
      ShowsWrap("pre", [], Wrap("code", [], body), text);
    } else {
      AttributesAllowed(name, attributes);
      ShowsWrap(name, ElementAttributes(name, attributes), body, text);
    }
  }

  lemma TagNameListed(tag: string, attributes: map<string, Any>)
    ensures IsTag(TagName(tag, attributes))
    ensures IsVoid(TagName(tag, attributes)) <==> tag == "hardBreak" || tag == "horizontalRule"
  {}

  /** For every element tree: the tokens come from the fixed list of tags, with only the
      attributes and values each may have, every closing tag closes the innermost open
      one, and the characters left when the tags are dropped are the tree's text. */
  lemma {:induction false} ShowsNode(node: Node)
    ensures Shows(Tokens(node), TreeText(node))
    decreases node
  {
    match node
    case Fragment =>
    case Text(runs) => ShowsRuns(runs);
    case Element(tag, resolved, attributes, children) =>
      if tag == "sectionReference" {
        ShowsChars(resolved);
        ShowsWrap("span", [], Chars(resolved), resolved);
      } else {
        ShowsNodes(children);
        TagNameListed(tag, attributes);
        ShowsEnclosed(TagName(tag, attributes), attributes, AllTokens(children), AllText(children));
      }
  }

  lemma {:induction false} ShowsNodes(nodes: seq<Node>)
    ensures Shows(AllTokens(nodes), AllText(nodes))
    decreases nodes
  {
    if nodes != [] {
      var init, last := nodes[..|nodes| - 1], nodes[|nodes| - 1];
      ShowsNodes(init);
      ShowsNode(last);
      ShowsAppend(AllTokens(init), AllText(init), Tokens(last), TreeText(last));
    }
  }

  lemma TagIsName(name: string)
    requires IsTag(name)
    ensures IsName(name)
  {}

  lemma AllowedIsWritable(t: Token)
    requires Allowed(t)
    ensures Writable(t)
  {
    match t
    case Open(name, attrs) => TagIsName(name);
    case Close(name) => TagIsName(name);
    case Char(_) =>
  }

  /** So the text of the projection reads back as exactly those tokens. */
  lemma ReadsBack(node: Node)
    ensures Lex(Write(Tokens(node))) == Some(Tokens(node))
  {
    var ts := Tokens(node);
    ShowsNode(node);
    forall i | 0 <= i < |ts| ensures Writable(ts[i]) {
      AllowedIsWritable(ts[i]);
    }
    LexWrite(ts);
  }

  // ---- What stands for what -------------------------------------------------------------------

  /** The stored names and the tags they are shown as; a heading's tag is told by its level. */
  const KINDS: seq<(string, string)> :=
    [("table", "table"), ("tableRow", "tr"), ("tableCell", "td"), ("tableHeader", "th"), ("paragraph", "p"),
     ("bulletList", "ul"), ("orderedList", "ol"), ("listItem", "li"), ("blockquote", "blockquote"),
     ("codeBlock", "pre"), ("hardBreak", "br"), ("horizontalRule", "hr")]

  predicate ShownAs(stored: string, tag: string) {
    exists i :: 0 <= i < |KINDS| && KINDS[i] == (stored, tag)
  }

  /** Each stored name has its own tag, and a name that is not listed is a plain `div`. */
  lemma TagsStandFor(stored: string, tag: string, attributes: map<string, Any>)
    requires stored != "heading"
    ensures ShownAs(stored, tag) ==> TagName(stored, attributes) == tag
    ensures (forall i :: 0 <= i < |KINDS| ==> KINDS[i].0 != stored) ==> TagName(stored, attributes) == "div"
  {
    assert KINDS[0].0 == "table" && KINDS[1].0 == "tableRow" && KINDS[2].0 == "tableCell" && KINDS[3].0 == "tableHeader";
    assert KINDS[4].0 == "paragraph" && KINDS[5].0 == "bulletList" && KINDS[6].0 == "orderedList";
    assert KINDS[7].0 == "listItem" && KINDS[8].0 == "blockquote" && KINDS[9].0 == "codeBlock";
    assert KINDS[10].0 == "hardBreak" && KINDS[11].0 == "horizontalRule";
  }

  /** A heading of level two to six keeps its level, and any other is a top one. */
  lemma HeadingKeepsLevel(attributes: map<string, Any>, level: Option<I64>)
    requires level == AttrInt(attributes, "level")
    ensures TagName("heading", attributes)
         == "h" + if level.Some? && 2 <= level.value <= 6 then Decimal(level.value) else "1"
  {
    DecimalDigit(2);
    DecimalDigit(3);
    DecimalDigit(4);
    DecimalDigit(5);
    DecimalDigit(6);
  }

  lemma DecimalDigit(n: nat)
    requires n < 10
    ensures Decimal(n) == [('0' as int + n) as char]
  {
  }

  predicate IsMark(key: string, tag: string) {
    || (key == "bold" && tag == "strong") || (key == "italic" && tag == "em") || (key == "strike" && tag == "s")
    || (key == "underline" && tag == "u") || (key == "code" && tag == "code")
  }

  predicate Unmarked(marks: map<string, Any>, key: string) {
    key in marks ==> marks[key] == Null || marks[key] == Bool(false)
  }

  predicate Plain(marks: map<string, Any>, except: string) {
    && (except == "bold" || Unmarked(marks, "bold"))
    && (except == "italic" || Unmarked(marks, "italic"))
    && (except == "strike" || Unmarked(marks, "strike"))
    && (except == "underline" || Unmarked(marks, "underline"))
    && (except == "code" || Unmarked(marks, "code"))
  }

  predicate NoLink(marks: map<string, Any>) {
    "link" in marks ==> !marks["link"].Map? || "href" !in marks["link"].entries || !marks["link"].entries["href"].String?
  }

  lemma MarkedStep(inner: seq<Token>, marks: map<string, Any>, k: nat)
    requires k < |MARKS|
    ensures Marked(inner, marks, k + 1)
         == if Unmarked(marks, MARKS[k].0) then Marked(inner, marks, k)
            else Wrap(MARKS[k].1, [], Marked(inner, marks, k))
  {
  }

  lemma MarkedAll(inner: seq<Token>, marks: map<string, Any>)
    ensures var b := if Unmarked(marks, "bold") then inner else Wrap("strong", [], inner);
            var i := if Unmarked(marks, "italic") then b else Wrap("em", [], b);
            var s := if Unmarked(marks, "strike") then i else Wrap("s", [], i);
            var u := if Unmarked(marks, "underline") then s else Wrap("u", [], s);
            Marked(inner, marks, |MARKS|) == if Unmarked(marks, "code") then u else Wrap("code", [], u)
  {
    MarkedStep(inner, marks, 0);
    MarkedStep(inner, marks, 1);
    MarkedStep(inner, marks, 2);
    MarkedStep(inner, marks, 3);
    MarkedStep(inner, marks, 4);
    assert Marked(inner, marks, 0) == inner;
  }

  /** A run without marks is its text, and one mark puts its own tag around it. */
  lemma OneMark(run: Run, key: string, tag: string)
    requires Plain(run.marks, key) && NoLink(run.marks)
    ensures Unmarked(run.marks, key) ==> RunTokens(run) == Chars(run.insert)
    ensures IsMark(key, tag) && !Unmarked(run.marks, key) ==> RunTokens(run) == Wrap(tag, [], Chars(run.insert))
  {
    MarkedAll(Chars(run.insert), run.marks);
  }

  /** With every mark and a link: bold innermost, then italic, strike, underline and code,
      and the link outside them all. */
  lemma EveryMark(run: Run, href: string)
    requires forall key, tag :: IsMark(key, tag) ==> !Unmarked(run.marks, key)
    requires "link" in run.marks && run.marks["link"].Map? && "href" in run.marks["link"].entries
    requires run.marks["link"].entries["href"] == String(href)
    ensures RunTokens(run)
         == Wrap("a", [Attribute("href", href)],
                 Wrap("code", [], Wrap("u", [], Wrap("s", [], Wrap("em", [], Wrap("strong", [], Chars(run.insert)))))))
  {
    AllOn(run.marks);
    MarkedAll(Chars(run.insert), run.marks);
  }

  lemma AllOn(marks: map<string, Any>)
    requires forall key, tag :: IsMark(key, tag) ==> !Unmarked(marks, key)
    ensures !Unmarked(marks, "bold") && !Unmarked(marks, "italic") && !Unmarked(marks, "strike")
    ensures !Unmarked(marks, "underline") && !Unmarked(marks, "code")
  {
    assert IsMark("bold", "strong") && IsMark("italic", "em") && IsMark("strike", "s");
    assert IsMark("underline", "u") && IsMark("code", "code");
  }

  /** Children keep their order, and each stands for what it stands for alone. */
  lemma {:induction false} AllTokensAppend(a: seq<Node>, b: seq<Node>)
    ensures AllTokens(a + b) == AllTokens(a) + AllTokens(b)
    decreases b
  {
    if b == [] {
      assert a + b == a;
    } else {
      var init, last := b[..|b| - 1], b[|b| - 1];
      AllTokensAppend(a, init);
      AllTokensSnoc(init, last, b);
      assert a + b == a + init + [last];
      AllTokensSnoc(a + init, last, a + b);
      Regrouped(AllTokens(a), AllTokens(init), Tokens(last), AllTokens(a + init), AllTokens(b), AllTokens(a + b));
    }
  }

  lemma AllTokensSnoc(nodes: seq<Node>, last: Node, all: seq<Node>)
    requires all == nodes + [last]
    ensures AllTokens(all) == AllTokens(nodes) + Tokens(last)
  {
    assert all[..|nodes|] == nodes;
  }

  lemma Regrouped(a: seq<Token>, b: seq<Token>, c: seq<Token>, ab: seq<Token>, bc: seq<Token>, all: seq<Token>)
    requires ab == a + b && bc == b + c && all == ab + c
    ensures all == a + bc
  {
  }

  lemma AllTokensOne(node: Node)
    ensures AllTokens([node]) == Tokens(node)
  {
    assert [node][..0] == [];
  }

  /** What each kind of element is written as: a section reference as its resolved text in a
      span, a break or a rule as one tag without content, a code block as code inside pre
      without attributes, and any other as its tag and attributes around its children. */
  lemma ElementShape(node: Node)
    requires node.Element?
    ensures Tokens(node)
         == if node.tag == "sectionReference" then Wrap("span", [], Chars(node.resolved))
            else if node.tag == "hardBreak" then [Open("br", [])]
            else if node.tag == "horizontalRule" then [Open("hr", [])]
            else if node.tag == "codeBlock" then Wrap("pre", [], Wrap("code", [], AllTokens(node.children)))
            else Wrap(TagName(node.tag, node.attributes),
                      ElementAttributes(TagName(node.tag, node.attributes), node.attributes), AllTokens(node.children))
  {
    TagNameListed(node.tag, node.attributes);
    OnlyCodeIsPre(node.tag, node.attributes);
  }

  lemma OnlyCodeIsPre(tag: string, attributes: map<string, Any>)
    ensures TagName(tag, attributes) == "pre" <==> tag == "codeBlock"
    ensures TagName("hardBreak", attributes) == "br" && TagName("horizontalRule", attributes) == "hr"
  {
  }

  // ---- Numbers ------------------------------------------------------------------------------------

  /** A cast drops what is behind the point, and stops at the ends of the range. */
  lemma CastTruncates(f: Float, low: int, high: int)
    requires low <= 0 <= high
    ensures f.NotANumber? ==> Cast(f, low, high) == 0
    ensures f.Infinite? ==> Cast(f, low, high) == if f.positive then high else low
    ensures f.Finite? && f.value > high as real ==> Cast(f, low, high) == high
    ensures f.Finite? && f.value < low as real ==> Cast(f, low, high) == low
    ensures f.Finite? && 0.0 <= f.value <= high as real ==>
              Cast(f, low, high) as real <= f.value < Cast(f, low, high) as real + 1.0
    ensures f.Finite? && low as real <= f.value <= 0.0 ==>
              Cast(f, low, high) as real - 1.0 < f.value <= Cast(f, low, high) as real
  {
  }

  lemma {:induction false} DecimalRead(n: nat)
    ensures Digits(Decimal(n)) && DigitsValue(Decimal(n)) == n
  {
    var s := Decimal(n);
    if n >= 10 {
      DecimalRead(n / 10);
      assert s[..|s| - 1] == Decimal(n / 10);
    }
  }

  /** Digits that say `n`: any zeros, then its decimal. */
  ghost predicate SpellsNat(s: string, n: nat) {
    exists k :: 0 <= k <= |s| && s[k..] == Decimal(n) && forall i :: 0 <= i < k ==> s[i] == '0'
  }

  lemma {:induction false} DigitsSpell(s: string)
    requires Digits(s)
    ensures DigitsValue(s) >= 0 && SpellsNat(s, DigitsValue(s))
  {
    var init, last := s[..|s| - 1], s[|s| - 1] as int - '0' as int;
    if init == "" {
      assert s[0..] == Decimal(last);
    } else {
      DigitsSpell(init);
      SpellsMore(init, s, DigitsValue(init), last);
    }
  }

  lemma SpellsMore(init: string, s: string, n: nat, last: nat)
    requires s != "" && init == s[..|s| - 1] && last < 10 && s[|s| - 1] == ('0' as int + last) as char
    requires init != "" && SpellsNat(init, n)
    ensures SpellsNat(s, 10 * n + last)
  {
    var k :| 0 <= k <= |init| && init[k..] == Decimal(n) && forall i :: 0 <= i < k ==> init[i] == '0';
    assert s[k..|s| - 1] == init[k..];
    DigitMore(s, k, n, last);
  }

  lemma DigitMore(s: string, k: nat, n: nat, last: nat)
    requires k < |s| && last < 10 && s[|s| - 1] == ('0' as int + last) as char
    requires s[k..|s| - 1] == Decimal(n) && forall i :: 0 <= i < k ==> s[i] == '0'
    ensures SpellsNat(s, 10 * n + last)
  {
    assert s[k..] == s[k..|s| - 1] + [s[|s| - 1]];
    if n == 0 {
      assert s[|s| - 1..] == Decimal(last);
      assert forall i :: 0 <= i < |s| - 1 ==> s[i] == '0' by {
        assert forall i :: k <= i < |s| - 1 ==> s[i] == s[k..|s| - 1][i - k];
      }
    } else {
      assert (10 * n + last) / 10 == n && (10 * n + last) % 10 == last;
      assert s[k..] == Decimal(10 * n + last);
    }
  }

  lemma {:induction false} SpelledDigits(s: string, k: nat, n: nat)
    requires k <= |s| && s[k..] == Decimal(n) && forall i :: 0 <= i < k ==> s[i] == '0'
    ensures Digits(s) && DigitsValue(s) == n
    decreases n, k
  {
    assert forall i :: k <= i < |s| ==> s[i] == s[k..][i - k];
    DecimalRead(n);
    if k == 0 {
      assert s[0..] == s;
    } else {
      assert s[..|s| - 1][k..] == s[k..][..|s[k..]| - 1];
      if n >= 10 {
        SpelledDigits(s[..|s| - 1], k, n / 10);
      } else {
        assert s[..|s| - 1][k - 1..] == Decimal(0);
        SpelledDigits(s[..|s| - 1], k - 1, 0);
      }
    }
  }

  /** Text is taken for a number exactly when it is digits that say it behind at most one
      sign, and the number fits 64 bits. */
  lemma ParseExactly(s: string, n: int)
    ensures ParseI64(s) == Some(n)
       <==> && -0x8000_0000_0000_0000 <= n <= 0x7FFF_FFFF_FFFF_FFFF
            && ((n >= 0 && SpellsNat(s, n))
                || (n >= 0 && s != "" && s[0] == '+' && SpellsNat(s[1..], n))
                || (n <= 0 && s != "" && s[0] == '-' && SpellsNat(s[1..], -n)))
  {
    SpellsOne(s);
    if s != "" {
      SpellsOne(s[1..]);
    }
  }

  lemma SpellsOne(s: string)
    ensures Digits(s) ==> DigitsValue(s) >= 0
    ensures forall n: nat :: SpellsNat(s, n) <==> Digits(s) && DigitsValue(s) == n
  {
    forall n: nat ensures SpellsNat(s, n) <==> Digits(s) && DigitsValue(s) == n {
      if SpellsNat(s, n) {
        var k :| 0 <= k <= |s| && s[k..] == Decimal(n) && forall i :: 0 <= i < k ==> s[i] == '0';
        SpelledDigits(s, k, n);
      }
      if Digits(s) {
        DigitsSpell(s);
      }
    }
    if Digits(s) {
      DigitsSpell(s);
    }
  }

  /** A number written in decimal is read back, so an attribute given as text is taken for
      the number it spells. */
  lemma ParseReadsDecimal(n: I64)
    ensures ParseI64(DecimalInt(n)) == Some(n)
  {
    var size: int := if n < 0 then 0 - n else n;
    DecimalRead(size);
    if n < 0 {
      assert DecimalInt(n)[1..] == Decimal(size);
    }
  }

  /** An attribute is the same number whether it is stored as a whole float, as an integer or
      as text, and any other kind of value is none. */
  lemma NumbersAreRead(attributes: map<string, Any>, key: string, n: I64)
    requires key in attributes
    ensures attributes[key] == BigInt(n) ==> AttrInt(attributes, key) == Some(n)
    ensures attributes[key] == Number(Finite(n as real)) ==> AttrInt(attributes, key) == Some(n)
    ensures attributes[key] == String(DecimalInt(n)) ==> AttrInt(attributes, key) == Some(n)
    ensures !attributes[key].BigInt? && !attributes[key].Number? && !attributes[key].String?
            ==> AttrInt(attributes, key).None?
  {
    ParseReadsDecimal(n);
    CastTruncates(Finite(n as real), MIN_I64, MAX_I64);
  }

  /** A float is cut to a whole number of 64 bits. */
  lemma FloatsAreCut(attributes: map<string, Any>, key: string)
    requires key in attributes && attributes[key].Number?
    ensures AttrInt(attributes, key) == Some(Cast(attributes[key].n, -0x8000_0000_0000_0000, 0x7FFF_FFFF_FFFF_FFFF))
  {
  }

  /** The attributes a cell keeps, each exactly when its stored value is usable. */
  lemma CellKeeps(attributes: map<string, Any>, key: string, n: I64)
    requires key == "colspan" || key == "rowspan"
    requires key in attributes && attributes[key] == BigInt(n)
    ensures Attribute(key, DecimalInt(n)) in ElementAttributes("td", attributes) <==> n > 0
    ensures ElementAttributes("td", attributes) == ElementAttributes("th", attributes)
  {
    assert "colspan" != "rowspan" && "colspan" != "align" && "colspan" != "colwidth";
    assert "rowspan" != "align" && "rowspan" != "colwidth";
    SpanOnly(attributes, key, n);
  }

  lemma SpanOnly(attributes: map<string, Any>, key: string, n: I64)
    requires key in attributes && attributes[key] == BigInt(n)
    ensures SpanAttribute(attributes, key) == if n > 0 then [Attribute(key, DecimalInt(n))] else []
  {
  }

  lemma CellAligned(attributes: map<string, Any>, align: string)
    requires "align" in attributes && attributes["align"] == String(align)
    ensures Attribute("align", align) in ElementAttributes("td", attributes)
       <==> align == "left" || align == "center" || align == "right"
  {
    assert "align" != "colspan" && "align" != "rowspan" && "align" != "colwidth";
  }

  lemma CellWidths(attributes: map<string, Any>, items: seq<Any>)
    requires "colwidth" in attributes && attributes["colwidth"] == Array(items)
    ensures Attribute("colwidth", Join(Widths(items), ",")) in ElementAttributes("td", attributes) <==> Widths(items) != []
  {
    assert "colwidth" != "colspan" && "colwidth" != "rowspan" && "colwidth" != "align";
  }

  lemma ListStarts(attributes: map<string, Any>, n: I64)
    requires "start" in attributes && attributes["start"] == BigInt(n)
    ensures ElementAttributes("ol", attributes) == [Attribute("start", DecimalInt(n))]
    ensures ElementAttributes("ul", attributes) == []
  {
  }

  /** Widths are kept one by one, in order: the numbers from zero on, cut to whole pixels. */
  lemma {:induction false} WidthsAppend(a: seq<Any>, b: seq<Any>)
    ensures Widths(a + b) == Widths(a) + Widths(b)
  {
    if b == [] {
      assert a + b == a;
    } else {
      assert (a + b)[..|a + b| - 1] == a + b[..|b| - 1];
      WidthsAppend(a, b[..|b| - 1]);
    }
  }

  lemma WidthsOne(item: Any)
    ensures item.Number? && (item.n == Infinite(true) || (item.n.Finite? && item.n.value > 0xFFFF_FFFF_FFFF_FFFF as real))
            ==> Widths([item]) == [Decimal(0xFFFF_FFFF_FFFF_FFFF)]
    ensures item.Number? && item.n.Finite? && 0.0 <= item.n.value <= 0xFFFF_FFFF_FFFF_FFFF as real ==>
              Widths([item]) == [Decimal(item.n.value.Floor)]
    ensures !item.Number? || item.n.NotANumber? || item.n == Infinite(false) || (item.n.Finite? && item.n.value < 0.0)
            ==> Widths([item]) == []
  {
    assert [item][..0] == [];
    assert Widths([item][..0]) == [];
  }

  // ---- Escaping -----------------------------------------------------------------------------

  function Replace(s: string, c: char, with: string): string {
    if s == "" then "" else (if s[0] == c then with else [s[0]]) + Replace(s[1..], c, with)
  }

  function EscapeHtml(text: string): string {
    Replace(Replace(Replace(Replace(text, '&', "&amp;"), '<', "&lt;"), '>', "&gt;"), '"', "&quot;")
  }

  lemma {:induction false} ReplaceAppend(a: string, b: string, c: char, with: string)
    ensures Replace(a + b, c, with) == Replace(a, c, with) + Replace(b, c, with)
  {
    if a == "" {
      assert a + b == b;
    } else {
      assert (a + b)[1..] == a[1..] + b;
      ReplaceAppend(a[1..], b, c, with);
    }
  }

  lemma {:induction false} ReplaceAbsent(s: string, c: char, with: string)
    requires c !in s
    ensures Replace(s, c, with) == s
  {
    if s != "" {
      ReplaceAbsent(s[1..], c, with);
      assert [s[0]] + s[1..] == s;
    }
  }

  lemma EscapeHtmlAppend(a: string, b: string)
    ensures EscapeHtml(a + b) == EscapeHtml(a) + EscapeHtml(b)
  {
    ReplaceAppend(a, b, '&', "&amp;");
    var a1, b1 := Replace(a, '&', "&amp;"), Replace(b, '&', "&amp;");
    ReplaceAppend(a1, b1, '<', "&lt;");
    var a2, b2 := Replace(a1, '<', "&lt;"), Replace(b1, '<', "&lt;");
    ReplaceAppend(a2, b2, '>', "&gt;");
    var a3, b3 := Replace(a2, '>', "&gt;"), Replace(b2, '>', "&gt;");
    ReplaceAppend(a3, b3, '"', "&quot;");
  }

  lemma ReplaceOne(s: string, c: char, with: string)
    requires |s| == 1
    ensures Replace(s, c, with) == if s[0] == c then with else s
  {
    assert s[1..] == "" && [s[0]] == s;
    assert Replace(s[1..], c, with) == "";
  }

  lemma LaterPasses(t: string)
    requires '>' !in t && '"' !in t
    ensures Replace(Replace(t, '>', "&gt;"), '"', "&quot;") == t
    ensures '<' !in t ==> Replace(t, '<', "&lt;") == t
  {
    ReplaceAbsent(t, '>', "&gt;");
    ReplaceAbsent(t, '"', "&quot;");
    if '<' !in t {
      ReplaceAbsent(t, '<', "&lt;");
    }
  }

  lemma EscapeHtmlOne(s: string)
    requires |s| == 1
    ensures EscapeHtml(s) == EscapeChar(s[0])
  {
    ReplaceOne(s, '&', "&amp;");
    if s[0] == '&' {
      LaterPasses("&amp;");
    } else {
      ReplaceOne(s, '<', "&lt;");
      if s[0] == '<' {
        LaterPasses("&lt;");
      } else {
        ReplaceOne(s, '>', "&gt;");
        if s[0] == '>' {
          ReplaceAbsent("&gt;", '"', "&quot;");
        } else {
          ReplaceOne(s, '"', "&quot;");
        }
      }
    }
  }

  /** The four replacements in the source's order amount to one pass over the characters:
      the ampersands the later ones introduce are not escaped again. */
  lemma {:induction false} EscapeIsCharwise(s: string)
    ensures EscapeHtml(s) == EscapeAll(s)
  {
    if s != "" {
      EscapeIsCharwise(s[1..]);
      assert s == s[..1] + s[1..];
      EscapeHtmlAppend(s[..1], s[1..]);
      EscapeHtmlOne(s[..1]);
    }
  }

  // ---- The method the source runs ---------------------------------------------------------------

  lemma {:induction false} EscapePlain(s: string)
    requires forall i :: 0 <= i < |s| ==> s[i] != '&' && s[i] != '<' && s[i] != '>' && s[i] != '"'
    ensures EscapeAll(s) == s
  {
    if s != "" {
      EscapePlain(s[1..]);
      assert [s[0]] + s[1..] == s;
    }
  }

  /** ` key="value"`, as the source formats an attribute. */
  function Quoted(key: string, value: string): string {
    " " + key + "=\"" + value + "\""
  }

  /** An opening tag, what it encloses and its closing tag. */
  function Tagged(name: string, attrs: string, body: string): string {
    ("<" + name + attrs + ">") + body + ("</" + name + ">")
  }

  lemma WriteOne(key: string, value: string)
    requires forall i :: 0 <= i < |value| ==> value[i] != '&' && value[i] != '<' && value[i] != '>' && value[i] != '"'
    ensures WriteAttributes([Attribute(key, value)]) == Quoted(key, value)
  {
    EscapePlain(value);
    var one := [Attribute(key, value)];
    assert one[1..] == [];
  }

  lemma {:induction false} WriteAttributesAppend(a: seq<Attribute>, b: seq<Attribute>)
    ensures WriteAttributes(a + b) == WriteAttributes(a) + WriteAttributes(b)
  {
    if a == [] {
      assert a + b == b;
    } else {
      assert (a + b)[1..] == a[1..] + b;
      WriteAttributesAppend(a[1..], b);
    }
  }

  lemma WriteWrap(name: string, attrs: seq<Attribute>, inner: seq<Token>)
    ensures Write(Wrap(name, attrs, inner))
         == Tagged(name, WriteAttributes(attrs), Write(inner))
  {
    var whole := Wrap(name, attrs, inner);
    var tail := inner + [Close(name)];
    assert whole[0] == Open(name, attrs) && whole[1..] == tail;
    WriteAppend(inner, [Close(name)]);
    WriteSingle(Close(name));
    var opening, closing := WriteToken(Open(name, attrs)), WriteToken(Close(name));
    assert opening + (Write(inner) + closing) == opening + Write(inner) + closing;
  }

  lemma WriteSingle(t: Token)
    ensures Write([t]) == WriteToken(t)
  {
    var one := [t];
    assert one[1..] == [];
  }

  lemma {:induction false} WriteChars(s: string)
    ensures Write(Chars(s)) == EscapeAll(s)
  {
    if s != "" {
      WriteChars(s[1..]);
      assert Chars(s)[1..] == Chars(s[1..]);
    }
  }

  method SpanAttributes(attributes: map<string, Any>) returns (attrs: string)
    ensures attrs == WriteAttributes(SpanAttribute(attributes, "colspan") + SpanAttribute(attributes, "rowspan"))
  {
    var keys := ["colspan", "rowspan"];
    attrs := "";
    for k := 0 to |keys|
      invariant k == 0 ==> attrs == ""
      invariant k == 1 ==> attrs == WriteAttributes(SpanAttribute(attributes, "colspan"))
      invariant k == 2 ==>
        attrs == WriteAttributes(SpanAttribute(attributes, "colspan"))
                 + WriteAttributes(SpanAttribute(attributes, "rowspan"))
    {
      var n := AttrInt(attributes, keys[k]);
      if n.Some? && n.value > 0 {
        WriteOne(keys[k], DecimalInt(n.value));
        attrs := attrs + Quoted(keys[k], DecimalInt(n.value));
      }
    }
    WriteAttributesAppend(SpanAttribute(attributes, "colspan"), SpanAttribute(attributes, "rowspan"));
  }

  method CollectWidths(items: seq<Any>) returns (widths: seq<string>)
    ensures widths == Widths(items)
  {
    widths := [];
    for i := 0 to |items|
      invariant widths == Widths(items[..i])
    {
      assert items[..i + 1][..i] == items[..i];
      if IsWidth(items[i]) {
        widths := widths + [Width(items[i])];
      }
    }
    assert items[..|items|] == items;
  }

  method RenderColwidth(attributes: map<string, Any>) returns (attrs: string)
    ensures attrs == WriteAttributes(ColwidthAttribute(attributes))
  {
    attrs := "";
    if "colwidth" in attributes && attributes["colwidth"].Array? {
      var widths := CollectWidths(attributes["colwidth"].items);
      if widths != [] {
        PlainWidths(attributes["colwidth"].items);
        WriteOne("colwidth", Join(widths, ","));
        attrs := Quoted("colwidth", Join(widths, ","));
      }
    }
  }

  method RenderAlign(attributes: map<string, Any>) returns (attrs: string)
    ensures attrs == WriteAttributes(AlignAttribute(attributes))
  {
    attrs := "";
    if "align" in attributes && attributes["align"].String? && IsAlignment(attributes["align"].s) {
      WriteOne("align", attributes["align"].s);
      attrs := Quoted("align", attributes["align"].s);
    }
  }

  lemma PlainWidths(items: seq<Any>)
    requires Widths(items) != []
    ensures DigitsAndCommas(Join(Widths(items), ","))
  {
    WidthsDigits(items);
    JoinedDigits(Widths(items));
  }

  method RenderAttributes(name: string, attributes: map<string, Any>) returns (attrs: string)
    ensures attrs == WriteAttributes(ElementAttributes(name, attributes))
  {
    attrs := "";
    if name == "td" || name == "th" {
      var spans := SpanAttributes(attributes);
      var colwidth := RenderColwidth(attributes);
      var align := RenderAlign(attributes);
      ghost var sofar := SpanAttribute(attributes, "colspan") + SpanAttribute(attributes, "rowspan");
      WriteAttributesAppend(sofar, ColwidthAttribute(attributes));
      WriteAttributesAppend(sofar + ColwidthAttribute(attributes), AlignAttribute(attributes));
      attrs := spans + colwidth + align;
    }
    if name == "ol" {
      var n := AttrInt(attributes, "start");
      if n.Some? {
        WriteOne("start", DecimalInt(n.value));
        attrs := Quoted("start", DecimalInt(n.value));
      }
    }
  }

  method RenderRun(run: Run) returns (part: string)
    ensures part == Write(RunTokens(run))
  {
    part := EscapeHtml(run.insert);
    EscapeIsCharwise(run.insert);
    WriteChars(run.insert);
    ghost var inner := Chars(run.insert);
    for k := 0 to |MARKS|
      invariant part == Write(Marked(inner, run.marks, k))
    {
      if MarkOn(run.marks, MARKS[k].0) {
        WriteWrap(MARKS[k].1, [], Marked(inner, run.marks, k));
        part := Tagged(MARKS[k].1, "", part);
      }
    }
    var link := LinkTarget(run.marks);
    if link.Some? {
      EscapeIsCharwise(link.value);
      WriteWrap("a", [Attribute("href", link.value)], Marked(inner, run.marks, |MARKS|));
      WriteHref(link.value);
      part := Tagged("a", Quoted("href", EscapeHtml(link.value)), part);
    }
  }

  lemma WriteHref(href: string)
    ensures WriteAttributes([Attribute("href", href)]) == Quoted("href", EscapeAll(href))
  {
    var one := [Attribute("href", href)];
    assert one[1..] == [];
  }

  method RenderRuns(runs: seq<Run>) returns (body: string)
    ensures body == Write(RunsTokens(runs))
  {
    body := "";
    for i := 0 to |runs|
      invariant body == Write(RunsTokens(runs[..i]))
    {
      var part := RenderRun(runs[i]);
      assert runs[..i + 1][..i] == runs[..i];
      WriteAppend(RunsTokens(runs[..i]), RunTokens(runs[i]));
      body := body + part;
    }
    assert runs[..|runs|] == runs;
  }

  /** The projection of one element. Read back strictly, its output is balanced, uses only
      the listed tags and attributes, and shows exactly the text of the tree. */
  method Render(node: Node) returns (html: string)
    requires node.Element?
    ensures html == Write(Tokens(node))
    ensures Lex(html).Some? && Shows(Lex(html).value, TreeText(node))
    decreases node
  {
    ReadsBack(node);
    ShowsNode(node);
    if node.tag == "sectionReference" {
      EscapeIsCharwise(node.resolved);
      WriteChars(node.resolved);
      WriteWrap("span", [], Chars(node.resolved));
      return Tagged("span", "", EscapeHtml(node.resolved));
    }
    var name := TagName(node.tag, node.attributes);
    var attrs := RenderAttributes(name, node.attributes);
    var body := RenderChildren(node.children);
    WriteEnclosed(name, node.attributes, AllTokens(node.children));
    if name == "br" || name == "hr" {
      html := "<" + name + ">";
    } else if name == "pre" {
      html := Tagged("pre", "", Tagged("code", "", body));
    } else {
      html := Tagged(name, attrs, body);
    }
  }

  lemma WriteEnclosed(name: string, attributes: map<string, Any>, body: seq<Token>)
    ensures Write(Enclose(name, attributes, body))
         == if IsVoid(name) then "<" + name + ">"
            else if name == "pre" then Tagged("pre", "", Tagged("code", "", Write(body)))
            else Tagged(name, WriteAttributes(ElementAttributes(name, attributes)), Write(body))
  {
    if IsVoid(name) {
      WriteSingle(Open(name, []));
    } else if name == "pre" {
      WriteWrap("code", [], body);
      WriteWrap("pre", [], Wrap("code", [], body));
    } else {
      WriteWrap(name, ElementAttributes(name, attributes), body);
    }
  }

  method RenderChildren(children: seq<Node>) returns (body: string)
    ensures body == Write(AllTokens(children))
    decreases children
  {
    body := "";
    for i := 0 to |children|
      invariant body == Write(AllTokens(children[..i]))
    {
      var part := "";
      match children[i] {
        case Element(_, _, _, _) => part := Render(children[i]);
        case Text(runs) => part := RenderRuns(runs);
        case Fragment =>
      }
      assert children[..i + 1][..i] == children[..i];
      WriteAppend(AllTokens(children[..i]), Tokens(children[i]));
      body := body + part;
    }
    assert children[..|children|] == children;
  }
}
