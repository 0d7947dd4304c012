/** What an agent may propose for a document (src/api/docprops.rs): every item of a batch
    is either offered as an operation or reported as skipped. Sentences are tags here. */
module DocOps {
  import opened Prelude
  import opened Text

  const MAX_OPS := 64
  const MAX_OP_MARKDOWN := 32 * 1024
  const MAX_RATIONALE := 400

  datatype Block = Block(
    id: string,
    kind: string,
    level: Option<int>,
    language: Option<string>,
    text: string,
    html: Option<string>,
    markdown: string,
    itemMarkdown: seq<string>)

  datatype OpKind = Replace | InsertAfter | Delete

  datatype Op = Op(kind: OpKind, id: string, markdown: string, rationale: string)

  datatype Reason =
    | NotAnObject
    | UnknownOp
    | NoBlockId
    | NotInDocument
    | OutOfScope
    | NoMarkdown
    | NoChange
    | TooLong

  type Verdict = Result<Op, Reason>

  datatype Skipped = Skipped(index: nat, reason: Reason)

  datatype Validated = Validated(ops: seq<Op>, skipped: seq<Skipped>)

  datatype Refusal = NotAnArray | TooMany | Unchanged | NoneApplied(skipped: seq<Skipped>)

  // ---- A block as markdown -------------------------------------------------------------

  /** The lines of a text: terminators dropped, a carriage return before one dropped too. */
  function Lines(s: string): seq<string> {
    LinesFrom(s, "")
  }

  function LinesFrom(s: string, line: string): seq<string> {
    if s == "" then if line == "" then [] else [line]
    else if s[0] == '\n' then [DropReturn(line)] + LinesFrom(s[1..], "")
    else LinesFrom(s[1..], line + [s[0]])
  }

  predicate EndsInReturn(line: string) {
    line != "" && line[|line| - 1] == '\r'
  }

  function DropReturn(line: string): string {
    if EndsInReturn(line) then line[..|line| - 1] else line
  }

  function Prefixed(prefix: string, lines: seq<string>): seq<string> {
    seq(|lines|, i requires 0 <= i < |lines| => prefix + lines[i])
  }

  function Numbered(lines: seq<string>): seq<string> {
    seq(|lines|, i requires 0 <= i < |lines| => Decimal(i + 1) + ". " + lines[i])
  }

  function Hashes(level: int): string {
    seq(if level < 1 then 1 else if level > 6 then 6 else level, _ => '#')
  }

  function MarkdownFor(b: Block): string {
    if b.kind == "table" then (match b.html case Some(html) => html case None => "")
    else if b.kind == "heading" then
      Hashes(match b.level case Some(level) => level case None => 1) + " " + b.markdown
    else if b.kind == "codeBlock" then
      "```" + (match b.language case Some(language) => language case None => "") + "\n" + b.text + "\n```"
    else if b.kind == "blockquote" then Join(Prefixed("> ", Lines(b.markdown)), "\n")
    else if b.kind == "horizontalRule" then "---"
    else if b.kind == "bulletList" then Join(Prefixed("- ", b.itemMarkdown), "\n")
    else if b.kind == "orderedList" then Join(Numbered(b.itemMarkdown), "\n")
    else if b.kind == "paragraph" then b.markdown
    else b.text
  }

  /** Lines that can be told apart again: none holds a newline, and the last is not empty. */
  predicate Separable(lines: seq<string>) {
    && (forall i :: 0 <= i < |lines| ==> '\n' !in lines[i])
    && (lines != [] ==> lines[|lines| - 1] != "")
  }

  /** What a text joined from lines splits into: a carriage return that comes to stand
      before a newline is lost with it. */
  function Resplit(lines: seq<string>): (r: seq<string>)
    ensures |r| == |lines|
  {
    seq(|lines|, i requires 0 <= i < |lines| => if i < |lines| - 1 then DropReturn(lines[i]) else lines[i])
  }

  lemma {:induction false} LinesFromRest(line: string, rest: string, before: string)
    requires '\n' !in line
    ensures LinesFrom(line + rest, before) == LinesFrom(rest, before + line)
  {
    if line == "" {
      assert line + rest == rest && before + line == before;
    } else {
      assert (line + rest)[1..] == line[1..] + rest;
      LinesFromRest(line[1..], rest, before + [line[0]]);
      assert before + [line[0]] + line[1..] == before + line;
    }
  }

  lemma {:induction false} LinesJoin(lines: seq<string>)
    requires Separable(lines)
    ensures Lines(Join(lines, "\n")) == Resplit(lines)
  {
    if |lines| == 1 {
      LinesFromRest(lines[0], "", "");
      assert lines[0] + "" == lines[0] && "" + lines[0] == lines[0];
    } else if |lines| > 1 {
      var rest := Join(lines[1..], "\n");
      LinesJoin(lines[1..]);
      LinesFromRest(lines[0], "\n" + rest, "");
      assert lines[0] + "\n" + rest == lines[0] + ("\n" + rest) && "" + lines[0] == lines[0];
      assert ("\n" + rest)[1..] == rest;
      assert Resplit(lines) == [DropReturn(lines[0])] + Resplit(lines[1..]);
    }
  }

  lemma {:induction false} LinesHoldNoNewline(s: string, line: string)
    requires '\n' !in line
    ensures forall l :: l in LinesFrom(s, line) ==> '\n' !in l
  {
    if s != "" {
      LinesHoldNoNewline(s[1..], if s[0] == '\n' then "" else line + [s[0]]);
    }
  }

  predicate NoInnerReturn(lines: seq<string>) {
    forall i :: 0 <= i < |lines| - 1 ==> !EndsInReturn(lines[i])
  }

  /** Joined lines split into the same lines exactly when none holds a newline and none but
      the last ends in a carriage return. */
  lemma LinesKept(lines: seq<string>)
    requires lines != [] ==> lines[|lines| - 1] != ""
    ensures Lines(Join(lines, "\n")) == lines
       <==> (forall i :: 0 <= i < |lines| ==> '\n' !in lines[i]) && NoInnerReturn(lines)
  {
    LinesHoldNoNewline(Join(lines, "\n"), "");
    if Lines(Join(lines, "\n")) == lines {
      forall i | 0 <= i < |lines| ensures '\n' !in lines[i] {
        assert lines[i] in lines;
      }
    }
    if Separable(lines) {
      LinesJoin(lines);
      forall i | 0 <= i < |lines| - 1 ensures Resplit(lines)[i] == lines[i] <==> !EndsInReturn(lines[i]) {}
    }
  }

  /** What each kind without lines of its own is shown as: paragraphs and headings with their
      formatting, a heading behind one to six marks, code and unknown kinds as plain text,
      a table as its HTML. */
  lemma ShownText(b: Block)
    ensures b.kind == "paragraph" ==> MarkdownFor(b) == b.markdown
    ensures b.kind == "heading" ==>
              exists marks :: && MarkdownFor(b) == marks + " " + b.markdown && (forall c :: c in marks ==> c == '#')
                              && 1 <= |marks| <= 6 && (b.level.None? ==> |marks| == 1)
                              && (b.level.Some? && 1 <= b.level.value <= 6 ==> |marks| == b.level.value)
                              && (b.level.Some? && b.level.value > 6 ==> |marks| == 6)
                              && (b.level.Some? && b.level.value < 1 ==> |marks| == 1)
    ensures b.kind == "codeBlock" ==>
              MarkdownFor(b) == "```" + (if b.language.Some? then b.language.value else "") + "\n" + b.text + "\n```"
    ensures b.kind == "table" ==> MarkdownFor(b) == if b.html.Some? then b.html.value else ""
    ensures b.kind == "horizontalRule" ==> MarkdownFor(b) == "---"
    ensures b.kind !in ["paragraph", "heading", "codeBlock", "table", "horizontalRule",
                        "blockquote", "bulletList", "orderedList"]
            ==> MarkdownFor(b) == b.text
  {
    if b.kind == "heading" {
      var marks := HeadingMarks(b);
    }
  }

  lemma HeadingMarks(b: Block) returns (marks: string)
    requires b.kind == "heading"
    ensures MarkdownFor(b) == marks + " " + b.markdown && forall c :: c in marks ==> c == '#'
    ensures 1 <= |marks| <= 6 && (b.level.None? ==> |marks| == 1)
    ensures b.level.Some? && 1 <= b.level.value <= 6 ==> |marks| == b.level.value
    ensures b.level.Some? && b.level.value > 6 ==> |marks| == 6
    ensures b.level.Some? && b.level.value < 1 ==> |marks| == 1
  {
    marks := Hashes(match b.level case Some(level) => level case None => 1);
  }

  /** A quote is shown as its lines, each marked, exactly when no line but the last still
      ends in a carriage return once the text is split. */
  lemma QuoteLines(b: Block)
    requires b.kind == "blockquote"
    ensures Lines(MarkdownFor(b)) == Prefixed("> ", Lines(b.markdown)) <==> NoInnerReturn(Lines(b.markdown))
  {
    var lines := Lines(b.markdown);
    var marked := Prefixed("> ", lines);
    LinesHoldNoNewline(b.markdown, "");
    LinesKept(marked);
    forall i | 0 <= i < |lines| ensures '\n' !in marked[i] && (EndsInReturn(marked[i]) <==> EndsInReturn(lines[i])) {
      assert lines[i] in lines;
      assert marked[i] == "> " + lines[i];
    }
  }

  function ItemMark(kind: string, i: nat): string {
    if kind == "bulletList" then "- " else Decimal(i + 1) + ". "
  }

  function MarkedItems(b: Block): (r: seq<string>)
    ensures |r| == |b.itemMarkdown|
  {
    seq(|b.itemMarkdown|, i requires 0 <= i < |b.itemMarkdown| => ItemMark(b.kind, i) + b.itemMarkdown[i])
  }

  /** A list is shown as one line an item, bulleted or numbered from one, exactly when no
      item holds a newline and none but the last ends in a carriage return. */
  lemma ListLines(b: Block)
    requires b.kind == "bulletList" || b.kind == "orderedList"
    ensures Lines(MarkdownFor(b)) == MarkedItems(b)
       <==> && (forall i :: 0 <= i < |b.itemMarkdown| ==> '\n' !in b.itemMarkdown[i])
            && NoInnerReturn(b.itemMarkdown)
  {
    var marked := MarkedItems(b);
    assert MarkdownFor(b) == Join(marked, "\n") by {
      assert marked == if b.kind == "bulletList" then Prefixed("- ", b.itemMarkdown) else Numbered(b.itemMarkdown);
    }
    LinesKept(marked);
    forall i | 0 <= i < |marked| ensures MarkKeeps(marked[i], b.itemMarkdown[i]) {
      MarkedItem(ItemMark(b.kind, i), b.itemMarkdown[i]);
    }
  }

  predicate MarkKeeps(marked: string, item: string) {
    && ('\n' in marked <==> '\n' in item)
    && (EndsInReturn(marked) <==> EndsInReturn(item))
  }

  lemma MarkedItem(mark: string, item: string)
    requires mark != "" && '\n' !in mark && !EndsInReturn(mark)
    ensures MarkKeeps(mark + item, item)
  {
    if item == "" {
      assert mark + item == mark;
    }
  }

  // ---- One item --------------------------------------------------------------------------

  function StringField(item: Json, key: string): Option<string> {
    if item.JObject? && key in item.fields && item.fields[key].JString? then Some(item.fields[key].s) else None
  }

  function OrEmpty(s: Option<string>): string {
    match s case Some(value) => value case None => ""
  }

  function KindNamed(s: Option<string>): Option<OpKind> {
    if s == Some("replace") then Some(Replace)
    else if s == Some("insert_after") then Some(InsertAfter)
    else if s == Some("delete") then Some(Delete)
    else None
  }

  function KindName(kind: OpKind): string {
    match kind
    case Replace => "replace"
    case InsertAfter => "insert_after"
    case Delete => "delete"
  }

  function Utf8Width(c: char): nat {
    var n := c as int;
    if n < 0x80 then 1 else if n < 0x800 then 2 else if n < 0x1_0000 then 3 else 4
  }

  function ByteLength(s: string): nat {
    if s == "" then 0 else Utf8Width(s[0]) + ByteLength(s[1..])
  }

  /** The bytes a character takes in UTF-8. */
  function Utf8(c: char): (bytes: seq<int>)
    ensures |bytes| == Utf8Width(c)
  {
    var n := c as int;
    if n < 0x80 then [n]
    else if n < 0x800 then [0xC0 + n / 0x40, 0x80 + n % 0x40]
    else if n < 0x1_0000 then [0xE0 + n / 0x1000, 0x80 + n / 0x40 % 0x40, 0x80 + n % 0x40]
    else [0xF0 + n / 0x4_0000, 0x80 + n / 0x1000 % 0x40, 0x80 + n / 0x40 % 0x40, 0x80 + n % 0x40]
  }

  /** The character a UTF-8 sequence encodes, as its first byte announces it. */
  function Utf8Read(bytes: seq<int>): int
    requires 1 <= |bytes| <= 4
  {
    if |bytes| == 1 then bytes[0]
    else if |bytes| == 2 then (bytes[0] - 0xC0) * 0x40 + (bytes[1] - 0x80)
    else if |bytes| == 3 then (bytes[0] - 0xE0) * 0x1000 + (bytes[1] - 0x80) * 0x40 + (bytes[2] - 0x80)
    else (bytes[0] - 0xF0) * 0x4_0000 + (bytes[1] - 0x80) * 0x1000 + (bytes[2] - 0x80) * 0x40 + (bytes[3] - 0x80)
  }

  lemma Utf8RoundTrip(c: char)
    ensures 1 <= |Utf8(c)| <= 4 && Utf8Read(Utf8(c)) == c as int
    ensures |Utf8(c)| == 1 <==> 0 <= Utf8(c)[0] < 0x80
    ensures |Utf8(c)| == 2 <==> 0xC0 <= Utf8(c)[0] < 0xE0
    ensures |Utf8(c)| == 3 <==> 0xE0 <= Utf8(c)[0] < 0xF0
  {
    var n := c as int;
    Digits64(n);
    if n >= 0x1_0000 {
      LeadingByte(n);
    }
  }

  lemma Digits64(n: nat)
    ensures n == n / 0x40 * 0x40 + n % 0x40
    ensures n == n / 0x1000 * 0x1000 + n / 0x40 % 0x40 * 0x40 + n % 0x40
    ensures n == n / 0x4_0000 * 0x4_0000 + n / 0x1000 % 0x40 * 0x1000 + n / 0x40 % 0x40 * 0x40 + n % 0x40
  {
    assert n / 0x1000 == n / 0x40 / 0x40;
    assert n / 0x4_0000 == n / 0x1000 / 0x40;
    Digit64(n);
    Digit64(n / 0x40);
    Digit64(n / 0x1000);
  }

  lemma Digit64(n: nat)
    ensures n == n / 0x40 * 0x40 + n % 0x40
  {
  }

  lemma LeadingByte(n: nat)
    requires 0x1_0000 <= n
    ensures 0xF0 <= 0xF0 + n / 0x4_0000
  {
  }

  function Utf8All(s: string): seq<int> {
    if s == "" then [] else Utf8(s[0]) + Utf8All(s[1..])
  }

  /** The size of a text is the number of bytes of its UTF-8 encoding. */
  lemma {:induction false} ByteLengthIs(s: string)
    ensures ByteLength(s) == |Utf8All(s)|
  {
    if s != "" {
      ByteLengthIs(s[1..]);
    }
  }

  function FirstChars(s: string, n: nat): (r: string)
    ensures |r| == (if |s| <= n then |s| else n) && r <= s
  {
    if |s| <= n then s else s[..n]
  }

  predicate Known(blocks: seq<Block>, id: string) {
    exists k :: 0 <= k < |blocks| && blocks[k].id == id
  }

  /** The first block with an id, the one the source compares a replacement with. */
  function FindBlock(blocks: seq<Block>, id: string): Option<Block> {
    if blocks == [] then None
    else if blocks[0].id == id then Some(blocks[0])
    else FindBlock(blocks[1..], id)
  }

  lemma {:induction false} FindBlockKnown(blocks: seq<Block>, id: string)
    ensures FindBlock(blocks, id).Some? <==> Known(blocks, id)
    ensures FindBlock(blocks, id).Some? ==> FindBlock(blocks, id).value.id == id
  {
    if blocks != [] {
      FindBlockKnown(blocks[1..], id);
      if blocks[0].id != id && Known(blocks, id) {
        var k :| 0 <= k < |blocks| && blocks[k].id == id;
        assert blocks[1..][k - 1] == blocks[k];
      }
    }
  }

  predicate InScope(scope: Option<seq<string>>, id: string) {
    scope.Some? ==> id in scope.value
  }

  /** The checks on one item, in the source's order; the first that fails is the reason. */
  function Judge(item: Json, blocks: seq<Block>, scope: Option<seq<string>>): Verdict {
    if !item.JObject? then Err(NotAnObject)
    else
      match KindNamed(StringField(item, "op"))
      case None => Err(UnknownOp)
      case Some(kind) =>
        var id := OrEmpty(StringField(item, "id"));
        if id == "" then Err(NoBlockId)
        else if !Known(blocks, id) then Err(NotInDocument)
        else if !InScope(scope, id) then Err(OutOfScope)
        else
          var markdown := OrEmpty(StringField(item, "markdown"));
          if kind != Delete && Trim(markdown) == "" then Err(NoMarkdown)
          else if kind == Replace && SameText(markdown, id, blocks) then Err(NoChange)
          else if ByteLength(markdown) > MAX_OP_MARKDOWN then Err(TooLong)
          else Ok(Op(kind, id, markdown, FirstChars(OrEmpty(StringField(item, "rationale")), MAX_RATIONALE)))
  }

  predicate SameText(markdown: string, id: string, blocks: seq<Block>) {
    match FindBlock(blocks, id)
    case Some(block) => Trim(markdown) == Trim(MarkdownFor(block))
    case None => false
  }

  // ---- A batch ------------------------------------------------------------------------------

  function Verdicts(items: seq<Json>, blocks: seq<Block>, scope: Option<seq<string>>): (vs: seq<Verdict>)
    ensures |vs| == |items|
  {
    seq(|items|, i requires 0 <= i < |items| => Judge(items[i], blocks, scope))
  }

  function Taken(vs: seq<Verdict>): seq<Op> {
    if vs == [] then []
    else Taken(vs[..|vs| - 1]) + match vs[|vs| - 1] case Ok(op) => [op] case Err(_) => []
  }

  function Reported(vs: seq<Verdict>): seq<Skipped> {
    if vs == [] then []
    else
      Reported(vs[..|vs| - 1])
      + match vs[|vs| - 1] case Ok(_) => [] case Err(reason) => [Skipped(|vs| - 1, reason)]
  }

  predicate AllNoChange(skipped: seq<Skipped>) {
    forall i :: 0 <= i < |skipped| ==> skipped[i].reason == NoChange
  }

  function Outcome(raw: Json, blocks: seq<Block>, scope: Option<seq<string>>): Result<Validated, Refusal> {
    if !raw.JArray? then Err(NotAnArray)
    else if |raw.items| > MAX_OPS then Err(TooMany)
    else
      var vs := Verdicts(raw.items, blocks, scope);
      var ops, skipped := Taken(vs), Reported(vs);
      if ops != [] then Ok(Validated(ops, skipped))
      else if raw.items != [] && AllNoChange(skipped) then Err(Unchanged)
      else Err(NoneApplied(skipped))
  }

  lemma KnownSet(blocks: seq<Block>, id: string)
    ensures id in (set b | b in blocks :: b.id) <==> Known(blocks, id)
  {
    if id in (set b | b in blocks :: b.id) {
      var b :| b in blocks && b.id == id;
      var k :| 0 <= k < |blocks| && blocks[k] == b;
      assert blocks[k].id == id;
    }
    if Known(blocks, id) {
      var k :| 0 <= k < |blocks| && blocks[k].id == id;
      assert blocks[k] in blocks;
    }
  }

  /** The source's loop body: one early exit per check, so an item that passes them all is
      taken and any other leaves exactly one reason. */
  method CheckItem(item: Json, known: set<string>, blocks: seq<Block>, scope: Option<seq<string>>)
    returns (r: Result<Op, Reason>)
    requires known == set b | b in blocks :: b.id
    ensures r == Judge(item, blocks, scope)
  {
    if !item.JObject? {
      return Err(NotAnObject);
    }
    var kind := KindNamed(StringField(item, "op"));
    if kind.None? {
      return Err(UnknownOp);
    }
    var id := OrEmpty(StringField(item, "id"));
    if id == "" {
      return Err(NoBlockId);
    }
    KnownSet(blocks, id);
    if id !in known {
      return Err(NotInDocument);
    }
    if scope.Some? && id !in scope.value {
      return Err(OutOfScope);
    }
    var markdown := OrEmpty(StringField(item, "markdown"));
    if kind.value != Delete && Trim(markdown) == "" {
      return Err(NoMarkdown);
    }
    if kind.value == Replace {
      var block := FindBlock(blocks, id);
      if block.Some? && Trim(markdown) == Trim(MarkdownFor(block.value)) {
        return Err(NoChange);
      }
    }
    if ByteLength(markdown) > MAX_OP_MARKDOWN {
      return Err(TooLong);
    }
    return Ok(Op(kind.value, id, markdown, FirstChars(OrEmpty(StringField(item, "rationale")), MAX_RATIONALE)));
  }

  method ValidateOps(raw: Json, blocks: seq<Block>, scope: Option<seq<string>>)
    returns (r: Result<Validated, Refusal>)
    ensures r == Outcome(raw, blocks, scope)
  {
    if !raw.JArray? {
      return Err(NotAnArray);
    }
    var list := raw.items;
    if |list| > MAX_OPS {
      return Err(TooMany);
    }
    var known := set b | b in blocks :: b.id;
    ghost var vs := Verdicts(list, blocks, scope);
    var ops: seq<Op>, skipped: seq<Skipped> := [], [];
    for i := 0 to |list|
      invariant ops == Taken(vs[..i])
      invariant skipped == Reported(vs[..i])
    {
      assert vs[..i + 1][..i] == vs[..i];
      var verdict := CheckItem(list[i], known, blocks, scope);
      match verdict {
        case Ok(op) => ops := ops + [op];
        case Err(reason) => skipped := skipped + [Skipped(i, reason)];
      }
    }
    assert vs[..|list|] == vs;
    if ops == [] {
      if list != [] && AllNoChange(skipped) {
        return Err(Unchanged);
      }
      return Err(NoneApplied(skipped));
    }
    return Ok(Validated(ops, skipped));
  }

  // ---- Which items are taken --------------------------------------------------------------

  /** An item carries a string under a key. */
  predicate HasString(item: Json, key: string, s: string) {
    item.JObject? && key in item.fields && item.fields[key] == JString(s)
  }

  /** The text an item carries under a key, empty when it carries none. */
  function TextIn(item: Json, key: string): string {
    if item.JObject? && key in item.fields && item.fields[key].JString? then item.fields[key].s else ""
  }

  /** The text is what the first block with the id is shown as, white space at the ends aside. */
  predicate SameAsShown(text: string, id: string, blocks: seq<Block>) {
    exists k :: 0 <= k < |blocks| && IsFirst(blocks, k, id) && Trim(text) == Trim(MarkdownFor(blocks[k]))
  }

  predicate IsFirst(blocks: seq<Block>, k: nat, id: string)
    requires k < |blocks|
  {
    blocks[k].id == id && forall j :: 0 <= j < k ==> blocks[j].id != id
  }

  lemma {:induction false} FindBlockIs(blocks: seq<Block>, k: nat, id: string)
    requires k < |blocks| && IsFirst(blocks, k, id)
    ensures FindBlock(blocks, id) == Some(blocks[k])
  {
    if k > 0 {
      assert blocks[0].id != id;
      assert blocks[1..][k - 1] == blocks[k];
      assert forall j :: 0 <= j < k - 1 ==> blocks[1..][j] == blocks[j + 1];
      FindBlockIs(blocks[1..], k - 1, id);
    }
  }

  lemma {:induction false} FoundIsFirst(blocks: seq<Block>, id: string) returns (k: nat)
    requires FindBlock(blocks, id).Some?
    ensures k < |blocks| && IsFirst(blocks, k, id)
  {
    if blocks[0].id == id {
      k := 0;
    } else {
      k := FoundIsFirst(blocks[1..], id);
      k := k + 1;
      assert forall j :: 0 < j < k ==> blocks[j] == blocks[1..][j - 1];
    }
  }

  lemma SameTextIff(text: string, id: string, blocks: seq<Block>)
    ensures SameText(text, id, blocks) <==> SameAsShown(text, id, blocks)
  {
    if SameText(text, id, blocks) {
      var k := FoundIsFirst(blocks, id);
      FindBlockIs(blocks, k, id);
    }
    if SameAsShown(text, id, blocks) {
      var k :| 0 <= k < |blocks| && IsFirst(blocks, k, id) && Trim(text) == Trim(MarkdownFor(blocks[k]));
      FindBlockIs(blocks, k, id);
    }
  }

  predicate Visible(s: string) {
    exists i :: 0 <= i < |s| && !IsWhite(s[i])
  }

  lemma VisibleText(s: string)
    ensures Trim(s) != "" <==> Visible(s)
  {
    TrimEmpty(s);
  }

  /** The operation names, as they are spelled. */
  predicate Spells(item: Json, kind: OpKind) {
    match kind
    case Replace => HasString(item, "op", "replace")
    case InsertAfter => HasString(item, "op", "insert_after")
    case Delete => HasString(item, "op", "delete")
  }

  lemma KindSpelled(item: Json, kind: OpKind)
    ensures KindNamed(StringField(item, "op")) == Some(kind) <==> Spells(item, kind)
  {
  }

  /** A block that an item may address: it is in the document and in scope. */
  predicate Placed(id: string, blocks: seq<Block>, scope: Option<seq<string>>) {
    && id != "" && (exists b :: b in blocks && b.id == id)
    && (scope.Some? ==> id in scope.value)
  }

  lemma PlacedIff(id: string, blocks: seq<Block>, scope: Option<seq<string>>)
    ensures Placed(id, blocks, scope) <==> id != "" && Known(blocks, id) && InScope(scope, id)
    ensures Known(blocks, id) <==> exists b :: b in blocks && b.id == id
  {
    KnownSet(blocks, id);
  }

  /** What a caller may rely on about an operation that is offered. */
  predicate Acceptable(op: Op, blocks: seq<Block>, scope: Option<seq<string>>) {
    && Placed(op.id, blocks, scope)
    && (op.kind != Delete ==> Visible(op.markdown))
    && ByteLength(op.markdown) <= 32 * 1024
    && |op.rationale| <= 400
    && (op.kind == Replace ==> !SameAsShown(op.markdown, op.id, blocks))
  }

  /** The operation an item spells out, a missing text being empty and a rationale cut to
      400 characters. */
  predicate Denotes(item: Json, op: Op) {
    && Spells(item, op.kind)
    && op.id == TextIn(item, "id")
    && op.markdown == TextIn(item, "markdown")
    && op.rationale <= TextIn(item, "rationale")
    && (|op.rationale| == 400 || (op.rationale == TextIn(item, "rationale") && |op.rationale| < 400))
  }

  /** An item becomes an operation exactly when it spells one out and that operation is
      acceptable for this document and scope. */
  lemma AcceptedExactly(item: Json, blocks: seq<Block>, scope: Option<seq<string>>, op: Op)
    ensures Judge(item, blocks, scope) == Ok(op) <==> Denotes(item, op) && Acceptable(op, blocks, scope)
  {
    KindSpelled(item, op.kind);
    VisibleText(op.markdown);
    PlacedIff(op.id, blocks, scope);
    SameTextIff(op.markdown, op.id, blocks);
    CutIs(TextIn(item, "rationale"), op.rationale);
  }

  lemma CutIs(s: string, cut: string)
    ensures cut == FirstChars(s, MAX_RATIONALE) <==> cut <= s && (|cut| == 400 || (cut == s && |cut| < 400))
  {
  }

  predicate SpellsAny(item: Json) {
    Spells(item, Replace) || Spells(item, InsertAfter) || Spells(item, Delete)
  }

  /** Why an item is skipped: the first of these, in this order, that is so. */
  function FirstFault(item: Json, blocks: seq<Block>, scope: Option<seq<string>>): Option<Reason> {
    var id, markdown := TextIn(item, "id"), TextIn(item, "markdown");
    if !item.JObject? then Some(NotAnObject)
    else if !SpellsAny(item) then Some(UnknownOp)
    else if id == "" then Some(NoBlockId)
    else if forall b :: b in blocks ==> b.id != id then Some(NotInDocument)
    else if scope.Some? && id !in scope.value then Some(OutOfScope)
    else if !Spells(item, Delete) && !Visible(markdown) then Some(NoMarkdown)
    else if Spells(item, Replace) && SameAsShown(markdown, id, blocks) then Some(NoChange)
    else if ByteLength(markdown) > 32 * 1024 then Some(TooLong)
    else None
  }

  lemma SkippedExactly(item: Json, blocks: seq<Block>, scope: Option<seq<string>>, reason: Reason)
    ensures Judge(item, blocks, scope) == Err(reason) <==> FirstFault(item, blocks, scope) == Some(reason)
  {
    KindSpelled(item, Replace);
    KindSpelled(item, InsertAfter);
    KindSpelled(item, Delete);
    VisibleText(TextIn(item, "markdown"));
    PlacedIff(TextIn(item, "id"), blocks, scope);
    SameTextIff(TextIn(item, "markdown"), TextIn(item, "id"), blocks);
  }

  /** "No change" is said exactly of a non-blank replacement of a block that is known and in
      scope by the visible text of the first block with its id. */
  lemma NoChangeExactly(item: Json, blocks: seq<Block>, scope: Option<seq<string>>)
    ensures Judge(item, blocks, scope) == Err(NoChange)
       <==> && Spells(item, Replace) && Placed(TextIn(item, "id"), blocks, scope)
            && Visible(TextIn(item, "markdown"))
            && SameAsShown(TextIn(item, "markdown"), TextIn(item, "id"), blocks)
  {
    SkippedExactly(item, blocks, scope, NoChange);
  }

  // ---- Every item is answered once, in order ----------------------------------------------------

  /** The verdicts told by the two lists alone: position `n - 1` was skipped if the last
      entry of `skipped` says so, and took the last operation otherwise. */
  function Woven(ops: seq<Op>, skipped: seq<Skipped>, n: nat): seq<Verdict>
    decreases n
  {
    if n == 0 then []
    else if skipped != [] && skipped[|skipped| - 1].index == n - 1 then
      Woven(ops, skipped[..|skipped| - 1], n - 1) + [Err(skipped[|skipped| - 1].reason)]
    else if ops != [] then Woven(ops[..|ops| - 1], skipped, n - 1) + [Ok(ops[|ops| - 1])]
    else []
  }

  predicate IndicesBelow(skipped: seq<Skipped>, n: nat) {
    forall k :: 0 <= k < |skipped| ==> skipped[k].index < n
  }

  lemma WovenOk(ops: seq<Op>, op: Op, skipped: seq<Skipped>, n: nat)
    requires IndicesBelow(skipped, n)
    ensures Woven(ops + [op], skipped, n + 1) == Woven(ops, skipped, n) + [Ok(op)]
  {
    assert (ops + [op])[..|ops|] == ops;
  }

  lemma WovenErr(ops: seq<Op>, skipped: seq<Skipped>, n: nat, reason: Reason)
    ensures Woven(ops, skipped + [Skipped(n, reason)], n + 1) == Woven(ops, skipped, n) + [Err(reason)]
  {
    assert (skipped + [Skipped(n, reason)])[..|skipped|] == skipped;
  }

  /** The two lists together give back the verdict on every item, in order, and their
      lengths add up to the batch. */
  predicate ToldBy(vs: seq<Verdict>, ops: seq<Op>, skipped: seq<Skipped>) {
    Woven(ops, skipped, |vs|) == vs && |ops| + |skipped| == |vs| && IndicesBelow(skipped, |vs|)
  }

  lemma ToldStep(vs: seq<Verdict>, last: Verdict, ops: seq<Op>, skipped: seq<Skipped>)
    requires ToldBy(vs, ops, skipped)
    ensures match last
            case Ok(op) => ToldBy(vs + [last], ops + [op], skipped)
            case Err(reason) => ToldBy(vs + [last], ops, skipped + [Skipped(|vs|, reason)])
  {
    match last
    case Ok(op) => WovenOk(ops, op, skipped, |vs|);
    case Err(reason) => WovenErr(ops, skipped, |vs|, reason);
  }

  /** Nothing is lost, doubled or reordered. */
  lemma {:induction false} NothingLost(vs: seq<Verdict>)
    ensures ToldBy(vs, Taken(vs), Reported(vs))
  {
    if vs != [] {
      var init, last := vs[..|vs| - 1], vs[|vs| - 1];
      NothingLost(init);
      ToldStep(init, last, Taken(init), Reported(init));
      assert init + [last] == vs && Taken(init) + [] == Taken(init) && Reported(init) + [] == Reported(init);
    }
  }

  // ---- Re-validating what was accepted -------------------------------------------------------------

  function Encode(op: Op): Json {
    JObject(map[
      "op" := JString(KindName(op.kind)),
      "id" := JString(op.id),
      "markdown" := JString(op.markdown),
      "rationale" := JString(op.rationale)])
  }

  function EncodeAll(ops: seq<Op>): seq<Json> {
    seq(|ops|, i requires 0 <= i < |ops| => Encode(ops[i]))
  }

  predicate AllAcceptable(ops: seq<Op>, blocks: seq<Block>, scope: Option<seq<string>>) {
    forall i :: 0 <= i < |ops| ==> Acceptable(ops[i], blocks, scope)
  }

  lemma EncodeDenotes(op: Op)
    requires |op.rationale| <= MAX_RATIONALE
    ensures Denotes(Encode(op), op)
  {}

  lemma {:induction false} TakenFrom(vs: seq<Verdict>, op: Op)
    ensures op in Taken(vs) <==> Ok(op) in vs
  {
    if vs != [] {
      TakenFrom(vs[..|vs| - 1], op);
      assert vs == vs[..|vs| - 1] + [vs[|vs| - 1]];
    }
  }

  lemma TakenAreAcceptable(items: seq<Json>, blocks: seq<Block>, scope: Option<seq<string>>)
    ensures AllAcceptable(Taken(Verdicts(items, blocks, scope)), blocks, scope)
  {
    var vs := Verdicts(items, blocks, scope);
    forall op | op in Taken(vs) ensures Acceptable(op, blocks, scope) {
      TakenFrom(vs, op);
      var i :| 0 <= i < |vs| && vs[i] == Ok(op);
      AcceptedExactly(items[i], blocks, scope, op);
    }
  }

  function AllOk(ops: seq<Op>): seq<Verdict> {
    seq(|ops|, i requires 0 <= i < |ops| => Ok(ops[i]))
  }

  lemma {:induction false} AllOkTaken(ops: seq<Op>)
    ensures Taken(AllOk(ops)) == ops && Reported(AllOk(ops)) == []
  {
    if ops != [] {
      var init := ops[..|ops| - 1];
      AllOkTaken(init);
      assert AllOk(ops)[..|ops| - 1] == AllOk(init);
      assert init + [ops[|ops| - 1]] == ops;
    }
  }

  lemma EncodedVerdicts(ops: seq<Op>, blocks: seq<Block>, scope: Option<seq<string>>)
    requires AllAcceptable(ops, blocks, scope)
    ensures Verdicts(EncodeAll(ops), blocks, scope) == AllOk(ops)
  {
    forall i | 0 <= i < |ops| ensures Judge(EncodeAll(ops)[i], blocks, scope) == Ok(ops[i]) {
      assert Acceptable(ops[i], blocks, scope);
      EncodeDenotes(ops[i]);
      AcceptedExactly(Encode(ops[i]), blocks, scope, ops[i]);
    }
  }

  /** Sending the accepted operations again, against the same document and scope, accepts
      all of them unchanged and skips none. */
  lemma Revalidates(raw: Json, blocks: seq<Block>, scope: Option<seq<string>>)
    requires Outcome(raw, blocks, scope).Ok?
    ensures var ops := Outcome(raw, blocks, scope).value.ops;
            Outcome(JArray(EncodeAll(ops)), blocks, scope) == Ok(Validated(ops, []))
  {
    var ops := Outcome(raw, blocks, scope).value.ops;
    NothingLost(Verdicts(raw.items, blocks, scope));
    TakenAreAcceptable(raw.items, blocks, scope);
    EncodedVerdicts(ops, blocks, scope);
    AllOkTaken(ops);
  }

  // ---- Which batches are refused --------------------------------------------------------------------

  predicate Every(vs: seq<Verdict>, verdict: Verdict) {
    forall i :: 0 <= i < |vs| ==> vs[i] == verdict
  }

  lemma {:induction false} ReportedFrom(vs: seq<Verdict>, i: nat, reason: Reason)
    ensures Skipped(i, reason) in Reported(vs) <==> i < |vs| && vs[i] == Err(reason)
  {
    if vs != [] {
      var init := vs[..|vs| - 1];
      ReportedFrom(init, i, reason);
      assert i < |init| ==> init[i] == vs[i];
    }
  }

  lemma AllUnchanged(vs: seq<Verdict>)
    ensures Taken(vs) == [] && AllNoChange(Reported(vs)) <==> Every(vs, Err(NoChange))
  {
    if Taken(vs) == [] && AllNoChange(Reported(vs)) {
      forall i | 0 <= i < |vs| ensures vs[i] == Err(NoChange) {
        match vs[i]
        case Ok(op) => TakenFrom(vs, op);
        case Err(reason) => ReportedFrom(vs, i, reason);
      }
    }
    if Every(vs, Err(NoChange)) {
      NoneTaken(vs);
      forall k | 0 <= k < |Reported(vs)| ensures Reported(vs)[k].reason == NoChange {
        ReportedFrom(vs, Reported(vs)[k].index, Reported(vs)[k].reason);
        assert Reported(vs)[k] in Reported(vs);
      }
    }
  }

  lemma NoneTaken(vs: seq<Verdict>)
    ensures Taken(vs) == [] <==> forall i :: 0 <= i < |vs| ==> vs[i].Err?
  {
    if Taken(vs) != [] {
      TakenFrom(vs, Taken(vs)[0]);
      assert Taken(vs)[0] in Taken(vs);
      var i :| 0 <= i < |vs| && vs[i] == Ok(Taken(vs)[0]);
    }
    if i :| 0 <= i < |vs| && vs[i].Ok? {
      TakenFrom(vs, vs[i].value);
    }
  }

  /** Each answer to a batch, with the condition on the batch that brings it about. */
  lemma OutcomeExactly(raw: Json, blocks: seq<Block>, scope: Option<seq<string>>)
    ensures Outcome(raw, blocks, scope) == Err(NotAnArray) <==> !raw.JArray?
    ensures Outcome(raw, blocks, scope) == Err(TooMany) <==> raw.JArray? && |raw.items| > 64
    ensures Outcome(raw, blocks, scope) == Err(Unchanged)
       <==> && raw.JArray? && 0 < |raw.items| <= 64
            && Every(Verdicts(raw.items, blocks, scope), Err(NoChange))
    ensures Outcome(raw, blocks, scope).Ok?
       <==> && raw.JArray? && |raw.items| <= 64
            && exists op :: Ok(op) in Verdicts(raw.items, blocks, scope)
  {
    if raw.JArray? {
      var vs := Verdicts(raw.items, blocks, scope);
      AllUnchanged(vs);
      if Taken(vs) != [] {
        TakenFrom(vs, Taken(vs)[0]);
        assert Taken(vs)[0] in Taken(vs);
      }
      if op :| Ok(op) in vs {
        TakenFrom(vs, op);
      }
    }
  }

  /** What a batch is answered with tells the verdict on each of its items. */
  lemma OutcomeTells(raw: Json, blocks: seq<Block>, scope: Option<seq<string>>)
    requires raw.JArray?
    ensures match Outcome(raw, blocks, scope)
            case Ok(v) => v.ops != [] && ToldBy(Verdicts(raw.items, blocks, scope), v.ops, v.skipped)
            case Err(NoneApplied(skipped)) => ToldBy(Verdicts(raw.items, blocks, scope), [], skipped)
            case Err(_) => true
  {
    NothingLost(Verdicts(raw.items, blocks, scope));
  }

  // ---- A document sent back as it was read ------------------------------------------------------------

  /** The replacement of a block by the very text it was shown as. */
  function Echo(b: Block): Json {
    Encode(Op(Replace, b.id, MarkdownFor(b), ""))
  }

  function EchoAll(blocks: seq<Block>): seq<Json> {
    seq(|blocks|, i requires 0 <= i < |blocks| => Echo(blocks[i]))
  }

  /** A block whose own text, sent back, can be weighed at all: it can be addressed, is in
      scope, and shows something. */
  predicate Addressable(b: Block, scope: Option<seq<string>>) {
    b.id != "" && (scope.Some? ==> b.id in scope.value) && Visible(MarkdownFor(b))
  }

  /** A block whose text is that of the first block with its id. */
  predicate ShownByFirst(b: Block, blocks: seq<Block>) {
    SameAsShown(MarkdownFor(b), b.id, blocks)
  }

  lemma EchoVerdict(b: Block, blocks: seq<Block>, scope: Option<seq<string>>)
    requires b in blocks
    ensures var v := Judge(Echo(b), blocks, scope);
            && (v == Err(NoChange) <==> Addressable(b, scope) && ShownByFirst(b, blocks))
            && (v.Ok? <==> && Addressable(b, scope) && !ShownByFirst(b, blocks)
                           && ByteLength(MarkdownFor(b)) <= MAX_OP_MARKDOWN)
  {
    var k :| 0 <= k < |blocks| && blocks[k] == b;
    assert Known(blocks, b.id);
    VisibleText(MarkdownFor(b));
    SameTextIff(MarkdownFor(b), b.id, blocks);
    ReplaceVerdict(b.id, MarkdownFor(b), blocks, scope);
  }

  /** The verdict on a replacement of a block that is in the document. */
  lemma ReplaceVerdict(id: string, text: string, blocks: seq<Block>, scope: Option<seq<string>>)
    requires Known(blocks, id)
    ensures Judge(Encode(Op(Replace, id, text, "")), blocks, scope)
         == if id == "" then Err(NoBlockId)
            else if !InScope(scope, id) then Err(OutOfScope)
            else if Trim(text) == "" then Err(NoMarkdown)
            else if SameText(text, id, blocks) then Err(NoChange)
            else if ByteLength(text) > MAX_OP_MARKDOWN then Err(TooLong)
            else Ok(Op(Replace, id, text, ""))
  {
    var item := Encode(Op(Replace, id, text, ""));
    assert StringField(item, "op") == Some("replace") && StringField(item, "id") == Some(id);
    assert StringField(item, "markdown") == Some(text) && StringField(item, "rationale") == Some("");
  }

  /** When a document returned block by block as it was read is taken for what it is. It is
      answered as unchanged exactly when it has between one and `MAX_OPS` blocks and each
      can be weighed and shows the text of the first block with its id. It is taken for a
      change exactly when some block within the size limit shows another text than the
      first block with its id, which only a repeated id brings about. */
  lemma EchoExactly(blocks: seq<Block>, scope: Option<seq<string>>)
    ensures Outcome(JArray(EchoAll(blocks)), blocks, scope) == Err(Unchanged)
       <==> && 0 < |blocks| <= 64
            && forall b :: b in blocks ==> Addressable(b, scope) && ShownByFirst(b, blocks)
    ensures Outcome(JArray(EchoAll(blocks)), blocks, scope).Ok?
       <==> && |blocks| <= 64
            && exists b :: && b in blocks && Addressable(b, scope) && !ShownByFirst(b, blocks)
                           && ByteLength(MarkdownFor(b)) <= 32 * 1024
  {
    OutcomeExactly(JArray(EchoAll(blocks)), blocks, scope);
    EchoUnchanged(blocks, scope);
    EchoTaken(blocks, scope);
  }

  predicate Weighs(b: Block, blocks: seq<Block>, scope: Option<seq<string>>) {
    Addressable(b, scope) && ShownByFirst(b, blocks)
  }

  lemma EchoUnchanged(blocks: seq<Block>, scope: Option<seq<string>>)
    ensures Every(Verdicts(EchoAll(blocks), blocks, scope), Err(NoChange))
       <==> forall b :: b in blocks ==> Addressable(b, scope) && ShownByFirst(b, blocks)
  {
    var vs := Verdicts(EchoAll(blocks), blocks, scope);
    if Every(vs, Err(NoChange)) {
      forall b | b in blocks ensures Weighs(b, blocks, scope) {
        var k :| 0 <= k < |blocks| && blocks[k] == b;
        assert vs[k] == Judge(Echo(b), blocks, scope);
        EchoVerdict(b, blocks, scope);
      }
    }
    if forall b :: b in blocks ==> Weighs(b, blocks, scope) {
      forall k | 0 <= k < |vs| ensures vs[k] == Err(NoChange) {
        assert blocks[k] in blocks && Weighs(blocks[k], blocks, scope);
        EchoVerdict(blocks[k], blocks, scope);
      }
    }
    assert (forall b :: b in blocks ==> Addressable(b, scope) && ShownByFirst(b, blocks))
        == forall b :: b in blocks ==> Weighs(b, blocks, scope);
  }

  lemma EchoTaken(blocks: seq<Block>, scope: Option<seq<string>>)
    ensures (exists op :: Ok(op) in Verdicts(EchoAll(blocks), blocks, scope))
       <==> exists b :: && b in blocks && Addressable(b, scope) && !ShownByFirst(b, blocks)
                        && ByteLength(MarkdownFor(b)) <= MAX_OP_MARKDOWN
  {
    var vs := Verdicts(EchoAll(blocks), blocks, scope);
    if op :| Ok(op) in vs {
      var k :| 0 <= k < |vs| && vs[k] == Ok(op);
      EchoVerdict(blocks[k], blocks, scope);
      assert blocks[k] in blocks;
    }
    if b :| b in blocks && Addressable(b, scope) && !ShownByFirst(b, blocks)
            && ByteLength(MarkdownFor(b)) <= MAX_OP_MARKDOWN {
      var k :| 0 <= k < |blocks| && blocks[k] == b;
      EchoVerdict(b, blocks, scope);
      assert vs[k] in vs && vs[k].Ok?;
    }
  }

  /** A block no earlier block shares its id with is always shown by the first. */
  lemma UnsharedIsFirst(blocks: seq<Block>, k: nat)
    requires k < |blocks| && forall j :: 0 <= j < k ==> blocks[j].id != blocks[k].id
    ensures ShownByFirst(blocks[k], blocks)
  {
    assert IsFirst(blocks, k, blocks[k].id);
  }

  /** So while no two blocks share an id, a document sent back is never taken for a change. */
  lemma UniqueEchoIsNoChange(blocks: seq<Block>, scope: Option<seq<string>>)
    requires forall i, j :: 0 <= i < j < |blocks| && blocks[i].id != "" ==> blocks[i].id != blocks[j].id
    ensures Outcome(JArray(EchoAll(blocks)), blocks, scope).Err?
  {
    EchoExactly(blocks, scope);
    forall b | b in blocks && b.id != "" ensures ShownByFirst(b, blocks) {
      var k :| 0 <= k < |blocks| && blocks[k] == b;
      UnsharedIsFirst(blocks, k);
    }
  }

  function Paragraph(id: string, markdown: string): Block {
    Block(id, "paragraph", None, None, markdown, None, markdown, [])
  }

  /** Two paragraphs that share an id, as a merge can leave them: whenever their texts
      differ, the document sent back as it was read is taken for a change of the first
      into the second. */
  lemma SharedIdIsTaken(id: string, a: string, b: string)
    requires id != "" && Trim(a) != "" && Trim(b) != "" && Trim(a) != Trim(b) && ByteLength(b) <= MAX_OP_MARKDOWN
    ensures Outcome(JArray(EchoAll([Paragraph(id, a), Paragraph(id, b)])), [Paragraph(id, a), Paragraph(id, b)], None)
         == Ok(Validated([Op(Replace, id, b, "")], [Skipped(0, NoChange)]))
  {
    var first, second := Paragraph(id, a), Paragraph(id, b);
    var blocks := [first, second];
    ParagraphShown(first, blocks, id, a, a);
    ParagraphShown(second, blocks, id, a, b);
    TwoTaken(JArray(EchoAll(blocks)), blocks, NoChange, Op(Replace, id, b, ""));
  }

  lemma TwoTaken(raw: Json, blocks: seq<Block>, reason: Reason, op: Op)
    requires raw.JArray? && |raw.items| == 2
    requires Judge(raw.items[0], blocks, None) == Err(reason) && Judge(raw.items[1], blocks, None) == Ok(op)
    ensures Outcome(raw, blocks, None) == Ok(Validated([op], [Skipped(0, reason)]))
  {
    assert Verdicts(raw.items, blocks, None) == [Err(reason), Ok(op)];
    TwoVerdicts(reason, op);
  }

  /** A paragraph sent back among blocks whose first with its id shows `a`. */
  lemma ParagraphShown(shown: Block, blocks: seq<Block>, id: string, a: string, text: string)
    requires shown == Paragraph(id, text) && shown in blocks && FindBlock(blocks, id) == Some(Paragraph(id, a))
    requires id != "" && Trim(text) != "" && (Trim(text) == Trim(a) || ByteLength(text) <= MAX_OP_MARKDOWN)
    ensures Judge(Echo(shown), blocks, None)
         == if Trim(text) == Trim(a) then Err(NoChange) else Ok(Op(Replace, id, text, ""))
  {
    var k :| 0 <= k < |blocks| && blocks[k] == shown;
    assert Known(blocks, id);
    ParagraphMarkdown(id, text);
    ParagraphMarkdown(id, a);
    ReplaceVerdict(id, text, blocks, None);
    SameTextAs(text, id, blocks, Paragraph(id, a), a);
  }

  lemma ParagraphMarkdown(id: string, text: string)
    ensures MarkdownFor(Paragraph(id, text)) == text
  {
  }

  lemma SameTextAs(text: string, id: string, blocks: seq<Block>, first: Block, shown: string)
    requires FindBlock(blocks, id) == Some(first) && MarkdownFor(first) == shown
    ensures SameText(text, id, blocks) <==> Trim(text) == Trim(shown)
  {
  }

  lemma SharedIdExample()
    ensures Outcome(JArray(EchoAll([Paragraph("blk_1", "a"), Paragraph("blk_1", "b")])),
                    [Paragraph("blk_1", "a"), Paragraph("blk_1", "b")], None).Ok?
  {
    TrimOne("a");
    TrimOne("b");
    ByteLengthOne("b");
    SharedIdIsTaken("blk_1", "a", "b");
  }

  lemma TrimOne(s: string)
    requires |s| == 1 && !IsWhite(s[0])
    ensures Trim(s) == s
  {
  }

  lemma ByteLengthOne(s: string)
    requires |s| == 1
    ensures ByteLength(s) == Utf8Width(s[0])
  {
    assert s[1..] == "";
  }

  lemma TwoVerdicts(reason: Reason, op: Op)
    ensures Taken([Err(reason), Ok(op)]) == [op] && Reported([Err(reason), Ok(op)]) == [Skipped(0, reason)]
  {
    var vs: seq<Verdict> := [Err(reason), Ok(op)];
    var one: seq<Verdict> := [Err(reason)];
    assert vs[..1] == one && one[..0] == [];
    assert Taken(one) == Taken(one[..0]) + [] && Reported(one) == Reported(one[..0]) + [Skipped(0, reason)];
  }
}
