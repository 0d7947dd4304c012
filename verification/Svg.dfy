/** The check of rendered SVG (src/diagrams.rs), over the events an XML reader yields. The
    counter of open tags is shown to accept exactly the documents of a grammar. */
module Svg {
  import opened Prelude
  import opened Text

  /** `Unreadable` is an attribute the reader reports an error for. A value is absent when
      it does not decode. */
  datatype Attribute = Attribute(key: string, value: Option<string>) | Unreadable

  /** `Malformed` is the reader's own error; `Other` is a comment, a processing instruction
      or a declaration. */
  datatype Event =
    | Start(name: string, attrs: seq<Attribute>)
    | Empty(name: string, attrs: seq<Attribute>)
    | End
    | Words(text: Option<string>)
    | CData
    | GeneralRef
    | DocType
    | Other
    | Malformed

  datatype Problem = Unavailable | ExternalImage

  // ---- Attributes ----------------------------------------------------------------------

  /** The part of a qualified name after its first colon. */
  function LocalName(name: string): string {
    LocalPart(name, name)
  }

  function LocalPart(name: string, whole: string): string {
    if name == "" then whole else if name[0] == ':' then name[1..] else LocalPart(name[1..], whole)
  }

  predicate IsExternalImage(d2: bool, name: string, key: string, value: string) {
    && d2 && LocalName(name) == "image" && LocalName(key) == "href"
    && !("#" <= value) && !("data:image/" <= value)
  }

  function AttributeProblem(d2: bool, name: string, a: Attribute): Option<Problem> {
    if a.Unreadable? || a.value.None? then Some(Unavailable)
    else if IsExternalImage(d2, name, a.key, a.value.value) then Some(ExternalImage)
    else None
  }

  /** The first problem among the attributes of a tag. */
  function AttributesProblem(d2: bool, name: string, attrs: seq<Attribute>): Option<Problem> {
    if attrs == [] then None
    else if AttributeProblem(d2, name, attrs[0]).Some? then AttributeProblem(d2, name, attrs[0])
    else AttributesProblem(d2, name, attrs[1..])
  }

  predicate IsBlank(text: Option<string>) {
    text.Some? && Trim(text.value) == ""
  }

  // ---- The scan ------------------------------------------------------------------------------

  /** What a tag opening at `depth` is refused for. */
  function TagProblem(d2: bool, name: string, attrs: seq<Attribute>, depth: nat, seen: bool): Option<Problem> {
    if depth == 0 && (seen || name != "svg") then Some(Unavailable) else AttributesProblem(d2, name, attrs)
  }

  function Scan(d2: bool, events: seq<Event>, depth: nat, seen: bool): Option<Problem> {
    if events == [] then if seen && depth == 0 then None else Some(Unavailable)
    else
      var rest := events[1..];
      match events[0]
      case Start(name, attrs) =>
        if TagProblem(d2, name, attrs, depth, seen).Some? then TagProblem(d2, name, attrs, depth, seen)
        else Scan(d2, rest, depth + 1, seen || depth == 0)
      case Empty(name, attrs) =>
        if TagProblem(d2, name, attrs, depth, seen).Some? then TagProblem(d2, name, attrs, depth, seen)
        else Scan(d2, rest, depth, seen || depth == 0)
      case End => if depth == 0 then Some(Unavailable) else Scan(d2, rest, depth - 1, seen)
      case Words(text) =>
        if depth == 0 && !IsBlank(text) then Some(Unavailable) else Scan(d2, rest, depth, seen)
      case CData => if depth == 0 then Some(Unavailable) else Scan(d2, rest, depth, seen)
      case GeneralRef => if depth == 0 then Some(Unavailable) else Scan(d2, rest, depth, seen)
      case DocType => Some(Unavailable)
      case Malformed => Some(Unavailable)
      case Other => Scan(d2, rest, depth, seen)
  }

  method CheckAttributes(d2: bool, name: string, attrs: seq<Attribute>) returns (problem: Option<Problem>)
    ensures problem == AttributesProblem(d2, name, attrs)
  {
    for i := 0 to |attrs|
      invariant AttributesProblem(d2, name, attrs) == AttributesProblem(d2, name, attrs[i..])
    {
      var attr := attrs[i];
      assert attrs[i..][1..] == attrs[i + 1..];
      if attr.Unreadable? || attr.value.None? {
        return Some(Unavailable);
      }
      if IsExternalImage(d2, name, attr.key, attr.value.value) {
        return Some(ExternalImage);
      }
    }
    return None;
  }

  /** `validate_svg`. A document passes exactly when it belongs to the grammar below. */
  method ValidateSvg(d2: bool, events: seq<Event>) returns (problem: Option<Problem>)
    ensures problem == Scan(d2, events, 0, false)
    ensures problem.None? <==> IsDocument(d2, events)
  {
    AcceptsDocuments(d2, events);
    var depth: nat, seen := 0, false;
    for i := 0 to |events|
      invariant Scan(d2, events, 0, false) == Scan(d2, events[i..], depth, seen)
      invariant depth > 0 ==> seen
    {
      var event := events[i];
      assert events[i..][1..] == events[i + 1..];
      if event.Start? || event.Empty? {
        if depth == 0 {
          if seen || event.name != "svg" {
            return Some(Unavailable);
          }
          seen := true;
        }
        problem := CheckAttributes(d2, event.name, event.attrs);
        if problem.Some? {
          return;
        }
        if !event.Empty? {
          depth := depth + 1;
        }
      } else if event.End? {
        if depth == 0 {
          return Some(Unavailable);
        }
        depth := depth - 1;
      } else if event.DocType? || event.Malformed? {
        return Some(Unavailable);
      } else if depth == 0 && event.Words? {
        if !IsBlank(event.text) {
          return Some(Unavailable);
        }
      } else if depth == 0 && (event.CData? || event.GeneralRef?) {
        return Some(Unavailable);
      }
    }
    return if seen && depth == 0 then None else Some(Unavailable);
  }

  // ---- The grammar ----------------------------------------------------------------------------

  datatype Xml =
    | Element(name: string, attrs: seq<Attribute>, children: seq<Xml>)
    | Hollow(name: string, attrs: seq<Attribute>)
    | Leaf(event: Event)

  function Flatten(x: Xml): seq<Event>
    decreases x
  {
    match x
    case Element(name, attrs, children) => [Start(name, attrs)] + FlattenAll(children) + [End]
    case Hollow(name, attrs) => [Empty(name, attrs)]
    case Leaf(event) => [event]
  }

  function FlattenAll(xs: seq<Xml>): seq<Event>
    decreases xs
  {
    if xs == [] then [] else Flatten(xs[0]) + FlattenAll(xs[1..])
  }

  /** `local` is what stands behind the first colon of `name`, or all of it without one. */
  predicate IsLocal(name: string, local: string) {
    || (':' !in name && name == local)
    || exists k :: 0 <= k < |name| && name[k] == ':' && ':' !in name[..k] && name[k + 1..] == local
  }

  /** An attribute that can be read and, in a D2 diagram, does not make an image refer to
      anything but a fragment or embedded image data. */
  predicate AttributeFine(d2: bool, name: string, a: Attribute) {
    && a.Attribute? && a.value.Some?
    && (d2 && IsLocal(name, "image") && IsLocal(a.key, "href")
        ==> "#" <= a.value.value || "data:image/" <= a.value.value)
  }

  predicate AttributesFine(d2: bool, name: string, attrs: seq<Attribute>) {
    forall i :: 0 <= i < |attrs| ==> AttributeFine(d2, name, attrs[i])
  }

  /** What may stand inside an element. */
  predicate Content(e: Event) {
    e.Words? || e.CData? || e.GeneralRef? || e.Other?
  }

  /** What may stand beside the root. */
  predicate Misc(e: Event) {
    e.Other? || (e.Words? && e.text.Some? && AllWhite(e.text.value))
  }

  predicate AllMisc(events: seq<Event>) {
    forall i :: 0 <= i < |events| ==> Misc(events[i])
  }

  predicate Fine(d2: bool, x: Xml)
    decreases x
  {
    match x
    case Element(name, attrs, children) => AttributesFine(d2, name, attrs) && AllFine(d2, children)
    case Hollow(name, attrs) => AttributesFine(d2, name, attrs)
    case Leaf(event) => Content(event)
  }

  predicate AllFine(d2: bool, xs: seq<Xml>)
    decreases xs
  {
    xs == [] || (Fine(d2, xs[0]) && AllFine(d2, xs[1..]))
  }

  predicate IsRoot(x: Xml) {
    !x.Leaf? && x.name == "svg"
  }

  predicate Spells(events: seq<Event>, before: seq<Event>, root: Xml, after: seq<Event>) {
    events == before + Flatten(root) + after && AllMisc(before) && AllMisc(after)
  }

  /** One element called svg, with nothing but blank text, comments and the like around it. */
  ghost predicate IsDocument(d2: bool, events: seq<Event>) {
    exists before, root, after :: Spells(events, before, root, after) && IsRoot(root) && Fine(d2, root)
  }

  // ---- Documents pass -----------------------------------------------------------------------------

  lemma {:induction false} LocalPartIs(name: string, whole: string, before: string)
    requires whole == before + name && ':' !in before
    ensures IsLocal(whole, LocalPart(name, whole))
  {
    if name == "" {
      assert whole == before;
    } else if name[0] == ':' {
      assert whole[|before|] == ':' && whole[..|before|] == before && whole[|before| + 1..] == name[1..];
    } else {
      assert whole == before + [name[0]] + name[1..];
      LocalPartIs(name[1..], whole, before + [name[0]]);
    }
  }

  /** A name has one local part. */
  lemma LocalNameIs(name: string, local: string)
    ensures IsLocal(name, local) <==> LocalName(name) == local
  {
    assert name == "" + name;
    LocalPartIs(name, name, "");
  }

  lemma FineIff(d2: bool, name: string, a: Attribute)
    ensures AttributeProblem(d2, name, a).None? <==> AttributeFine(d2, name, a)
    ensures AttributeProblem(d2, name, a) == Some(Unavailable) <==> a.Unreadable? || a.value.None?
  {
    LocalNameIs(name, "image");
    if a.Attribute? {
      LocalNameIs(a.key, "href");
    }
  }

  /** The first attribute at fault decides: an external image when it can be read. */
  lemma {:induction false} FirstFault(d2: bool, name: string, attrs: seq<Attribute>, k: nat)
    requires k < |attrs| && !AttributeFine(d2, name, attrs[k])
    requires forall j :: 0 <= j < k ==> AttributeFine(d2, name, attrs[j])
    ensures AttributesProblem(d2, name, attrs)
         == Some(if attrs[k].Attribute? && attrs[k].value.Some? then ExternalImage else Unavailable)
  {
    FineIff(d2, name, attrs[0]);
    if k > 0 {
      assert attrs[1..][k - 1] == attrs[k];
      FirstFault(d2, name, attrs[1..], k - 1);
    }
  }

  /** External images are only ever spoken of in D2 diagrams, and for a tag that has one. */
  lemma {:induction false} ExternalHasTag(d2: bool, events: seq<Event>, depth: nat, seen: bool)
    requires Scan(d2, events, depth, seen) == Some(ExternalImage)
    ensures d2 && exists k :: 0 <= k < |events| && (events[k].Start? || events[k].Empty?)
                              && !AttributesFine(d2, events[k].name, events[k].attrs)
  {
    var e, rest := events[0], events[1..];
    if (e.Start? || e.Empty?) && TagProblem(d2, e.name, e.attrs, depth, seen).Some? {
      NoAttributeProblem(d2, e.name, e.attrs);
      ExternalIsD2(d2, e.name, e.attrs);
    } else {
      ExternalHasTag(d2, rest,
                     if e.Start? then depth + 1 else if e.End? then depth - 1 else depth,
                     if e.Start? || e.Empty? then seen || depth == 0 else seen);
      var k :| 0 <= k < |rest| && (rest[k].Start? || rest[k].Empty?) && !AttributesFine(d2, rest[k].name, rest[k].attrs);
      assert events[k + 1] == rest[k];
    }
  }

  lemma {:induction false} ExternalIsD2(d2: bool, name: string, attrs: seq<Attribute>)
    requires AttributesProblem(d2, name, attrs) == Some(ExternalImage)
    ensures d2
  {
    if AttributeProblem(d2, name, attrs[0]).None? {
      ExternalIsD2(d2, name, attrs[1..]);
    }
  }

  lemma {:induction false} NoAttributeProblem(d2: bool, name: string, attrs: seq<Attribute>)
    ensures AttributesProblem(d2, name, attrs).None? <==> AttributesFine(d2, name, attrs)
  {
    if attrs != [] {
      FineIff(d2, name, attrs[0]);
      NoAttributeProblem(d2, name, attrs[1..]);
      assert attrs == [attrs[0]] + attrs[1..];
    }
  }

  lemma ScanHead(d2: bool, e: Event, rest: seq<Event>, depth: nat, seen: bool)
    requires depth > 0 && Content(e)
    ensures Scan(d2, [e] + rest, depth, seen) == Scan(d2, rest, depth, seen)
  {
    assert ([e] + rest)[1..] == rest;
  }

  lemma ScanTag(d2: bool, e: Event, rest: seq<Event>, depth: nat, seen: bool)
    requires e.Start? || e.Empty?
    requires if depth > 0 then seen else !seen && e.name == "svg"
    requires AttributesFine(d2, e.name, e.attrs)
    ensures Scan(d2, [e] + rest, depth, seen) == Scan(d2, rest, if e.Start? then depth + 1 else depth, true)
  {
    NoAttributeProblem(d2, e.name, e.attrs);
    assert ([e] + rest)[1..] == rest;
  }

  lemma ScanEnd(d2: bool, rest: seq<Event>, depth: nat)
    ensures Scan(d2, [End] + rest, depth + 1, true) == Scan(d2, rest, depth, true)
  {
    assert ([End] + rest)[1..] == rest;
  }

  /** An element is scanned through to where it began. */
  lemma {:induction false} ScanElement(d2: bool, x: Xml, rest: seq<Event>, depth: nat, seen: bool)
    requires Fine(d2, x) && (depth > 0 || (!seen && IsRoot(x)))
    requires depth > 0 ==> seen
    ensures Scan(d2, Flatten(x) + rest, depth, seen) == Scan(d2, rest, depth, true)
    decreases x
  {
    match x
    case Element(name, attrs, children) =>
      var inner := FlattenAll(children) + ([End] + rest);
      assert Flatten(x) + rest == [Start(name, attrs)] + inner;
      ScanTag(d2, Start(name, attrs), inner, depth, seen);
      ScanElements(d2, children, [End] + rest, depth + 1);
      ScanEnd(d2, rest, depth);
    case Hollow(name, attrs) => ScanTag(d2, Empty(name, attrs), rest, depth, seen);
    case Leaf(event) => ScanHead(d2, event, rest, depth, seen);
  }

  lemma {:induction false} ScanElements(d2: bool, xs: seq<Xml>, rest: seq<Event>, depth: nat)
    requires AllFine(d2, xs) && depth > 0
    ensures Scan(d2, FlattenAll(xs) + rest, depth, true) == Scan(d2, rest, depth, true)
    decreases xs
  {
    if xs == [] {
      assert FlattenAll(xs) + rest == rest;
    } else {
      assert FlattenAll(xs) + rest == Flatten(xs[0]) + (FlattenAll(xs[1..]) + rest);
      ScanElement(d2, xs[0], FlattenAll(xs[1..]) + rest, depth, true);
      ScanElements(d2, xs[1..], rest, depth);
    }
  }

  lemma BlankIff(e: Event)
    ensures e.Words? ==> (IsBlank(e.text) <==> e.text.Some? && AllWhite(e.text.value))
  {
    if e.Words? && e.text.Some? {
      TrimEmpty(e.text.value);
    }
  }

  lemma {:induction false} ScanMisc(d2: bool, misc: seq<Event>, rest: seq<Event>, seen: bool)
    requires AllMisc(misc)
    ensures Scan(d2, misc + rest, 0, seen) == Scan(d2, rest, 0, seen)
  {
    if misc == [] {
      assert misc + rest == rest;
    } else {
      assert (misc + rest)[1..] == misc[1..] + rest;
      assert Misc(misc[0]);
      BlankIff(misc[0]);
      ScanMisc(d2, misc[1..], rest, seen);
    }
  }

  lemma DocumentPasses(d2: bool, before: seq<Event>, root: Xml, after: seq<Event>)
    requires AllMisc(before) && AllMisc(after) && IsRoot(root) && Fine(d2, root)
    ensures Scan(d2, before + Flatten(root) + after, 0, false).None?
  {
    assert before + Flatten(root) + after == before + (Flatten(root) + after);
    ScanMisc(d2, before, Flatten(root) + after, false);
    ScanElement(d2, root, after, 0, false);
    ScanMisc(d2, after, [], true);
    assert after + [] == after;
  }

  // ---- Only documents pass ----------------------------------------------------------------------------

  predicate Reads(d2: bool, events: seq<Event>, xs: seq<Xml>, rest: seq<Event>) {
    events == FlattenAll(xs) + [End] + rest && AllFine(d2, xs)
  }

  lemma ReadsMore(d2: bool, x: Xml, tail: seq<Event>, others: seq<Xml>, rest: seq<Event>)
    requires Fine(d2, x) && Reads(d2, tail, others, rest)
    ensures Reads(d2, Flatten(x) + tail, [x] + others, rest)
  {
    var xs := [x] + others;
    assert xs[1..] == others;
    assert Flatten(x) + (FlattenAll(others) + [End] + rest) == FlattenAll(xs) + [End] + rest;
  }

  lemma WholeElement(name: string, attrs: seq<Attribute>, children: seq<Xml>, rest: seq<Event>)
    ensures [Start(name, attrs)] + (FlattenAll(children) + [End] + rest) == Flatten(Element(name, attrs, children)) + rest
  {}

  /** Inside an element, a scan that succeeds has read a list of elements and the end tag. */
  lemma {:induction false} ReadElements(d2: bool, events: seq<Event>, depth: nat) returns (xs: seq<Xml>, rest: seq<Event>)
    requires Scan(d2, events, depth + 1, true).None?
    ensures Reads(d2, events, xs, rest)
    ensures Scan(d2, rest, depth, true).None?
    decreases |events|
  {
    var head, tail := events[0], events[1..];
    assert events == [head] + tail;
    if head.End? {
      return [], tail;
    }
    var x: Xml;
    var others: seq<Xml>;
    if head.Start? {
      NoAttributeProblem(d2, head.name, head.attrs);
      var children, middle := ReadElements(d2, tail, depth + 1);
      WholeElement(head.name, head.attrs, children, middle);
      x, tail := Element(head.name, head.attrs, children), middle;
    } else if head.Empty? {
      NoAttributeProblem(d2, head.name, head.attrs);
      x := Hollow(head.name, head.attrs);
    } else {
      x := Leaf(head);
    }
    others, rest := ReadElements(d2, tail, depth);
    ReadsMore(d2, x, tail, others, rest);
    xs := [x] + others;
  }

  lemma {:induction false} ReadAfter(d2: bool, events: seq<Event>)
    requires Scan(d2, events, 0, true).None?
    ensures AllMisc(events)
  {
    if events != [] {
      BlankIff(events[0]);
      ReadAfter(d2, events[1..]);
      assert events == [events[0]] + events[1..];
    }
  }

  lemma {:induction false} ReadDocument(d2: bool, events: seq<Event>)
    returns (before: seq<Event>, root: Xml, after: seq<Event>)
    requires Scan(d2, events, 0, false).None?
    ensures Spells(events, before, root, after) && IsRoot(root) && Fine(d2, root)
    decreases |events|
  {
    var head, tail := events[0], events[1..];
    assert events == [head] + tail;
    if head.Start? {
      NoAttributeProblem(d2, head.name, head.attrs);
      var children;
      children, after := ReadElements(d2, tail, 0);
      WholeElement(head.name, head.attrs, children, after);
      before, root := [], Element(head.name, head.attrs, children);
      ReadAfter(d2, after);
    } else if head.Empty? {
      NoAttributeProblem(d2, head.name, head.attrs);
      before, root, after := [], Hollow(head.name, head.attrs), tail;
      ReadAfter(d2, after);
    } else {
      BlankIff(head);
      var sooner;
      sooner, root, after := ReadDocument(d2, tail);
      before := [head] + sooner;
    }
  }

  /** The one pass with a counter accepts exactly the documents of the grammar. */
  lemma AcceptsDocuments(d2: bool, events: seq<Event>)
    ensures Scan(d2, events, 0, false).None? <==> IsDocument(d2, events)
  {
    if Scan(d2, events, 0, false).None? {
      var before, root, after := ReadDocument(d2, events);
    }
    if IsDocument(d2, events) {
      var before, root, after :| Spells(events, before, root, after) && IsRoot(root) && Fine(d2, root);
      DocumentPasses(d2, before, root, after);
    }
  }
}
