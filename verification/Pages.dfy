/** What the scanner makes of pages that are printed the way a generator prints them. */
module Pages {
  import opened Common
  import opened Prefetch

  /** How an attribute's value is written, if it is. */
  datatype Style = Double | Single | Bare | NoValue

  /** An attribute as it is written: what stands in front of it, its name, and the space on either side of an `=`. */
  datatype Mark = Mark(lead: Path, name: Path, before: Path, after: Path, style: Style, value: Path)

  /**
   A page is text, comments, elements, scripts and styles with a body, and a `<` that starts none of them; and a
   comment, or a script or style, that nothing closes.
   */
  datatype Item =
    | Text(text: Path)
    | Comment(body: Path)
    | Loose(text: Path)
    | Element(name: Path, attrs: seq<Mark>, tail: Path)
    | Raw(name: Path, attrs: seq<Mark>, tail: Path, body: Path)
    | OpenComment(body: Path)
    | OpenRaw(name: Path, attrs: seq<Mark>, tail: Path, body: Path)

  predicate Spaces(s: Path) { forall k :: 0 <= k < |s| ==> IsSpace(s[k]) }

  predicate Between(s: Path) { forall k :: 0 <= k < |s| ==> BetweenAttrs(s[k]) }

  predicate WellNamed(name: Path)
  {
    name != [] && name[0] != SLASH && forall k :: 0 <= k < |name| ==> InAttrName(name[k])
  }

  /** No quote inside the quotes; and without quotes no space and no `>`. */
  predicate WellValued(style: Style, value: Path)
  {
    match style
    case Double => QUOTE !in value
    case Single => APOSTROPHE !in value
    case Bare =>
      && value != [] && value[0] != QUOTE && value[0] != APOSTROPHE
      && forall k :: 0 <= k < |value| ==> InBareValue(value[k])
    case NoValue => value == []
  }

  predicate WellMarked(m: Mark)
  {
    Between(m.lead) && WellNamed(m.name) && Spaces(m.before) && Spaces(m.after) && WellValued(m.style, m.value)
  }

  /** Nothing but a space or the `>` ends a value without quotes, or a name without a value. */
  predicate Open(m: Mark) { m.style.Bare? || m.style.NoValue? }

  predicate Parts(text: Path) { text != [] && IsSpace(text[0]) }

  /** Each attribute is parted from what stands in front of it. */
  predicate WellParted(attrs: seq<Mark>, tail: Path)
  {
    && (forall k :: 0 < k < |attrs| && Open(attrs[k - 1]) ==> Parts(attrs[k].lead))
    && (attrs != [] && Open(attrs[|attrs| - 1]) && tail != [] ==> Parts(tail))
  }

  predicate IsTagName(name: Path) { name != [] && forall k :: 0 <= k < |name| ==> IsAlnum(name[k]) }

  function CloseTag(name: Path): Path { [LT, SLASH] + name + [GT] }

  predicate IsComment(body: Path)
  {
    forall k :: 0 <= k < |body| ==> !There(body + COMMENT_END, k, COMMENT_END)
  }

  predicate AllWellMarked(attrs: seq<Mark>) { forall k :: 0 <= k < |attrs| ==> WellMarked(attrs[k]) }

  predicate WellWritten(attrs: seq<Mark>, tail: Path)
  {
    AllWellMarked(attrs) && Between(tail) && WellParted(attrs, tail)
  }

  predicate IsElement(name: Path, attrs: seq<Mark>, tail: Path)
  {
    IsTagName(name) && WellWritten(attrs, tail) && (attrs != [] ==> attrs[0].lead != [])
  }

  predicate IsBody(name: Path, body: Path)
  {
    forall k :: 0 <= k < |body| ==> !Closes(body + CloseTag(name), k, Lower(name))
  }

  /** A `<` that starts neither a tag nor a comment, as in a closing tag. */
  predicate IsLoose(text: Path)
  {
    text != [] && LT !in text && !IsAlnum(text[0]) && (text[0] == 33 ==> |text| >= 3 && text[..3] != [33, 45, 45])
  }

  /** Script bodies and comments are free of their own terminators. */
  predicate WellFormed(v: Vocabulary, item: Item)
  {
    match item
    case Text(text) => LT !in text
    case Comment(body) => IsComment(body)
    case Loose(text) => IsLoose(text)
    case Element(name, attrs, tail) => !IsRaw(v, Lower(name)) && IsElement(name, attrs, tail)
    case Raw(name, attrs, tail, body) => IsRaw(v, Lower(name)) && IsElement(name, attrs, tail) && IsBody(name, body)
    case OpenComment(body) => forall k :: 0 <= k < |body| ==> !There(body, k, COMMENT_END)
    case OpenRaw(name, attrs, tail, body) =>
      && IsRaw(v, Lower(name)) && IsElement(name, attrs, tail)
      && forall k :: 0 <= k < |body| ==> !Closes(body, k, Lower(name))
  }

  function PrintValue(style: Style, value: Path): Path
  {
    match style
    case Double => [QUOTE] + (value + [QUOTE])
    case Single => [APOSTROPHE] + (value + [APOSTROPHE])
    case Bare => value
    case NoValue => []
  }

  /** What stands behind the name. */
  function PrintRest(m: Mark): Path
  {
    if m.style.NoValue? then [] else m.before + ([EQUALS] + (m.after + PrintValue(m.style, m.value)))
  }

  function PrintAttr(m: Mark): Path { m.lead + (m.name + PrintRest(m)) }

  function PrintAttrs(attrs: seq<Mark>): Path
  {
    if attrs == [] then [] else PrintAttr(attrs[0]) + PrintAttrs(attrs[1..])
  }

  /** All of a tag behind its name. */
  function Ending(attrs: seq<Mark>, tail: Path): Path { PrintAttrs(attrs) + (tail + [GT]) }

  function Head(name: Path, attrs: seq<Mark>, tail: Path): Path { [LT] + name + Ending(attrs, tail) }

  function PrintComment(body: Path): Path { COMMENT + (body + COMMENT_END) }

  function PrintRaw(name: Path, attrs: seq<Mark>, tail: Path, body: Path): Path
  {
    Head(name, attrs, tail) + (body + CloseTag(name))
  }

  function Print(item: Item): Path
  {
    match item
    case Text(text) => text
    case Comment(body) => PrintComment(body)
    case Loose(text) => [LT] + text
    case Element(name, attrs, tail) => Head(name, attrs, tail)
    case Raw(name, attrs, tail, body) => PrintRaw(name, attrs, tail, body)
    case OpenComment(body) => COMMENT + body
    case OpenRaw(name, attrs, tail, body) => Head(name, attrs, tail) + body
  }

  function PrintAll(items: seq<Item>): Path
  {
    if items == [] then [] else Print(items[0]) + PrintAll(items[1..])
  }

  /** Attribute names are recorded in lower case. */
  function Recorded(attrs: seq<Mark>): seq<Attr>
  {
    if attrs == [] then [] else [Attr(Lower(attrs[0].name), attrs[0].value)] + Recorded(attrs[1..])
  }

  predicate HasTag(item: Item) { item.Element? || item.Raw? || item.OpenRaw? }

  /** It runs to the end of the page. */
  predicate IsOpen(item: Item) { item.OpenComment? || item.OpenRaw? }

  /** Only the last item of a page is left open. */
  predicate IsPage(v: Vocabulary, items: seq<Item>)
  {
    && (forall k :: 0 <= k < |items| ==> WellFormed(v, items[k]))
    && forall k :: 0 <= k < |items| - 1 ==> !IsOpen(items[k])
  }

  function RefOf(v: Vocabulary, item: Item): Option<Path>
  {
    if HasTag(item) then Refers(v, Lower(item.name), Recorded(item.attrs)) else None
  }

  // ---- Runs and searches over printed text ----

  lemma RunEndAt(h: Path, i: nat, x: Path, p: byte -> bool)
    requires At(h, i, x) && forall k :: 0 <= k < |x| ==> p(x[k])
    requires i + |x| == |h| || !p(h[i + |x|])
    ensures RunEnd(h, i, p) == i + |x|
  {
    forall k | i <= k < i + |x| ensures p(h[k]) {
      ByteAt(h, i, x, k - i);
    }
  }

  lemma RunEndHere(h: Path, i: nat, p: byte -> bool)
    requires i < |h| && !p(h[i])
    ensures RunEnd(h, i, p) == i
  {
  }

  lemma {:induction false} FindAt(h: Path, from: nat, at: nat, needle: Path)
    requires needle != [] && from <= at && There(h, at, needle)
    requires forall k :: from <= k < at ==> !There(h, k, needle)
    ensures Find(h, from, needle) == Some(at)
    decreases at - from
  {
    if from < at {
      FindAt(h, from + 1, at, needle);
    }
  }

  lemma {:induction false} FindCloseAt(h: Path, from: nat, at: nat, name: Path)
    requires from <= at && Closes(h, at, name)
    requires forall k :: from <= k < at ==> !Closes(h, k, name)
    ensures FindClose(h, from, name) == Some(at)
    decreases at - from
  {
    if from < at {
      FindCloseAt(h, from + 1, at, name);
    }
  }

  lemma ByteAt(h: Path, i: nat, x: Path, k: nat)
    requires At(h, i, x) && k < |x|
    ensures i + k < |h| && h[i + k] == x[k]
  {
    assert h[i..i + |x|][k] == x[k];
  }

  // ---- Attributes ----

  lemma RunEndSkips(h: Path, i: nat, k: nat, p: byte -> bool)
    requires i <= k <= |h| && forall j :: i <= j < k ==> p(h[j])
    ensures RunEnd(h, i, p) == RunEnd(h, k, p)
    decreases k - i
  {
    if i < k {
      RunEndSkips(h, i + 1, k, p);
    }
  }

  lemma QuotedAt(h: Path, i: nat, quote: byte, value: Path)
    requires At(h, i, [quote] + (value + [quote])) && quote !in value && (quote == QUOTE || quote == APOSTROPHE)
    ensures ValueAt(h, i) == Valued(value, i + |value| + 2)
  {
    var end := i + 1 + |value|;
    AtJoined(h, i, [quote], value + [quote]);
    AtJoined(h, i + 1, value, [quote]);
    ByteAt(h, i, [quote], 0);
    assert There(h, end, [quote]);
    forall k | i + 1 <= k < end ensures !There(h, k, [quote]) {
      ByteAt(h, i + 1, value, k - i - 1);
      assert h[k..k + 1] == [h[k]];
    }
    FindAt(h, i + 1, end, [quote]);
  }

  /** A value without quotes ends at a space or the end of the tag. */
  predicate Ends(h: Path, i: nat) { i < |h| && (IsSpace(h[i]) || h[i] == GT) }

  lemma BareAt(h: Path, i: nat, value: Path)
    requires At(h, i, value) && WellValued(Bare, value) && Ends(h, i + |value|)
    ensures ValueAt(h, i) == Valued(value, i + |value|)
  {
    ByteAt(h, i, value, 0);
    RunEndAt(h, i, value, InBareValue);
  }

  lemma ValuePrinted(h: Path, i: nat, style: Style, value: Path)
    requires At(h, i, PrintValue(style, value)) && WellValued(style, value) && !style.NoValue?
    requires style.Bare? ==> Ends(h, i + |value|)
    ensures i < |h| && !IsSpace(h[i]) && ValueAt(h, i) == Valued(value, i + |PrintValue(style, value)|)
  {
    hide ValueAt;
    match style
    case Double =>
      AtJoined(h, i, [QUOTE], value + [QUOTE]);
      ByteAt(h, i, [QUOTE], 0);
      QuotedAt(h, i, QUOTE, value);
    case Single =>
      AtJoined(h, i, [APOSTROPHE], value + [APOSTROPHE]);
      ByteAt(h, i, [APOSTROPHE], 0);
      QuotedAt(h, i, APOSTROPHE, value);
    case Bare =>
      ByteAt(h, i, value, 0);
      BareAt(h, i, value);
  }

  /** From what stands in front of a name to the end of it. */
  predicate NameSpans(h: Path, i: nat, end: nat, name: Path)
  {
    && i < end <= |h| && RunEnd(h, i, BetweenAttrs) == end - |name| >= 0 && |name| > 0
    && h[end - |name|] != GT && RunEnd(h, end - |name|, InAttrName) == end && h[end - |name|..end] == name
  }

  lemma NameAt(h: Path, i: nat, lead: Path, name: Path)
    requires At(h, i, lead) && At(h, i + |lead|, name) && Between(lead) && WellNamed(name)
    requires var end := i + |lead| + |name|; end == |h| || !InAttrName(h[end])
    ensures NameSpans(h, i, i + |lead| + |name|, name)
  {
    ByteAt(h, i + |lead|, name, 0);
    assert InAttrName(name[0]);
    RunEndAt(h, i, lead, BetweenAttrs);
    RunEndAt(h, i + |lead|, name, InAttrName);
  }

  lemma AttrPutTogether(h: Path, i: nat, end: nat, name: Path, equals: nat, at: nat, v: Valued)
    requires NameSpans(h, i, end, name) && RunEnd(h, end, IsSpace) == equals < |h| && h[equals] == EQUALS
    requires RunEnd(h, equals + 1, IsSpace) == at < |h| && ValueAt(h, at) == v
    ensures AttrAt(h, i) == Another(Attr(Lower(name), v.value), v.next)
  {
    hide ValueAt, RunEnd;
  }

  /** An equals sign with space around it, between a name and its value. */
  lemma EqualsAt(h: Path, end: nat, before: Path, after: Path, value: Path)
    requires At(h, end, before + ([EQUALS] + (after + value))) && Spaces(before) && Spaces(after)
    requires value != [] && !IsSpace(value[0])
    ensures var equals := end + |before|; var at := equals + 1 + |after|;
      && equals < |h| && h[equals] == EQUALS && RunEnd(h, end, IsSpace) == equals
      && RunEnd(h, equals + 1, IsSpace) == at < |h| && At(h, at, value) && end < |h| && !InAttrName(h[end])
  {
    hide At;
    var equals := end + |before|;
    AtJoined(h, end, before, [EQUALS] + (after + value));
    AtJoined(h, equals, [EQUALS], after + value);
    AtJoined(h, equals + 1, after, value);
    ByteAt(h, equals, [EQUALS], 0);
    ByteAt(h, equals + 1 + |after|, value, 0);
    if before != [] {
      ByteAt(h, end, before, 0);
    }
    RunEndAt(h, end, before, IsSpace);
    RunEndAt(h, equals + 1, after, IsSpace);
  }

  lemma AttrPrinted(h: Path, i: nat, m: Mark)
    requires At(h, i, PrintAttr(m)) && WellMarked(m) && !m.style.NoValue?
    requires m.style.Bare? ==> Ends(h, i + |PrintAttr(m)|)
    ensures AttrAt(h, i) == Another(Attr(Lower(m.name), m.value), i + |PrintAttr(m)|)
  {
    hide AttrAt, ValueAt, RunEnd, PrintValue, Lower, InAttrName, IsSpace, NameSpans, At, Between, Spaces, WellNamed,
      WellValued, Ends, PrintAttr;
    var value := PrintValue(m.style, m.value);
    var start := i + |m.lead|;
    var end := start + |m.name|;
    var equals := end + |m.before|;
    var at := equals + 1 + |m.after|;
    MarkParts(h, i, m);
    ValueStarts(m.style, m.value);
    EqualsAt(h, end, m.before, m.after, value);
    NameAt(h, i, m.lead, m.name);
    ValueEnds(m.style, m.value);
    ValuePrinted(h, at, m.style, m.value);
    AttrPutTogether(h, i, end, m.name, equals, at, Valued(m.value, at + |value|));
  }

  lemma MarkParts(h: Path, i: nat, m: Mark)
    requires At(h, i, PrintAttr(m)) && !m.style.NoValue?
    ensures At(h, i, m.lead) && At(h, i + |m.lead|, m.name)
    ensures var value := PrintValue(m.style, m.value); var end := i + |m.lead| + |m.name|;
      && At(h, end, m.before + ([EQUALS] + (m.after + value)))
      && i + |PrintAttr(m)| == end + |m.before| + 1 + |m.after| + |value|
  {
    hide At;
    AtJoined(h, i, m.lead, m.name + PrintRest(m));
    AtJoined(h, i + |m.lead|, m.name, PrintRest(m));
  }

  lemma ValueEnds(style: Style, value: Path)
    ensures style.Bare? ==> PrintValue(style, value) == value
  {
  }

  lemma ValueStarts(style: Style, value: Path)
    requires WellValued(style, value) && !style.NoValue?
    ensures PrintValue(style, value) != [] && !IsSpace(PrintValue(style, value)[0])
  {
    if style.Bare? {
      assert InBareValue(value[0]);
    }
  }

  /** A name without a value, and the space behind it. */
  lemma NamePrinted(h: Path, i: nat, m: Mark)
    requires At(h, i, PrintAttr(m)) && WellMarked(m) && m.style.NoValue? && Ends(h, i + |PrintAttr(m)|)
    requires var next := RunEnd(h, i + |PrintAttr(m)|, BetweenAttrs); next < |h| && h[next] != EQUALS
    ensures AttrAt(h, i) == Another(Attr(Lower(m.name), []), RunEnd(h, i + |PrintAttr(m)|, IsSpace))
    ensures AttrsFrom(h, RunEnd(h, i + |PrintAttr(m)|, IsSpace)) == AttrsFrom(h, i + |PrintAttr(m)|)
  {
    hide Lower, AttrsFrom, ValueAt, AttrAt, At, PrintAttr, NameSpans;
    var end := i + |m.lead| + |m.name|;
    NoRest(m);
    AtJoined(h, i, m.lead, m.name);
    NameAt(h, i, m.lead, m.name);
    var skipped := RunEnd(h, end, IsSpace);
    RunEndSkips(h, end, skipped, BetweenAttrs);
    SameAttrs(h, end, skipped);
    BareName(h, i, end, m.name, skipped);
  }

  lemma NoRest(m: Mark)
    requires m.style.NoValue?
    ensures PrintAttr(m) == m.lead + m.name
  {
    assert m.name + [] == m.name;
  }

  lemma BareName(h: Path, i: nat, end: nat, name: Path, next: nat)
    requires NameSpans(h, i, end, name) && RunEnd(h, end, IsSpace) == next && (next == |h| || h[next] != EQUALS)
    ensures AttrAt(h, i) == Another(Attr(Lower(name), []), next)
  {
    hide ValueAt, RunEnd, Lower;
  }

  lemma SameAttrs(h: Path, i: nat, k: nat)
    requires i <= |h| && k <= |h| && RunEnd(h, i, BetweenAttrs) == RunEnd(h, k, BetweenAttrs)
    ensures AttrsFrom(h, i) == AttrsFrom(h, k)
  {
    hide RunEnd, ValueAt;
    assert AttrAt(h, i) == AttrAt(h, k);
  }

  lemma AttrsNext(h: Path, i: nat, a: Attr, j: nat, rest: Tagged)
    requires i <= |h| && AttrAt(h, i) == Another(a, j) && AttrsFrom(h, j) == rest
    ensures AttrsFrom(h, i) == Tagged([a] + rest.attrs, rest.i)
  {
    hide AttrAt;
  }

  lemma AttrsEnd(h: Path, i: nat, tail: Path)
    requires At(h, i, tail + [GT]) && Between(tail)
    ensures AttrsFrom(h, i) == Tagged([], i + |tail|)
  {
    hide At, ValueAt;
    AtJoined(h, i, tail, [GT]);
    ByteAt(h, i + |tail|, [GT], 0);
    RunEndAt(h, i, tail, BetweenAttrs);
  }

  /** What comes next is parted from what stands in front of it, and no equals sign. */
  lemma NextStarts(h: Path, i: nat, attrs: seq<Mark>, tail: Path)
    requires At(h, i, Ending(attrs, tail)) && AllWellMarked(attrs) && Between(tail)
    ensures var next := RunEnd(h, i, BetweenAttrs); next < |h| && h[next] != EQUALS
    ensures (if attrs == [] then tail == [] || Parts(tail) else Parts(attrs[0].lead)) ==> Ends(h, i)
  {
    hide RunEnd, At, Ending;
    var lead := if attrs == [] then tail else attrs[0].lead;
    var next := if attrs == [] then [GT] else attrs[0].name;
    LeadAt(h, i, attrs, tail);
    ByteAt(h, i + |lead|, next, 0);
    assert attrs != [] ==> WellMarked(attrs[0]) && InAttrName(next[0]);
    RunEndAt(h, i, lead, BetweenAttrs);
    if lead != [] {
      ByteAt(h, i, lead, 0);
    }
  }

  lemma LeadAt(h: Path, i: nat, attrs: seq<Mark>, tail: Path)
    requires At(h, i, Ending(attrs, tail))
    ensures At(h, i, if attrs == [] then tail else attrs[0].lead)
    ensures attrs == [] ==> At(h, i + |tail|, [GT]) && i + |tail| < |h|
    ensures attrs != [] ==> At(h, i + |attrs[0].lead|, attrs[0].name)
  {
    hide At;
    if attrs == [] {
      assert Ending(attrs, tail) == tail + [GT];
      AtJoined(h, i, tail, [GT]);
      GtIn(h, i + |tail|);
    } else {
      var m := attrs[0];
      AtJoined(h, i, PrintAttrs(attrs), tail + [GT]);
      AtJoined(h, i, PrintAttr(m), PrintAttrs(attrs[1..]));
      AtJoined(h, i, m.lead, m.name + PrintRest(m));
      AtJoined(h, i + |m.lead|, m.name, PrintRest(m));
    }
  }

  lemma GtIn(h: Path, i: nat)
    requires At(h, i, [GT])
    ensures i < |h|
  {
  }

  lemma WrittenNext(attrs: seq<Mark>, tail: Path)
    requires WellWritten(attrs, tail) && attrs != []
    ensures WellMarked(attrs[0]) && WellWritten(attrs[1..], tail)
    ensures Open(attrs[0]) ==>
      if attrs[1..] == [] then tail == [] || Parts(tail) else Parts(attrs[1..][0].lead)
    ensures Ending(attrs, tail) == PrintAttr(attrs[0]) + Ending(attrs[1..], tail)
  {
    var rest := attrs[1..];
    forall k | 0 < k < |rest| && Open(rest[k - 1]) ensures Parts(rest[k].lead) {
      assert rest[k] == attrs[k + 1] && rest[k - 1] == attrs[k];
    }
    assert rest != [] ==> rest[|rest| - 1] == attrs[|attrs| - 1] && rest[0] == attrs[1];
  }

  /** The attributes of a tag are read as they were written, their names in lower case. */
  lemma {:induction false} AttrsPrinted(h: Path, i: nat, attrs: seq<Mark>, tail: Path)
    requires At(h, i, Ending(attrs, tail)) && WellWritten(attrs, tail)
    ensures AttrsFrom(h, i) == Tagged(Recorded(attrs), i + |PrintAttrs(attrs)| + |tail|)
    decreases |attrs|
  {
    hide AttrAt, PrintAttr, AttrsFrom, Lower, WellMarked, WellWritten, Ends, RunEnd, Open, Parts, Ending;
    if attrs == [] {
      NothingWritten(h, i, tail);
    } else {
      var m, rest := attrs[0], attrs[1..];
      var j := i + |PrintAttr(m)|;
      WrittenNext(attrs, tail);
      AtJoined(h, i, PrintAttr(m), Ending(rest, tail));
      AttrsPrinted(h, j, rest, tail);
      FirstPrinted(h, i, m, rest, tail);
    }
  }

  lemma NothingWritten(h: Path, i: nat, tail: Path)
    requires At(h, i, Ending([], tail)) && WellWritten([], tail)
    ensures AttrsFrom(h, i) == Tagged([], i + |tail|)
  {
    assert [] + (tail + [GT]) == tail + [GT];
    AttrsEnd(h, i, tail);
  }

  lemma FirstPrinted(h: Path, i: nat, m: Mark, rest: seq<Mark>, tail: Path)
    requires At(h, i, PrintAttr(m)) && At(h, i + |PrintAttr(m)|, Ending(rest, tail))
    requires WellMarked(m) && WellWritten(rest, tail)
    requires Open(m) ==> if rest == [] then tail == [] || Parts(tail) else Parts(rest[0].lead)
    ensures var later := AttrsFrom(h, i + |PrintAttr(m)|);
      AttrsFrom(h, i) == Tagged([Attr(Lower(m.name), m.value)] + later.attrs, later.i)
  {
    hide AttrAt, PrintAttr, AttrsFrom, Lower, Ending, RunEnd, Ends, Parts;
    var j := i + |PrintAttr(m)|;
    NextStarts(h, j, rest, tail);
    if m.style.NoValue? {
      NamePrinted(h, i, m);
      AttrsNext(h, i, Attr(Lower(m.name), []), RunEnd(h, j, IsSpace), AttrsFrom(h, j));
    } else {
      AttrPrinted(h, i, m);
      AttrsNext(h, i, Attr(Lower(m.name), m.value), j, AttrsFrom(h, j));
    }
  }

  // ---- One item at a time ----

  /** The scan from i with out comes to the same as the scan from j with out'. */
  predicate GoesOn(v: Vocabulary, h: Path, i: nat, out: seq<Path>, max: nat, j: nat, out': seq<Path>)
  {
    i <= |h| && j <= |h| && ScanFrom(v, h, i, out, max) == ScanFrom(v, h, j, out', max)
  }

  lemma Moves(v: Vocabulary, h: Path, i: nat, out: seq<Path>, max: nat)
    requires i < |h| && |out| < max && MoveAt(v, h, i).Go?
    ensures GoesOn(v, h, i, out, max, MoveAt(v, h, i).next, Pushed(out, MoveAt(v, h, i).raw))
  {
  }

  lemma {:induction false} TextAt(v: Vocabulary, h: Path, i: nat, text: Path, out: seq<Path>, max: nat)
    requires At(h, i, text) && LT !in text && |out| < max
    ensures GoesOn(v, h, i, out, max, i + |text|, out)
    decreases |text|
  {
    hide ScanFrom, TagMove;
    if text != [] {
      ByteAt(h, i, text, 0);
      assert text == [text[0]] + text[1..];
      AtJoined(h, i, [text[0]], text[1..]);
      Moves(v, h, i, out, max);
      TextAt(v, h, i + 1, text[1..], out, max);
    }
  }

  lemma ThereWithin(h: Path, i: nat, x: Path, k: nat, needle: Path)
    requires At(h, i, x) && k + |needle| <= |x|
    ensures There(h, i + k, needle) <==> There(x, k, needle)
  {
    forall j | i + k <= j < i + k + |needle| ensures h[j] == x[j - i] {
      ByteAt(h, i, x, j - i);
    }
    assert h[i + k..i + k + |needle|] == x[k..k + |needle|];
  }

  lemma CommentAt(v: Vocabulary, h: Path, i: nat, body: Path, out: seq<Path>, max: nat)
    requires At(h, i, PrintComment(body)) && IsComment(body) && |out| < max
    ensures GoesOn(v, h, i, out, max, i + |PrintComment(body)|, out)
  {
    hide ScanFrom, TagMove;
    var rest := body + COMMENT_END;
    AtJoined(h, i, COMMENT, rest);
    ByteAt(h, i, COMMENT, 0);
    AtJoined(h, i + 4, body, COMMENT_END);
    var at := i + 4 + |body|;
    assert There(h, at, COMMENT_END);
    forall k | i + 4 <= k < at ensures !There(h, k, COMMENT_END) {
      ThereWithin(h, i + 4, rest, k - i - 4, COMMENT_END);
    }
    FindAt(h, i + 4, at, COMMENT_END);
    assert MoveAt(v, h, i) == Go(at + 3, None);
    Moves(v, h, i, out, max);
  }

  lemma NotComment(h: Path, i: nat)
    requires i + 1 < |h| && h[i + 1] != 33
    ensures !There(h, i, COMMENT)
  {
    var w := h[i..Min(i + 4, |h|)];
    assert w[1] == h[i + 1];
  }

  /** A `<` that starts no tag and no comment, and then text. */
  lemma LooseAt(v: Vocabulary, h: Path, i: nat, text: Path, out: seq<Path>, max: nat)
    requires At(h, i, [LT] + text) && IsLoose(text) && |out| < max
    ensures GoesOn(v, h, i, out, max, i + 1 + |text|, out)
  {
    hide ScanFrom;
    AtJoined(h, i, [LT], text);
    ByteAt(h, i, [LT], 0);
    ByteAt(h, i + 1, text, 0);
    if text[0] != 33 {
      NotComment(h, i);
    } else if There(h, i, COMMENT) {
      DashesAre(h, i, text);
      assert false;
    }
    RunEndHere(h, i + 1, IsAlnum);
    assert h[i + 1..i + 1] == [];
    assert MoveAt(v, h, i) == Go(i + 1, None);
    Moves(v, h, i, out, max);
    TextAt(v, h, i + 1, text, out, max);
  }

  lemma DashesAre(h: Path, i: nat, text: Path)
    requires At(h, i + 1, text) && |text| >= 3 && There(h, i, COMMENT)
    ensures text[..3] == [33, 45, 45]
  {
    assert At(h, i, COMMENT);
    forall k | 0 <= k < 3 ensures text[..3][k] == [33, 45, 45][k] {
      ByteAt(h, i + 1, text, k);
      ByteAt(h, i, COMMENT, k + 1);
    }
  }

  /** What follows the name of a tag is no part of it. */
  lemma AfterName(h: Path, i: nat, attrs: seq<Mark>, tail: Path)
    requires At(h, i, Ending(attrs, tail)) && AllWellMarked(attrs) && Between(tail)
    requires attrs != [] ==> attrs[0].lead != []
    ensures i < |h| && !IsAlnum(h[i])
  {
    ByteAt(h, i, Ending(attrs, tail), 0);
    if attrs != [] {
      assert Ending(attrs, tail)[0] == attrs[0].lead[0] && BetweenAttrs(attrs[0].lead[0]);
    } else {
      assert Ending(attrs, tail) == tail + [GT];
    }
  }

  /** The tag at i has this name, up to end. */
  predicate NameRead(h: Path, i: nat, end: nat, name: Path)
  {
    && i + 1 < end < |h| && h[i] == LT && IsAlnum(h[i + 1])
    && RunEnd(h, i + 1, IsAlnum) == end && h[i + 1..end] == name
  }

  lemma HeadParts(h: Path, i: nat, name: Path, attrs: seq<Mark>, tail: Path)
    requires At(h, i, Head(name, attrs, tail)) && IsElement(name, attrs, tail)
    ensures var end := i + 1 + |name|;
      && NameRead(h, i, end, name)
      && At(h, end, Ending(attrs, tail))
      && i + |Head(name, attrs, tail)| == end + |PrintAttrs(attrs)| + |tail| + 1
  {
    hide PrintAttrs;
    AtJoined(h, i, [LT] + name, Ending(attrs, tail));
    AtJoined(h, i, [LT], name);
    var end := i + 1 + |name|;
    ByteAt(h, i, [LT], 0);
    ByteAt(h, i + 1, name, 0);
    AfterName(h, end, attrs, tail);
    RunEndAt(h, i + 1, name, IsAlnum);
  }

  /** The tag at i is read as this one, up to `after`. */
  predicate TagRead(v: Vocabulary, h: Path, i: nat, after: nat, name: Path, attrs: seq<Attr>)
  {
    i < |h| && after <= |h| && MoveAt(v, h, i) == Go(AfterTag(v, h, after, name), Refers(v, name, attrs))
  }

  lemma TagPutTogether(v: Vocabulary, h: Path, i: nat, name: Path, end: nat, attrs: seq<Attr>, close: nat)
    requires NameRead(h, i, end, name)
    requires AttrsFrom(h, end) == Tagged(attrs, close) && close < |h|
    ensures TagRead(v, h, i, close + 1, Lower(name), attrs)
  {
    NotComment(h, i);
    assert Lower(name) != [];
    assert MoveAt(v, h, i) == TagMove(v, h, i);
  }

  lemma HeadAt(v: Vocabulary, h: Path, i: nat, name: Path, attrs: seq<Mark>, tail: Path)
    requires At(h, i, Head(name, attrs, tail)) && IsElement(name, attrs, tail)
    ensures TagRead(v, h, i, i + |Head(name, attrs, tail)|, Lower(name), Recorded(attrs))
  {
    hide MoveAt, AfterTag, Refers, AttrsFrom, RunEnd, Head, Recorded, NameRead, TagRead, IsTagName, WellWritten;
    var end := i + 1 + |name|;
    HeadParts(h, i, name, attrs, tail);
    AttrsPrinted(h, end, attrs, tail);
    TagPutTogether(v, h, i, name, end, Recorded(attrs), end + |PrintAttrs(attrs)| + |tail|);
  }

  lemma LowerTwice(name: Path)
    ensures Lower(Lower(name)) == Lower(name)
  {
  }

  lemma ClosesWithin(h: Path, i: nat, x: Path, k: nat, name: Path)
    requires At(h, i, x) && k + 2 + |name| <= |x|
    ensures Closes(h, i + k, name) <==> Closes(x, k, name)
  {
    forall j | i + k <= j < i + k + 2 + |name| ensures h[j] == x[j - i] {
      ByteAt(h, i, x, j - i);
    }
    assert h[i + k + 2..i + k + 2 + |name|] == x[k + 2..k + 2 + |name|];
  }

  lemma CloseTagCloses(name: Path)
    ensures Closes(CloseTag(name), 0, Lower(name))
  {
    LowerTwice(name);
    assert CloseTag(name)[2..2 + |name|] == name;
  }

  /** Raw text ends at its closing tag, whatever is in it. */
  lemma BodyAt(h: Path, i: nat, name: Path, body: Path)
    requires At(h, i, body + CloseTag(name)) && IsBody(name, body)
    ensures FindClose(h, i, Lower(name)) == Some(i + |body|) && At(h, i + |body|, CloseTag(name))
  {
    hide FindClose, Closes, Lower;
    var x := body + CloseTag(name);
    AtJoined(h, i, body, CloseTag(name));
    CloseTagCloses(name);
    ClosesWithin(h, i + |body|, CloseTag(name), 0, Lower(name));
    forall k | i <= k < i + |body| ensures !Closes(h, k, Lower(name)) {
      ClosesWithin(h, i, x, k - i, Lower(name));
    }
    FindCloseAt(h, i, i + |body|, Lower(name));
  }

  lemma FullStops(v: Vocabulary, h: Path, i: nat, j: nat, out: seq<Path>, max: nat)
    requires i <= |h| && j <= |h| && |out| >= max
    ensures GoesOn(v, h, i, out, max, j, out)
  {
  }

  lemma NoSlashInName(name: Path)
    requires IsTagName(name)
    ensures LT !in name
  {
  }

  lemma TagGoesOn(v: Vocabulary, h: Path, i: nat, after: nat, name: Path, attrs: seq<Attr>, out: seq<Path>, max: nat)
    requires TagRead(v, h, i, after, name, attrs) && |out| < max
    ensures GoesOn(v, h, i, out, max, AfterTag(v, h, after, name), Pushed(out, Refers(v, name, attrs)))
  {
    Moves(v, h, i, out, max);
  }

  lemma PlainElementAt(
    v: Vocabulary, h: Path, i: nat, name: Path, attrs: seq<Mark>, tail: Path, out: seq<Path>, max: nat)
    requires !IsRaw(v, Lower(name)) && At(h, i, Head(name, attrs, tail)) && IsElement(name, attrs, tail) && |out| < max
    ensures GoesOn(v, h, i, out, max, i + |Head(name, attrs, tail)|,
      Pushed(out, Refers(v, Lower(name), Recorded(attrs))))
  {
    hide ScanFrom, Refers;
    HeadAt(v, h, i, name, attrs, tail);
    TagGoesOn(v, h, i, i + |Head(name, attrs, tail)|, Lower(name), Recorded(attrs), out, max);
  }

  lemma AfterRaw(v: Vocabulary, h: Path, after: nat, name: Path, at: nat)
    requires after <= |h| && IsRaw(v, name) && FindClose(h, after, name) == Some(at)
    ensures AfterTag(v, h, after, name) == at
  {
  }

  lemma RawHeadAt(
    v: Vocabulary, h: Path, i: nat, name: Path, attrs: seq<Mark>, tail: Path, at: nat, out: seq<Path>, max: nat)
    requires IsRaw(v, Lower(name)) && At(h, i, Head(name, attrs, tail)) && IsElement(name, attrs, tail) && |out| < max
    requires FindClose(h, i + |Head(name, attrs, tail)|, Lower(name)) == Some(at)
    ensures GoesOn(v, h, i, out, max, at, Pushed(out, Refers(v, Lower(name), Recorded(attrs))))
  {
    hide ScanFrom, MoveAt, AfterTag, Refers, IsElement, Head, Recorded, Lower, At, FindClose, TagRead;
    var after := i + |Head(name, attrs, tail)|;
    HeadAt(v, h, i, name, attrs, tail);
    TagGoesOn(v, h, i, after, Lower(name), Recorded(attrs), out, max);
    AfterRaw(v, h, after, Lower(name), at);
  }

  lemma CloseOrStop(v: Vocabulary, h: Path, i: nat, name: Path, out: seq<Path>, max: nat)
    requires At(h, i, CloseTag(name)) && IsTagName(name)
    ensures GoesOn(v, h, i, out, max, i + |CloseTag(name)|, out)
  {
    hide ScanFrom, GoesOn;
    var text := [SLASH] + name + [GT];
    assert CloseTag(name) == [LT] + text;
    NoSlashInName(name);
    if |out| < max {
      LooseAt(v, h, i, text, out, max);
    } else {
      FullStops(v, h, i, i + |CloseTag(name)|, out, max);
    }
  }

  lemma RawElementAt(
    v: Vocabulary, h: Path, i: nat, name: Path, attrs: seq<Mark>, tail: Path, body: Path, out: seq<Path>, max: nat)
    requires IsRaw(v, Lower(name)) && At(h, i, PrintRaw(name, attrs, tail, body)) && |out| < max
    requires IsElement(name, attrs, tail) && IsBody(name, body)
    ensures GoesOn(v, h, i, out, max, i + |PrintRaw(name, attrs, tail, body)|,
      Pushed(out, Refers(v, Lower(name), Recorded(attrs))))
  {
    hide ScanFrom, Refers;
    var after := i + |Head(name, attrs, tail)|;
    var at := after + |body|;
    AtJoined(h, i, Head(name, attrs, tail), body + CloseTag(name));
    BodyAt(h, after, name, body);
    RawHeadAt(v, h, i, name, attrs, tail, at, out, max);
    CloseOrStop(v, h, at, name, Pushed(out, Refers(v, Lower(name), Recorded(attrs))), max);
    assert at + |CloseTag(name)| == i + |PrintRaw(name, attrs, tail, body)|;
  }

  lemma {:induction false} FindNone(h: Path, from: nat, needle: Path)
    requires needle != [] && forall k :: from <= k < |h| ==> !There(h, k, needle)
    ensures Find(h, from, needle) == None
    decreases |h| - from
  {
    if from + |needle| <= |h| {
      FindNone(h, from + 1, needle);
    }
  }

  lemma {:induction false} FindCloseNone(h: Path, from: nat, name: Path)
    requires forall k :: from <= k < |h| ==> !Closes(h, k, name)
    ensures FindClose(h, from, name) == None
    decreases |h| - from
  {
    if from + 2 + |name| <= |h| {
      FindCloseNone(h, from + 1, name);
    }
  }

  /** A comment that nothing closes is the end of the page. */
  lemma OpenCommentAt(v: Vocabulary, h: Path, i: nat, item: Item, out: seq<Path>, max: nat)
    requires item.OpenComment? && WellFormed(v, item) && At(h, i, Print(item)) && |out| < max
    requires i + |Print(item)| == |h|
    ensures GoesOn(v, h, i, out, max, |h|, out)
  {
    hide TagMove;
    var body := item.body;
    AtJoined(h, i, COMMENT, body);
    ByteAt(h, i, COMMENT, 0);
    forall k | i + 4 <= k < |h| ensures !There(h, k, COMMENT_END) {
      if k + 3 <= |h| {
        ThereWithin(h, i + 4, body, k - i - 4, COMMENT_END);
      }
    }
    FindNone(h, i + 4, COMMENT_END);
    assert MoveAt(v, h, i) == Stop;
  }

  /** A body that nothing closes is passed over to the end of the page. */
  lemma OpenRawAt(v: Vocabulary, h: Path, i: nat, item: Item, out: seq<Path>, max: nat)
    requires item.OpenRaw? && WellFormed(v, item) && At(h, i, Print(item)) && |out| < max
    requires i + |Print(item)| == |h|
    ensures var raw := RefOf(v, item); GoesOn(v, h, i, out, max, |h|, Pushed(out, raw))
  {
    hide ScanFrom, MoveAt, AfterTag, Refers, Closes, Head, IsElement, Lower, GoesOn;
    var head := Head(item.name, item.attrs, item.tail);
    var after, name := i + |head|, Lower(item.name);
    AtJoined(h, i, head, item.body);
    forall k | after <= k < |h| ensures !Closes(h, k, name) {
      ClosesOnlyWithin(h, after, item.body, k - after, name);
    }
    FindCloseNone(h, after, name);
    HeadAt(v, h, i, item.name, item.attrs, item.tail);
    TagGoesOn(v, h, i, after, name, Recorded(item.attrs), out, max);
    AfterOpenRaw(v, h, after, name);
  }

  lemma ClosesOnlyWithin(h: Path, i: nat, x: Path, k: nat, name: Path)
    requires At(h, i, x) && i + |x| == |h| && k < |x| && !Closes(x, k, name)
    ensures !Closes(h, i + k, name)
  {
    if k + 2 + |name| <= |x| {
      ClosesWithin(h, i, x, k, name);
    }
  }

  lemma AfterOpenRaw(v: Vocabulary, h: Path, after: nat, name: Path)
    requires after <= |h| && IsRaw(v, name) && FindClose(h, after, name) == None
    ensures AfterTag(v, h, after, name) == |h|
  {
  }

  lemma OtherAt(v: Vocabulary, h: Path, i: nat, item: Item, out: seq<Path>, max: nat)
    requires !HasTag(item) && !IsOpen(item) && WellFormed(v, item) && At(h, i, Print(item)) && |out| < max
    ensures GoesOn(v, h, i, out, max, i + |Print(item)|, out)
  {
    hide ScanFrom;
    match item
    case Text(text) => TextAt(v, h, i, text, out, max);
    case Comment(body) => CommentAt(v, h, i, body, out, max);
    case Loose(text) => LooseAt(v, h, i, text, out, max);
  }

  lemma ElementAt(v: Vocabulary, h: Path, i: nat, item: Item, out: seq<Path>, max: nat)
    requires item.Element? && WellFormed(v, item) && At(h, i, Print(item)) && |out| < max
    ensures var raw := RefOf(v, item); GoesOn(v, h, i, out, max, i + |Print(item)|, Pushed(out, raw))
  {
    hide ScanFrom;
    PlainElementAt(v, h, i, item.name, item.attrs, item.tail, out, max);
  }

  lemma RawAt(v: Vocabulary, h: Path, i: nat, item: Item, out: seq<Path>, max: nat)
    requires item.Raw? && WellFormed(v, item) && At(h, i, Print(item)) && |out| < max
    ensures var raw := RefOf(v, item); GoesOn(v, h, i, out, max, i + |Print(item)|, Pushed(out, raw))
  {
    hide ScanFrom, PrintRaw, At, Refers, GoesOn, IsRaw, IsElement, IsBody;
    RawElementAt(v, h, i, item.name, item.attrs, item.tail, item.body, out, max);
  }

  lemma ItemAt(v: Vocabulary, h: Path, i: nat, item: Item, out: seq<Path>, max: nat)
    requires WellFormed(v, item) && At(h, i, Print(item)) && |out| < max
    requires IsOpen(item) ==> i + |Print(item)| == |h|
    ensures var raw := RefOf(v, item); GoesOn(v, h, i, out, max, i + |Print(item)|, Pushed(out, raw))
  {
    if item.Element? {
      ElementAt(v, h, i, item, out, max);
    } else if item.Raw? {
      RawAt(v, h, i, item, out, max);
    } else if item.OpenComment? {
      OpenCommentAt(v, h, i, item, out, max);
    } else if item.OpenRaw? {
      OpenRawAt(v, h, i, item, out, max);
    } else {
      OtherAt(v, h, i, item, out, max);
    }
  }

  // ---- A whole page ----

  function Refs(v: Vocabulary, items: seq<Item>): seq<Option<Path>>
  {
    if items == [] then [] else [RefOf(v, items[0])] + Refs(v, items[1..])
  }

  function PushedAll(out: seq<Path>, refs: seq<Option<Path>>, max: nat): seq<Path>
    decreases |refs|
  {
    if refs == [] || |out| >= max then out else PushedAll(Pushed(out, refs[0]), refs[1..], max)
  }

  lemma ScanDone(v: Vocabulary, h: Path, i: nat, out: seq<Path>, max: nat)
    requires i <= |h| && (i == |h| || |out| >= max)
    ensures ScanFrom(v, h, i, out, max) == out
  {
  }

  lemma {:induction false} ItemsAt(v: Vocabulary, h: Path, i: nat, items: seq<Item>, out: seq<Path>, max: nat)
    requires At(h, i, PrintAll(items)) && i + |PrintAll(items)| == |h| && IsPage(v, items)
    ensures ScanFrom(v, h, i, out, max) == PushedAll(out, Refs(v, items), max)
    decreases |items|
  {
    hide ScanFrom, Print, RefOf, WellFormed, IsOpen, GoesOn, Pushed;
    if items == [] || |out| >= max {
      ScanDone(v, h, i, out, max);
    } else {
      var first, rest := Print(items[0]), PrintAll(items[1..]);
      AtJoined(h, i, first, rest);
      assert |items| == 1 ==> rest == [];
      ItemAt(v, h, i, items[0], out, max);
      PageNext(v, items);
      ItemsAt(v, h, i + |first|, items[1..], Pushed(out, RefOf(v, items[0])), max);
      GoneOn(v, h, i, out, max, i + |first|, Pushed(out, RefOf(v, items[0])));
    }
  }

  lemma GoneOn(v: Vocabulary, h: Path, i: nat, out: seq<Path>, max: nat, j: nat, out': seq<Path>)
    requires GoesOn(v, h, i, out, max, j, out')
    ensures i <= |h| && j <= |h| && ScanFrom(v, h, i, out, max) == ScanFrom(v, h, j, out', max)
  {
  }

  lemma PageNext(v: Vocabulary, items: seq<Item>)
    requires IsPage(v, items) && items != []
    ensures IsPage(v, items[1..])
  {
    hide WellFormed, IsOpen;
    assert forall k :: 0 <= k < |items[1..]| ==> items[1..][k] == items[k + 1];
  }

  /** The references of a page that this origin could serve, in the order they stand in. */
  function UsableRefs(refs: seq<Option<Path>>): seq<Path>
  {
    if refs == [] then []
    else if refs[0].Some? && Usable(refs[0].value).Some? then [Usable(refs[0].value).value] + UsableRefs(refs[1..])
    else UsableRefs(refs[1..])
  }

  /** Each of them once, where it stands first. */
  function Distinct(s: seq<Path>): seq<Path>
  {
    if s == [] then []
    else
      var before := Distinct(s[..|s| - 1]);
      if s[|s| - 1] in before then before else before + [s[|s| - 1]]
  }

  function First(s: seq<Path>, max: nat): seq<Path> { s[..Min(max, |s|)] }

  lemma {:induction false} DistinctGrows(s: seq<Path>, t: seq<Path>)
    ensures Distinct(s) <= Distinct(s + t)
  {
    if t == [] {
      assert s + t == s;
    } else {
      assert (s + t)[..|s + t| - 1] == s + t[..|t| - 1];
      DistinctGrows(s, t[..|t| - 1]);
    }
  }

  lemma DistinctNext(s: seq<Path>, u: Path)
    ensures Distinct(s + [u]) == if u in Distinct(s) then Distinct(s) else Distinct(s) + [u]
  {
    assert (s + [u])[..|s|] == s;
  }

  lemma {:induction false} PushedAllIs(before: seq<Path>, refs: seq<Option<Path>>, max: nat)
    requires |Distinct(before)| <= max
    ensures PushedAll(Distinct(before), refs, max) == First(Distinct(before + UsableRefs(refs)), max)
    decreases |refs|
  {
    hide Usable, Distinct;
    var all := before + UsableRefs(refs);
    DistinctGrows(before, UsableRefs(refs));
    if refs == [] {
      assert all == before;
    } else if |Distinct(before)| < max {
      if refs[0].Some? && Usable(refs[0].value).Some? {
        var u := Usable(refs[0].value).value;
        DistinctNext(before, u);
        PushedAllIs(before + [u], refs[1..], max);
        assert all == (before + [u]) + UsableRefs(refs[1..]);
      } else {
        PushedAllIs(before, refs[1..], max);
      }
    }
  }

  /**
   On a printed page the scanner returns exactly the first references that can be served, in the
   order they stand in, each once, and never what a comment or a script only mentions.
   */
  lemma ScanOfItems(v: Vocabulary, items: seq<Item>, max: nat)
    requires IsPage(v, items)
    ensures ScanFrom(v, PrintAll(items), 0, [], max) == First(Distinct(UsableRefs(Refs(v, items))), max)
  {
    var h := PrintAll(items);
    assert h[0..|h|] == h;
    ItemsAt(v, h, 0, items, [], max);
    PushedAllIs([], Refs(v, items), max);
    assert [] + UsableRefs(Refs(v, items)) == UsableRefs(Refs(v, items));
  }
}
