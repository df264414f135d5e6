/**
 What a page refers to: the reference scanner of prefetch/mod.rs:33-221. Text is
 bytes here; letters fold and spaces count as ASCII has them.
 */
module Prefetch {
  import opened Common

  const MAX_SUBRESOURCES: nat := 64

  const LT: byte := 60
  const GT: byte := 62
  const EQUALS: byte := 61
  const SLASH: byte := 47
  const QUOTE: byte := 34
  const APOSTROPHE: byte := 39
  const COLON: byte := 58
  const QUESTION: byte := 63
  const HASH: byte := 35

  /** "<!--" and "-->" */
  const COMMENT: Path := [60, 33, 45, 45]
  const COMMENT_END: Path := [45, 45, 62]

  /** The names the scan goes by. */
  datatype Vocabulary = Vocabulary(
    raw: seq<Path>, bySrc: seq<Path>, link: Path, fetched: seq<Path>, src: Path, href: Path, rel: Path)

  /** Tags with a raw body, tags that take a reference from src, and links with the rel words they are fetched for. */
  const HTML: Vocabulary := Vocabulary(
    [Ascii("script"), Ascii("style")],
    [Ascii("script"), Ascii("img"), Ascii("source"), Ascii("audio"), Ascii("video"), Ascii("iframe"), Ascii("embed")],
    Ascii("link"),
    [Ascii("stylesheet"), Ascii("icon"), Ascii("preload"), Ascii("modulepreload"), Ascii("prefetch")],
    Ascii("src"), Ascii("href"), Ascii("rel"))

  predicate IsSpace(b: byte) { b == 9 || b == 10 || b == 12 || b == 13 || b == 32 }

  /** White space to `trim` and `split_whitespace`, which count the vertical tab too. */
  predicate IsWhite(b: byte) { 9 <= b <= 13 || b == 32 }

  predicate NotWhite(b: byte) { !IsWhite(b) }

  predicate IsAlnum(b: byte) { 48 <= b <= 57 || 65 <= b <= 90 || 97 <= b <= 122 }

  function LowerByte(b: byte): byte { if 65 <= b <= 90 then b + 32 else b }

  function Lower(s: Path): (r: Path)
    ensures |r| == |s| && forall i :: 0 <= i < |s| ==> r[i] == LowerByte(s[i])
  {
    seq(|s|, i requires 0 <= i < |s| => LowerByte(s[i]))
  }

  // ---- What is looked for ----

  /** The first place from `from` on where p does not hold. */
  function RunEnd(h: Path, from: nat, p: byte -> bool): (end: nat)
    requires from <= |h|
    ensures from <= end <= |h|
    ensures forall k :: from <= k < end ==> p(h[k])
    ensures end < |h| ==> !p(h[end])
    decreases |h| - from
  {
    if from == |h| || !p(h[from]) then from else RunEnd(h, from + 1, p)
  }

  predicate There(h: Path, i: nat, needle: Path) { i + |needle| <= |h| && h[i..i + |needle|] == needle }

  function Find(h: Path, from: nat, needle: Path): (at: Option<nat>)
    requires needle != []
    ensures at.Some? ==> from <= at.value && at.value + |needle| <= |h|
    decreases |h| - from
  {
    if from + |needle| > |h| then None
    else if There(h, from, needle) then Some(from)
    else Find(h, from + 1, needle)
  }

  /** "</name", in whatever case. */
  predicate Closes(h: Path, i: nat, name: Path)
  {
    i + 2 + |name| <= |h| && h[i] == LT && h[i + 1] == SLASH && Lower(h[i + 2..i + 2 + |name|]) == Lower(name)
  }

  function FindClose(h: Path, from: nat, name: Path): (at: Option<nat>)
    ensures at.Some? ==> from <= at.value < |h|
    decreases |h| - from
  {
    if from + 2 + |name| > |h| then None
    else if Closes(h, from, name) then Some(from)
    else FindClose(h, from + 1, name)
  }

  // ---- Tags ----

  datatype Attr = Attr(name: Path, value: Path)

  predicate InAttrName(b: byte) { !IsSpace(b) && b != EQUALS && b != GT }

  predicate InBareValue(b: byte) { !IsSpace(b) && b != GT }

  predicate BetweenAttrs(b: byte) { IsSpace(b) || b == SLASH }

  datatype Valued = Valued(value: Path, next: nat)

  /** A value, quoted or bare. A quote that is never closed runs to the end. */
  function ValueAt(h: Path, i: nat): (v: Valued)
    requires i < |h|
    ensures i <= v.next <= |h|
  {
    if h[i] == QUOTE || h[i] == APOSTROPHE then
      var end := match Find(h, i + 1, [h[i]]) case Some(at) => at case None => |h|;
      Valued(h[i + 1..end], Min(end + 1, |h|))
    else
      var end := RunEnd(h, i, InBareValue);
      Valued(h[i..end], end)
  }

  /** One attribute and the place after it, or the place where there are no more. */
  datatype AttrRead = NoMore(i: nat) | Another(attr: Attr, i: nat)

  /** A name that no equals sign follows carries no value. */
  function AttrAt(h: Path, from: nat): (r: AttrRead)
    requires from <= |h|
    ensures from <= r.i <= |h| && (r.Another? ==> from < r.i)
  {
    var start := RunEnd(h, from, BetweenAttrs);
    if start == |h| || h[start] == GT then NoMore(start)
    else
      var end := RunEnd(h, start, InAttrName);
      var name := Lower(h[start..end]);
      var i := RunEnd(h, end, IsSpace);
      if i == |h| || h[i] != EQUALS then Another(Attr(name, []), i)
      else
        var j := RunEnd(h, i + 1, IsSpace);
        if j == |h| then NoMore(j)
        else Another(Attr(name, ValueAt(h, j).value), ValueAt(h, j).next)
  }

  datatype Tagged = Tagged(attrs: seq<Attr>, i: nat)

  /** The attributes of a tag and the place its loop ends at: its `>`, or the end of the document. */
  function AttrsFrom(h: Path, from: nat): (t: Tagged)
    requires from <= |h|
    ensures from <= t.i <= |h|
    decreases |h| - from
  {
    match AttrAt(h, from)
    case NoMore(i) => Tagged([], i)
    case Another(attr, i) => Before([attr], AttrsFrom(h, i))
  }

  /** Attributes read already, in front of those still to come. */
  function Before(attrs: seq<Attr>, rest: Tagged): Tagged { Tagged(attrs + rest.attrs, rest.i) }

  function Value(attrs: seq<Attr>, name: Path): Option<Path>
  {
    if attrs == [] then None
    else if attrs[0].name == name then Some(attrs[0].value)
    else Value(attrs[1..], name)
  }

  // ---- References ----

  function TrimStart(s: Path): Path { s[RunEnd(s, 0, IsWhite)..] }

  function TrimEnd(s: Path): Path
  {
    if s != [] && IsWhite(s[|s| - 1]) then TrimEnd(s[..|s| - 1]) else s
  }

  predicate NotCut(b: byte) { b != QUESTION && b != HASH }

  predicate NotColon(b: byte) { b != COLON }

  /** A scheme: a colon before any slash. */
  predicate HasScheme(url: Path)
  {
    var colon := RunEnd(url, 0, NotColon);
    colon < |url| && SLASH !in url[..colon]
  }

  function Usable(raw: Path): Option<Path>
  {
    var url := TrimEnd(TrimStart(raw[..RunEnd(raw, 0, NotCut)]));
    if url == [] || There(url, 0, [SLASH, SLASH]) || HasScheme(url) then None else Some(url)
  }

  /** Whether any of the words of a `rel` is one that is fetched. */
  predicate AnyFetched(v: Vocabulary, rel: Path, from: nat)
    requires from <= |rel|
    decreases |rel| - from
  {
    var start := RunEnd(rel, from, IsWhite);
    if start == |rel| then false
    else
      var end := RunEnd(rel, start, NotWhite);
      Lower(rel[start..end]) in v.fetched || AnyFetched(v, rel, end)
  }

  /** What a tag refers to, as it is written. */
  function Refers(v: Vocabulary, name: Path, attrs: seq<Attr>): Option<Path>
  {
    if name == v.link then
      var rel := Value(attrs, v.rel);
      if rel.Some? && AnyFetched(v, rel.value, 0) then Value(attrs, v.href) else None
    else if name in v.bySrc then Value(attrs, v.src)
    else None
  }

  predicate IsRaw(v: Vocabulary, name: Path) { name in v.raw }

  function Pushed(out: seq<Path>, raw: Option<Path>): seq<Path>
  {
    match raw
    case None => out
    case Some(text) =>
      match Usable(text)
      case None => out
      case Some(url) => if url in out then out else out + [url]
  }

  // ---- One turn of the scan, and the whole of it ----

  datatype Move = Stop | Go(next: nat, raw: Option<Path>)

  /** Where markup goes on after a tag: raw text up to the closing tag is passed over. */
  function AfterTag(v: Vocabulary, h: Path, after: nat, name: Path): (next: nat)
    requires after <= |h|
    ensures after <= next <= |h|
  {
    if !IsRaw(v, name) then after
    else
      match FindClose(h, after, name)
      case Some(at) => at
      case None => |h|
  }

  function TagEnd(v: Vocabulary, h: Path, from: nat, name: Path): (next: nat)
    requires from <= |h|
    ensures from <= next <= |h|
  {
    AfterTag(v, h, Min(AttrsFrom(h, from).i + 1, |h|), name)
  }

  function TagRef(v: Vocabulary, h: Path, from: nat, name: Path): Option<Path>
    requires from <= |h|
  {
    Refers(v, name, AttrsFrom(h, from).attrs)
  }

  function TagMove(v: Vocabulary, h: Path, i: nat): (m: Move)
    requires i < |h|
    ensures m.Go? && i < m.next <= |h|
  {
    var end := RunEnd(h, i + 1, IsAlnum);
    var name := Lower(h[i + 1..end]);
    if name == [] then Go(i + 1, None) else Go(TagEnd(v, h, end, name), TagRef(v, h, end, name))
  }

  function MoveAt(v: Vocabulary, h: Path, i: nat): (m: Move)
    requires i < |h|
    ensures m.Go? ==> i < m.next <= |h|
  {
    if h[i] != LT then Go(i + 1, None)
    else if There(h, i, COMMENT) then
      match Find(h, i + 4, COMMENT_END)
      case Some(at) => Go(at + 3, None)
      case None => Stop
    else TagMove(v, h, i)
  }

  function ScanFrom(v: Vocabulary, h: Path, i: nat, out: seq<Path>, max: nat): seq<Path>
    requires i <= |h|
    decreases |h| - i
  {
    if i == |h| || |out| >= max then out
    else
      match MoveAt(v, h, i)
      case Stop => out
      case Go(next, raw) => ScanFrom(v, h, next, Pushed(out, raw), max)
  }

  // ---- The scanner ----

  method FindNeedle(haystack: Path, from: nat, needle: Path) returns (at: Option<nat>)
    requires needle != []
    ensures at == Find(haystack, from, needle)
    ensures match at
      case Some(i) => from <= i && There(haystack, i, needle) &&
        forall k :: from <= k < i ==> !There(haystack, k, needle)
      case None => forall k :: from <= k ==> !There(haystack, k, needle)
  {
    if from >= |haystack| || |needle| > |haystack| - from {
      return None;
    }
    var i := from;
    while i + |needle| <= |haystack|
      invariant from <= i && Find(haystack, i, needle) == Find(haystack, from, needle)
      invariant forall k :: from <= k < i ==> !There(haystack, k, needle)
      decreases |haystack| - i
    {
      if haystack[i..i + |needle|] == needle {
        return Some(i);
      }
      i := i + 1;
    }
    at := None;
  }

  method FindCloseTag(html: Path, from: nat, name: Path) returns (at: Option<nat>)
    ensures at == FindClose(html, from, name)
    ensures match at
      case Some(i) => from <= i && Closes(html, i, name) && forall k :: from <= k < i ==> !Closes(html, k, name)
      case None => forall k :: from <= k ==> !Closes(html, k, name)
  {
    var i := from;
    while i + 2 + |name| <= |html|
      invariant from <= i && FindClose(html, i, name) == FindClose(html, from, name)
      invariant forall k :: from <= k < i ==> !Closes(html, k, name)
      decreases |html| - i
    {
      if html[i] == LT && html[i + 1] == SLASH && Lower(html[i + 2..i + 2 + |name|]) == Lower(name) {
        return Some(i);
      }
      i := i + 1;
    }
    at := None;
  }

  method SkipSpace(html: Path, from: nat) returns (i: nat)
    requires from <= |html|
    ensures i == RunEnd(html, from, IsSpace)
  {
    i := from;
    while i < |html| && IsSpace(html[i])
      invariant from <= i <= |html| && RunEnd(html, i, IsSpace) == RunEnd(html, from, IsSpace)
    {
      i := i + 1;
    }
  }

  method TagName(html: Path, from: nat) returns (name: Path, end: nat)
    requires from <= |html|
    ensures end == RunEnd(html, from, IsAlnum) && name == Lower(html[from..end])
  {
    end := from;
    while end < |html| && IsAlnum(html[end])
      invariant from <= end <= |html| && RunEnd(html, end, IsAlnum) == RunEnd(html, from, IsAlnum)
    {
      end := end + 1;
    }
    name := Lower(html[from..end]);
  }

  /** A value and the place after it. */
  method ReadValue(html: Path, from: nat) returns (value: Path, next: nat)
    requires from < |html|
    ensures Valued(value, next) == ValueAt(html, from)
  {
    if html[from] == QUOTE || html[from] == APOSTROPHE {
      var found := FindNeedle(html, from + 1, [html[from]]);
      var end := if found.Some? then found.value else |html|;
      return html[from + 1..end], Min(end + 1, |html|);
    }
    var end := from;
    while end < |html| && !IsSpace(html[end]) && html[end] != GT
      invariant from <= end <= |html| && RunEnd(html, end, InBareValue) == RunEnd(html, from, InBareValue)
    {
      end := end + 1;
    }
    value, next := html[from..end], end;
  }

  method AttrName(html: Path, from: nat) returns (name: Path, i: nat)
    requires from <= |html|
    ensures i == RunEnd(html, from, InAttrName) && name == Lower(html[from..i])
  {
    i := from;
    while i < |html| && !IsSpace(html[i]) && html[i] != EQUALS && html[i] != GT
      invariant from <= i <= |html| && RunEnd(html, i, InAttrName) == RunEnd(html, from, InAttrName)
    {
      i := i + 1;
    }
    name := Lower(html[from..i]);
  }

  method SkipBetween(html: Path, from: nat) returns (i: nat)
    requires from <= |html|
    ensures i == RunEnd(html, from, BetweenAttrs)
  {
    i := from;
    while i < |html| && (IsSpace(html[i]) || html[i] == SLASH)
      invariant from <= i <= |html| && RunEnd(html, i, BetweenAttrs) == RunEnd(html, from, BetweenAttrs)
    {
      i := i + 1;
    }
  }

  /** One turn of the attribute loop. */
  method ReadAttr(html: Path, from: nat) returns (r: AttrRead)
    requires from <= |html|
    ensures r == AttrAt(html, from)
  {
    hide ValueAt, RunEnd, Lower;
    var start := SkipBetween(html, from);
    if start >= |html| || html[start] == GT {
      return NoMore(start);
    }
    var name, end := AttrName(html, start);
    var i := SkipSpace(html, end);
    if i >= |html| || html[i] != EQUALS {
      return Another(Attr(name, []), i);
    }
    i := SkipSpace(html, i + 1);
    if i >= |html| {
      return NoMore(i);
    }
    var value, next := ReadValue(html, i);
    r := Another(Attr(name, value), next);
  }

  lemma BeforeNext(attrs: seq<Attr>, attr: Attr, rest: Tagged)
    ensures Before(attrs, Before([attr], rest)) == Before(attrs + [attr], rest)
  {
    assert attrs + ([attr] + rest.attrs) == (attrs + [attr]) + rest.attrs;
  }

  method Attributes(html: Path, from: nat) returns (attrs: seq<Attr>, after: nat)
    requires from <= |html|
    ensures attrs == AttrsFrom(html, from).attrs && after == Min(AttrsFrom(html, from).i + 1, |html|)
  {
    attrs := [];
    var i := from;
    ghost var all := AttrsFrom(html, from);
    assert [] + all.attrs == all.attrs;
    while true
      invariant from <= i <= |html| && Before(attrs, AttrsFrom(html, i)) == all
      decreases |html| - i
    {
      var r := ReadAttr(html, i);
      if r.NoMore? {
        assert attrs + [] == attrs;
        i := r.i;
        break;
      }
      BeforeNext(attrs, r.attr, AttrsFrom(html, r.i));
      attrs := attrs + [r.attr];
      i := r.i;
    }
    after := Min(i + 1, |html|);
  }

  /** A tag, with its attributes, and for a script or a style the whole of its body. */
  method ReadTag(v: Vocabulary, html: Path, i: nat) returns (next: nat, raw: Option<Path>)
    requires i < |html|
    ensures Go(next, raw) == TagMove(v, html, i)
  {
    var name, afterName := TagName(html, i + 1);
    if name == [] {
      return i + 1, None;
    }
    next, raw := ReadRest(v, html, afterName, name);
  }

  method ReadRest(v: Vocabulary, html: Path, from: nat, name: Path) returns (next: nat, raw: Option<Path>)
    requires from <= |html|
    ensures next == TagEnd(v, html, from, name) && raw == TagRef(v, html, from, name)
  {
    var attrs, afterTag := Attributes(html, from);
    raw := Refers(v, name, attrs);
    next := SkipBody(v, html, afterTag, name);
  }

  method SkipBody(v: Vocabulary, html: Path, after: nat, name: Path) returns (next: nat)
    requires after <= |html|
    ensures next == AfterTag(v, html, after, name)
  {
    next := after;
    if IsRaw(v, name) {
      var close := FindCloseTag(html, after, name);
      next := if close.Some? then close.value else |html|;
    }
  }

  /** One turn of the scan: past a byte of text, past a comment, or past a tag. */
  method Turn(v: Vocabulary, html: Path, i: nat) returns (m: Move)
    requires i < |html|
    ensures m == MoveAt(v, html, i)
  {
    hide TagMove, Find;
    if html[i] != LT {
      return Go(i + 1, None);
    }
    if There(html, i, COMMENT) {
      var at := FindNeedle(html, i + 4, COMMENT_END);
      return if at.Some? then Go(at.value + 3, None) else Stop;
    }
    var next, raw := ReadTag(v, html, i);
    m := Go(next, raw);
  }

  /** Collect the references of a document in the order they stand in, without repeats. */
  method Scan(v: Vocabulary, html: Path, max: nat) returns (out: seq<Path>)
    ensures out == ScanFrom(v, html, 0, [], max) && Sound(out, max)
  {
    hide MoveAt, Pushed, Servable;
    out := [];
    var i := 0;
    while i < |html| && |out| < max
      invariant i <= |html| && ScanFrom(v, html, i, out, max) == ScanFrom(v, html, 0, [], max)
      decreases |html| - i
    {
      var m := Turn(v, html, i);
      if m.Stop? {
        break;
      }
      out := Pushed(out, m.raw);
      i := m.next;
    }
    ScanIsSound(v, html, 0, [], max);
  }

  // ---- What it may return ----

  /** A reference this origin could serve: what is left when nothing more can be cut off it. */
  predicate Servable(url: Path)
  {
    && url != [] && QUESTION !in url && HASH !in url
    && !IsWhite(url[0]) && !IsWhite(url[|url| - 1])
    && !There(url, 0, [SLASH, SLASH]) && !HasScheme(url)
  }

  lemma {:induction false} TrimEndMeans(s: Path)
    ensures TrimEnd(s) <= s
    ensures TrimEnd(s) != [] ==> !IsWhite(TrimEnd(s)[|TrimEnd(s)| - 1])
  {
    if s != [] && IsWhite(s[|s| - 1]) {
      TrimEndMeans(s[..|s| - 1]);
    }
  }

  lemma UsableIsServable(raw: Path)
    ensures Usable(raw).Some? ==> Servable(Usable(raw).value)
    ensures Usable(raw) == Some(raw) <==> Servable(raw)
  {
    hide HasScheme;
    var cut := raw[..RunEnd(raw, 0, NotCut)];
    TrimEndMeans(TrimStart(cut));
    if Servable(raw) {
      NothingToCut(raw);
    }
  }

  lemma NothingToCut(raw: Path)
    requires raw != [] && QUESTION !in raw && HASH !in raw && !IsWhite(raw[0]) && !IsWhite(raw[|raw| - 1])
    ensures TrimEnd(TrimStart(raw[..RunEnd(raw, 0, NotCut)])) == raw
  {
    assert RunEnd(raw, 0, NotCut) == |raw|;
    assert raw[..|raw|] == raw && TrimStart(raw) == raw;
  }

  /** No more than asked for, each once, and nothing but what the origin could serve. */
  predicate Sound(out: seq<Path>, max: nat)
  {
    && |out| <= max
    && (forall i, j :: 0 <= i < j < |out| ==> out[i] != out[j])
    && forall i :: 0 <= i < |out| ==> Servable(out[i])
  }

  lemma {:induction false} ScanIsSound(v: Vocabulary, h: Path, i: nat, out: seq<Path>, max: nat)
    requires i <= |h| && Sound(out, max)
    ensures Sound(ScanFrom(v, h, i, out, max), max)
    decreases |h| - i
  {
    if i < |h| && |out| < max {
      match MoveAt(v, h, i)
      case Stop =>
      case Go(next, raw) =>
        if raw.Some? {
          UsableIsServable(raw.value);
        }
        ScanIsSound(v, h, next, Pushed(out, raw), max);
    }
  }
}
