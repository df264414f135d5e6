/**
 What a page refers to, item by item: which attribute of which tag, which links count, and which references are
 left; prefetch/mod.rs:30-119. The pages are those Pages prints, and every one of them can be read this way.
 */
module References {
  import opened Common
  import opened Prefetch
  import opened Pages

  // ---- Names, in whatever case ----

  /** The name s, each letter large or small. */
  predicate Spells(name: Path, s: string)
    requires forall i :: 0 <= i < |s| ==> 'a' <= s[i] <= 'z'
  {
    |name| == |s| && forall i :: 0 <= i < |s| ==> name[i] in {s[i] as int, s[i] as int - 'a' as int + 'A' as int}
  }

  lemma LowerSpells(name: Path, s: string)
    requires forall i :: 0 <= i < |s| ==> 'a' <= s[i] <= 'z'
    ensures Spells(name, s) <==> Lower(name) == Ascii(s)
  {
    var low := Lower(name);
    if low == Ascii(s) {
      forall i | 0 <= i < |s| ensures name[i] in {s[i] as int, s[i] as int - 'a' as int + 'A' as int} {
        assert low[i] == LowerByte(name[i]);
      }
    }
    if Spells(name, s) {
      forall i | 0 <= i < |s| ensures low[i] == s[i] as int {
        assert name[i] in {s[i] as int, s[i] as int - 'a' as int + 'A' as int};
      }
    }
  }

  predicate IsSourced(name: Path)
  {
    || Spells(name, "script") || Spells(name, "img") || Spells(name, "source") || Spells(name, "audio")
    || Spells(name, "video") || Spells(name, "iframe") || Spells(name, "embed")
  }

  /** What a `rel` may say for its link to be fetched. */
  predicate IsFetched(word: Path)
  {
    || Spells(word, "stylesheet") || Spells(word, "icon") || Spells(word, "preload")
    || Spells(word, "modulepreload") || Spells(word, "prefetch")
  }

  lemma VocabularyIs()
    ensures HTML.bySrc == [Ascii("script"), Ascii("img"), Ascii("source"), Ascii("audio"), Ascii("video"),
      Ascii("iframe"), Ascii("embed")]
    ensures HTML.fetched == [Ascii("stylesheet"), Ascii("icon"), Ascii("preload"), Ascii("modulepreload"),
      Ascii("prefetch")]
    ensures HTML.link == Ascii("link") && HTML.src == Ascii("src") && HTML.href == Ascii("href")
    ensures HTML.rel == Ascii("rel") && HTML.raw == [Ascii("script"), Ascii("style")]
  {
  }

  lemma SourcedNames(name: Path)
    ensures IsSourced(name) <==> Lower(name) in HTML.bySrc
  {
    hide Spells, Lower, HTML;
    VocabularyIs();
    LowerSpells(name, "script");
    LowerSpells(name, "img");
    LowerSpells(name, "source");
    LowerSpells(name, "audio");
    LowerSpells(name, "video");
    LowerSpells(name, "iframe");
    LowerSpells(name, "embed");
  }

  lemma FetchedWords(word: Path)
    ensures IsFetched(word) <==> Lower(word) in HTML.fetched
  {
    hide Spells, Lower, HTML;
    VocabularyIs();
    LowerSpells(word, "stylesheet");
    LowerSpells(word, "icon");
    LowerSpells(word, "preload");
    LowerSpells(word, "modulepreload");
    LowerSpells(word, "prefetch");
  }

  // ---- The words of a rel ----

  predicate White(b: byte) { b in {9, 10, 11, 12, 13, 32} }

  predicate AllWhite(s: Path) { forall i :: 0 <= i < |s| ==> White(s[i]) }

  predicate IsWord(w: Path) { w != [] && forall i :: 0 <= i < |w| ==> !White(w[i]) }

  /** White space, then words with white space behind each: one gap more than words. */
  function Spaced(words: seq<Path>, gaps: seq<Path>): Path
    requires |gaps| == |words| + 1
  {
    if words == [] then gaps[0] else gaps[0] + words[0] + Spaced(words[1..], gaps[1..])
  }

  /** Any two words have white space between them. */
  predicate WellSpaced(words: seq<Path>, gaps: seq<Path>)
  {
    && |gaps| == |words| + 1 && (forall i :: 0 <= i < |words| ==> IsWord(words[i]))
    && (forall i :: 0 <= i < |gaps| ==> AllWhite(gaps[i]))
    && forall i :: 0 < i < |words| ==> gaps[i] != []
  }

  predicate AnyWord(words: seq<Path>) { exists i :: 0 <= i < |words| && IsFetched(words[i]) }

  lemma WhiteIs(b: byte)
    ensures White(b) <==> IsWhite(b)
  {
  }

  lemma {:induction false} RelMeans(rel: Path, from: nat, words: seq<Path>, gaps: seq<Path>)
    requires WellSpaced(words, gaps) && from + |Spaced(words, gaps)| == |rel| && At(rel, from, Spaced(words, gaps))
    ensures AnyFetched(HTML, rel, from) <==> AnyWord(words)
    decreases |words|
  {
    hide IsFetched, White, Lower, HTML;
    if words == [] {
      assert rel[from + |gaps[0]|..] == [];
      RelGap(rel, from, gaps[0], []);
    } else {
      var end := RelNext(rel, from, words, gaps);
      RelMeans(rel, end, words[1..], gaps[1..]);
      FirstOrLater(words);
    }
  }

  lemma FirstOrLater(words: seq<Path>)
    requires words != []
    ensures AnyWord(words) <==> IsFetched(words[0]) || AnyWord(words[1..])
  {
    hide IsFetched;
    if AnyWord(words[1..]) {
      var i :| 0 <= i < |words[1..]| && IsFetched(words[1..][i]);
      assert words[i + 1] == words[1..][i];
    }
    if AnyWord(words) {
      var i :| 0 <= i < |words| && IsFetched(words[i]);
      if i > 0 {
        assert words[1..][i - 1] == words[i];
      }
    }
  }

  /** One word of a rel is read. */
  lemma RelNext(rel: Path, from: nat, words: seq<Path>, gaps: seq<Path>) returns (end: nat)
    requires words != [] && WellSpaced(words, gaps)
    requires from + |Spaced(words, gaps)| == |rel| && At(rel, from, Spaced(words, gaps))
    ensures from < end <= |rel| && WellSpaced(words[1..], gaps[1..])
    ensures end + |Spaced(words[1..], gaps[1..])| == |rel| && At(rel, end, Spaced(words[1..], gaps[1..]))
    ensures AnyFetched(HTML, rel, from) <==> IsFetched(words[0]) || AnyFetched(HTML, rel, end)
  {
    hide IsFetched, White, Lower, HTML, RunEnd, AnyFetched;
    var word, more := words[0], Spaced(words[1..], gaps[1..]);
    end := from + |gaps[0]| + |word|;
    AtJoined(rel, from, gaps[0] + word, more);
    AtJoined(rel, from, gaps[0], word);
    RelGap(rel, from, gaps[0], word);
    RelWord(rel, from + |gaps[0]|, word, more, words, gaps);
    FetchedWords(word);
    AnyFetchedNext(rel, from, from + |gaps[0]|, end);
  }

  lemma AnyFetchedNext(rel: Path, from: nat, start: nat, end: nat)
    requires from <= |rel| && RunEnd(rel, from, IsWhite) == start < |rel| && RunEnd(rel, start, NotWhite) == end
    ensures AnyFetched(HTML, rel, from) <==> Lower(rel[start..end]) in HTML.fetched || AnyFetched(HTML, rel, end)
  {
    hide Lower, HTML, RunEnd;
  }

  lemma RelGap(rel: Path, from: nat, gap: Path, word: Path)
    requires At(rel, from, gap) && AllWhite(gap) && (if word == [] then from + |gap| == |rel| else IsWord(word))
    requires At(rel, from + |gap|, word)
    ensures RunEnd(rel, from, IsWhite) == from + |gap|
  {
    if word != [] {
      ByteAt(rel, from + |gap|, word, 0);
    }
    RunEndAt(rel, from, gap, IsWhite);
  }

  lemma RelWord(rel: Path, from: nat, word: Path, more: Path, words: seq<Path>, gaps: seq<Path>)
    requires WellSpaced(words, gaps) && words != [] && word == words[0] && more == Spaced(words[1..], gaps[1..])
    requires At(rel, from, word) && At(rel, from + |word|, more) && from + |word| + |more| == |rel|
    ensures RunEnd(rel, from, NotWhite) == from + |word| && rel[from..from + |word|] == word
  {
    if more != [] {
      ByteAt(rel, from + |word|, more, 0);
      assert gaps[1..][0] == gaps[1];
      if |words| == 1 {
        assert more == gaps[1];
      } else {
        assert more[0] == gaps[1][0];
      }
    }
    RunEndAt(rel, from, word, NotWhite);
  }

  // ---- A reference as it is written ----

  /** White space around a URL, and behind a question mark or a hash what the remote never sees. */
  datatype Spelling = Spelling(before: Path, url: Path, after: Path, tail: Path)

  function Raw(s: Spelling): Path { s.before + (s.url + (s.after + s.tail)) }

  predicate IsSpelling(s: Spelling)
  {
    && AllWhite(s.before) && AllWhite(s.after) && (s.tail == [] || s.tail[0] in Ascii("?#"))
    && (forall i :: 0 <= i < |s.url| ==> s.url[i] !in Ascii("?#"))
    && (s.url != [] ==> !White(s.url[0]) && !White(s.url[|s.url| - 1])) && (s.url == [] ==> s.after == [])
  }

  /** On another host, or under another scheme: a colon before any slash. */
  predicate Elsewhere(url: Path)
  {
    Ascii("//") <= url || exists i :: 0 <= i < |url| && url[i] in Ascii(":") && Ascii("/")[0] !in url[..i]
  }

  /** What is left of a reference: its URL, if it is one that could be served here. */
  function Left(s: Spelling): Option<Path> { if s.url == [] || Elsewhere(s.url) then None else Some(s.url) }

  lemma ElsewhereIs(url: Path)
    ensures Elsewhere(url) <==> There(url, 0, [SLASH, SLASH]) || HasScheme(url)
  {
    assert Ascii("//") == [SLASH, SLASH] && Ascii(":") == [COLON] && Ascii("/") == [SLASH];
    var colon := RunEnd(url, 0, NotColon);
    if exists i :: 0 <= i < |url| && url[i] in Ascii(":") && Ascii("/")[0] !in url[..i] {
      var i :| 0 <= i < |url| && url[i] in Ascii(":") && Ascii("/")[0] !in url[..i];
      assert colon <= i && url[..colon] == url[..i][..colon];
    }
    if HasScheme(url) {
      assert url[colon] in Ascii(":");
    }
    assert There(url, 0, [SLASH, SLASH]) <==> [SLASH, SLASH] <= url;
  }

  lemma {:induction false} TrimsAfter(s: Path, white: Path)
    requires AllWhite(white) && (s != [] ==> !White(s[|s| - 1]))
    ensures Prefetch.TrimEnd(s + white) == s
  {
    if white == [] {
      assert s + white == s;
    } else {
      assert (s + white)[..|s + white| - 1] == s + white[..|white| - 1];
      TrimsAfter(s, white[..|white| - 1]);
    }
  }

  /** However it is written, what is kept of a reference is its URL. */
  lemma UsableMeans(s: Spelling)
    requires IsSpelling(s)
    ensures Usable(Raw(s)) == Left(s)
  {
    hide White, Elsewhere, HasScheme;
    var raw := Raw(s);
    var cut := s.before + (s.url + s.after);
    CutAtTail(s);
    assert TrimStart(cut) == s.url + s.after by {
      StartsAfter(s.before, s.url + s.after);
    }
    TrimsAfter(s.url, s.after);
    ElsewhereIs(s.url);
  }

  lemma StartsAfter(white: Path, rest: Path)
    requires AllWhite(white) && (rest != [] ==> !White(rest[0]))
    ensures TrimStart(white + rest) == rest
  {
    var s := white + rest;
    assert s[0..0 + |white|] == white;
    RunEndAt(s, 0, white, IsWhite);
    assert s[|white|..] == rest;
  }

  lemma CutAtTail(s: Spelling)
    requires IsSpelling(s)
    ensures Raw(s)[..RunEnd(Raw(s), 0, NotCut)] == s.before + (s.url + s.after)
  {
    var cut := s.before + (s.url + s.after);
    assert Raw(s) == cut + s.tail && Raw(s)[0..0 + |cut|] == cut;
    assert Ascii("?#") == [QUESTION, HASH];
    forall k | 0 <= k < |cut| ensures NotCut(cut[k]) {
      assert White(cut[k]) || cut[k] !in Ascii("?#") by {
        if |s.before| <= k < |s.before| + |s.url| {
          assert cut[k] == s.url[k - |s.before|];
        }
      }
    }
    assert s.tail != [] ==> Raw(s)[|cut|] == s.tail[0] && !NotCut(s.tail[0]);
    RunEndAt(Raw(s), 0, cut, NotCut);
    assert Raw(s)[..|cut|] == cut;
  }

  // ---- Items that carry what they refer to ----

  /** Where an attribute of this name stands first, if there is one. */
  predicate FirstNamed(attrs: seq<Mark>, key: string, at: Option<nat>)
    requires forall i :: 0 <= i < |key| ==> 'a' <= key[i] <= 'z'
  {
    match at
    case None => forall k :: 0 <= k < |attrs| ==> !Spells(attrs[k].name, key)
    case Some(i) =>
      i < |attrs| && Spells(attrs[i].name, key) && forall k :: 0 <= k < i ==> !Spells(attrs[k].name, key)
  }

  /**
   An item, and what is said of it: a tag that takes its reference from `src`, and where that stands; a link, where its
   `rel` and its `href` stand, and the words of the one; and everything else. The reference is as it is written.
   */
  datatype Marked =
    | Other(item: Item)
    | Source(item: Item, src: Option<nat>, says: Spelling)
    | Link(item: Item, rel: Option<nat>, words: seq<Path>, gaps: seq<Path>, href: Option<nat>, says: Spelling)

  predicate Says(attrs: seq<Mark>, at: Option<nat>, text: Path)
  {
    at.Some? ==> at.value < |attrs| && attrs[at.value].value == text
  }

  predicate Rightly(m: Marked)
  {
    match m
    case Other(item) => HasTag(item) ==> !IsSourced(item.name) && !Spells(item.name, "link")
    case Source(item, src, says) =>
      && HasTag(item) && IsSourced(item.name) && FirstNamed(item.attrs, "src", src)
      && IsSpelling(says) && Says(item.attrs, src, Raw(says))
    case Link(item, rel, words, gaps, href, says) =>
      && HasTag(item) && Spells(item.name, "link")
      && FirstNamed(item.attrs, "rel", rel) && WellSpaced(words, gaps) && Says(item.attrs, rel, Spaced(words, gaps))
      && FirstNamed(item.attrs, "href", href) && IsSpelling(says) && Says(item.attrs, href, Raw(says))
  }

  /** The reference of an item that has one. */
  function Reference(m: Marked): Option<Spelling>
  {
    match m
    case Other(_) => None
    case Source(_, src, says) => if src.Some? then Some(says) else None
    case Link(_, rel, words, _, href, says) =>
      if rel.Some? && AnyWord(words) && href.Some? then Some(says) else None
  }

  lemma {:induction false} ValueIsFirst(attrs: seq<Mark>, key: string, at: Option<nat>)
    requires forall i :: 0 <= i < |key| ==> 'a' <= key[i] <= 'z'
    requires FirstNamed(attrs, key, at)
    ensures Value(Recorded(attrs), Ascii(key)) == if at.Some? then Some(attrs[at.value].value) else None
    decreases |attrs|
  {
    hide Spells, Lower;
    if attrs != [] {
      LowerSpells(attrs[0].name, key);
      if at != Some(0) {
        var next := if at.Some? then Some(at.value - 1) else None;
        assert FirstNamed(attrs[1..], key, next) by {
          assert forall k :: 0 <= k < |attrs[1..]| ==> attrs[1..][k] == attrs[k + 1];
        }
        ValueIsFirst(attrs[1..], key, next);
      }
    }
  }

  function RawOf(m: Marked): Option<Path>
  {
    match Reference(m)
    case Some(says) => Some(Raw(says))
    case None => None
  }

  lemma OtherRefers(m: Marked)
    requires m.Other? && Rightly(m)
    ensures RefOf(HTML, m.item) == None
  {
    hide Spells, Lower, HTML, IsSourced;
    VocabularyIs();
    if HasTag(m.item) {
      SourcedNames(m.item.name);
      LowerSpells(m.item.name, "link");
    }
  }

  lemma NotLink()
    ensures HTML.link !in HTML.bySrc
  {
    VocabularyIs();
    assert Ascii("link")[0] == 'l' as int;
    assert forall k :: 0 <= k < |HTML.bySrc| ==> HTML.bySrc[k][0] != 'l' as int;
  }

  lemma SourceRefers(m: Marked)
    requires m.Source? && Rightly(m)
    ensures RefOf(HTML, m.item) == RawOf(m)
  {
    hide Spells, Lower, HTML, IsSourced;
    VocabularyIs();
    SourcedNames(m.item.name);
    NotLink();
    ValueIsFirst(m.item.attrs, "src", m.src);
  }

  lemma LinkRefers(m: Marked)
    requires m.Link? && Rightly(m)
    ensures RefOf(HTML, m.item) == RawOf(m)
  {
    hide Spells, Lower, HTML, AnyFetched, AnyWord, WellSpaced, Spaced, IsSpelling, Raw;
    VocabularyIs();
    LowerSpells(m.item.name, "link");
    ValueIsFirst(m.item.attrs, "rel", m.rel);
    ValueIsFirst(m.item.attrs, "href", m.href);
    if m.rel.Some? {
      var rel := m.item.attrs[m.rel.value].value;
      assert rel[0..|rel|] == rel;
      RelMeans(rel, 0, m.words, m.gaps);
    }
  }

  lemma MarkedRefers(m: Marked)
    requires Rightly(m)
    ensures RefOf(HTML, m.item) == RawOf(m)
    ensures Reference(m).Some? ==> IsSpelling(Reference(m).value)
  {
    match m
    case Other(_) => OtherRefers(m);
    case Source(_, _, _) => SourceRefers(m);
    case Link(_, _, _, _, _, _) => LinkRefers(m);
  }

  // ---- A whole page ----

  function Items(ms: seq<Marked>): (items: seq<Item>)
    ensures |items| == |ms| && forall k :: 0 <= k < |ms| ==> items[k] == ms[k].item
  {
    seq(|ms|, k requires 0 <= k < |ms| => ms[k].item)
  }

  /** The URLs of the references that could be served here, in the order they stand in. */
  function Expected(ms: seq<Marked>): seq<Path>
  {
    if ms == [] then []
    else
      var says := Reference(ms[0]);
      (if says.Some? && Left(says.value).Some? then [Left(says.value).value] else []) + Expected(ms[1..])
  }

  predicate RightlyMarked(ms: seq<Marked>) { forall k :: 0 <= k < |ms| ==> Rightly(ms[k]) }

  lemma {:induction false} ExpectedAreUsable(ms: seq<Marked>)
    requires RightlyMarked(ms)
    ensures UsableRefs(Refs(HTML, Items(ms))) == Expected(ms)
    decreases |ms|
  {
    hide Usable, Left, RefOf, Reference, Rightly, HTML;
    if ms != [] {
      ExpectedAreUsable(ms[1..]);
      assert Items(ms)[1..] == Items(ms[1..]);
      MarkedRefers(ms[0]);
      if Reference(ms[0]).Some? {
        UsableMeans(Reference(ms[0]).value);
      }
    }
  }

  /**
   On a printed page the scanner returns the first URLs its items refer to, in the order they stand in, each once,
   and never what a comment or a script only mentions.
   */
  lemma ScanOfPage(ms: seq<Marked>, max: nat)
    requires RightlyMarked(ms) && IsPage(HTML, Items(ms))
    ensures ScanFrom(HTML, PrintAll(Items(ms)), 0, [], max) == First(Distinct(Expected(ms)), max)
  {
    ScanOfItems(HTML, Items(ms), max);
    ExpectedAreUsable(ms);
  }

  // ---- Every printed page is such a page ----

  /** Where an attribute of this name stands first. */
  lemma {:induction false} FindNamed(attrs: seq<Mark>, key: string) returns (at: Option<nat>)
    requires forall i :: 0 <= i < |key| ==> 'a' <= key[i] <= 'z'
    ensures FirstNamed(attrs, key, at)
    decreases |attrs|
  {
    hide Spells;
    at := None;
    if attrs != [] {
      if Spells(attrs[0].name, key) {
        at := Some(0);
      } else {
        var later := FindNamed(attrs[1..], key);
        at := if later.Some? then Some(later.value + 1) else None;
        assert forall k :: 0 < k < |attrs| ==> attrs[k] == attrs[1..][k - 1];
      }
    }
  }

  /** Any text is a reference in some spelling. */
  lemma SpellingOf(text: Path) returns (s: Spelling)
    ensures IsSpelling(s) && Raw(s) == text
  {
    hide RunEnd;
    var end := RunEnd(text, 0, NotCut);
    var cut := text[..end];
    forall k | 0 <= k < |cut| ensures NotCut(cut[k]) {
    }
    s := SpellingOfCut(cut);
    s := s.(tail := text[end..]);
    assert text == cut + text[end..];
    assert s.tail != [] ==> s.tail[0] == text[end];
    assert Ascii("?#") == [QUESTION, HASH];
    assert Raw(s) == s.before + (s.url + s.after) + s.tail;
    assert s.before + (s.url + (s.after + [])) == s.before + (s.url + s.after);
  }

  lemma SpellingOfCut(cut: Path) returns (s: Spelling)
    requires forall k :: 0 <= k < |cut| ==> NotCut(cut[k])
    ensures IsSpelling(s) && Raw(s) == cut && s.tail == []
  {
    hide White;
    var before, url, after := TrimmedParts(cut);
    s := Spelling(before, url, after, []);
    assert after + [] == after;
    UrlHasNoCut(cut, |before|, url);
  }

  lemma TrimmedParts(cut: Path) returns (before: Path, url: Path, after: Path)
    ensures cut == before + (url + after) && AllWhite(before) && AllWhite(after) && (url == [] ==> after == [])
    ensures url != [] ==> !White(url[0]) && !White(url[|url| - 1])
    ensures url <= cut[|before|..]
  {
    var start := RunEnd(cut, 0, IsWhite);
    before := cut[..start];
    var rest := cut[start..];
    assert rest != [] ==> !White(rest[0]);
    url, after := TrimmedEnd(rest);
  }

  lemma TrimmedEnd(rest: Path) returns (url: Path, after: Path)
    requires rest != [] ==> !White(rest[0])
    ensures rest == url + after && AllWhite(after) && (url == [] ==> after == [])
    ensures url != [] ==> !White(url[0]) && !White(url[|url| - 1])
  {
    url := Prefetch.TrimEnd(rest);
    TrimEndMeans(rest);
    TrimmedIsWhite(rest);
    after := rest[|url|..];
    assert url == [] ==> after == rest;
  }

  lemma UrlHasNoCut(cut: Path, start: nat, url: Path)
    requires start <= |cut| && url <= cut[start..] && forall k :: 0 <= k < |cut| ==> NotCut(cut[k])
    ensures forall i :: 0 <= i < |url| ==> url[i] !in Ascii("?#")
  {
    assert Ascii("?#") == [QUESTION, HASH];
    forall i | 0 <= i < |url| ensures url[i] !in Ascii("?#") {
      assert url[i] == cut[start..][i] == cut[start + i] && NotCut(cut[start + i]);
    }
  }

  lemma {:induction false} TrimmedIsWhite(s: Path)
    ensures Prefetch.TrimEnd(s) <= s && AllWhite(s[|Prefetch.TrimEnd(s)|..])
  {
    if s != [] && IsWhite(s[|s| - 1]) {
      var init := s[..|s| - 1];
      TrimmedIsWhite(init);
      assert s[|Prefetch.TrimEnd(s)|..] == init[|Prefetch.TrimEnd(s)|..] + [s[|s| - 1]];
    } else {
      assert s[|s|..] == [];
    }
  }

  /** Any text is words with white space around them. */
  lemma {:induction false} WordsOf(text: Path) returns (words: seq<Path>, gaps: seq<Path>)
    ensures WellSpaced(words, gaps) && Spaced(words, gaps) == text
    ensures text != [] && White(text[0]) ==> gaps[0] != []
    decreases |text|
  {
    var start := RunEnd(text, 0, IsWhite);
    if start == |text| {
      assert text[..start] == text;
      return [], [text];
    }
    var end := RunEnd(text, start, NotWhite);
    var word := text[start..end];
    var more, later := WordsOf(text[end..]);
    words, gaps := [word] + more, [text[..start]] + later;
    assert words[1..] == more && gaps[1..] == later;
    assert text == text[..start] + word + text[end..];
    forall i | 0 < i < |words| ensures gaps[i] != [] {
      if i == 1 {
        assert text[end..] != [] by {
          assert later[0] + more[0] <= text[end..];
        }
        assert text[end..][0] == text[end];
      }
    }
    forall i | 0 <= i < |gaps| ensures AllWhite(gaps[i]) {
      assert i > 0 ==> gaps[i] == later[i - 1];
    }
    forall i | 0 <= i < |words| ensures IsWord(words[i]) {
      assert i > 0 ==> words[i] == more[i - 1];
    }
  }

  /** Every item there is can be marked rightly: nothing that is printed is left out of ScanOfPage. */
  lemma MarkingOf(item: Item) returns (m: Marked)
    ensures m.item == item && Rightly(m)
  {
    hide Spells, White, WellSpaced, Spaced, IsSpelling, Raw, IsSourced;
    m := Other(item);
    if HasTag(item) && Spells(item.name, "link") {
      var rel := FindNamed(item.attrs, "rel");
      var href := FindNamed(item.attrs, "href");
      var words, gaps := WordsOf(TextAt(item.attrs, rel));
      var says := SpellingOf(TextAt(item.attrs, href));
      m := Link(item, rel, words, gaps, href, says);
    } else if HasTag(item) && IsSourced(item.name) {
      var src := FindNamed(item.attrs, "src");
      var says := SpellingOf(TextAt(item.attrs, src));
      m := Source(item, src, says);
    }
  }

  function TextAt(attrs: seq<Mark>, at: Option<nat>): Path
  {
    if at.Some? && at.value < |attrs| then attrs[at.value].value else []
  }

  // ---- Characters ----

  lemma SpacesAre(b: byte)
    ensures IsSpace(b) <==> b in {9, 10, 12, 13, 32}
  {
  }

  /** Letters and digits, and the small letter of a large one. */
  lemma AlnumsAre(b: byte)
    ensures IsAlnum(b) <==>
      '0' as int <= b <= '9' as int || 'A' as int <= b <= 'Z' as int || 'a' as int <= b <= 'z' as int
    ensures LowerByte(b) == if 'A' as int <= b <= 'Z' as int then b - 'A' as int + 'a' as int else b
  {
  }

  // ---- How a page is printed ----

  lemma PrintedAs(name: Path, m: Mark, tail: Path, text: Path)
    ensures Print(Comment(text)) == Ascii("<!--") + (text + Ascii("-->"))
    ensures Print(OpenComment(text)) == Ascii("<!--") + text && Print(Loose(text)) == Ascii("<") + text
    ensures Print(Element(name, [m], tail)) == Ascii("<") + name + (PrintAttr(m) + (tail + Ascii(">")))
    ensures Print(Pages.Raw(name, [m], tail, text)) ==
      Ascii("<") + name + (PrintAttr(m) + (tail + Ascii(">"))) + (text + (Ascii("</") + name + Ascii(">")))
    ensures PrintAttr(m) ==
      m.lead + (m.name + if m.style.NoValue? then [] else m.before + (Ascii("=") + (m.after + AsWritten(m))))
  {
    hide Ascii;
    Literals();
    OnePrinted(m);
  }

  /** A value as it is written. */
  function AsWritten(m: Mark): Path
  {
    match m.style
    case Double => Ascii("\"") + (m.value + Ascii("\""))
    case Single => Ascii("'") + (m.value + Ascii("'"))
    case _ => m.value
  }

  lemma OnePrinted(m: Mark)
    ensures PrintAttrs([m]) == PrintAttr(m)
    ensures !m.style.NoValue? ==> PrintValue(m.style, m.value) == AsWritten(m)
  {
    assert [m][1..] == [];
    Literals();
  }

  lemma Literals()
    ensures COMMENT == Ascii("<!--") && COMMENT_END == Ascii("-->") && [LT, SLASH] == Ascii("</")
    ensures [LT] == Ascii("<") && [GT] == Ascii(">") && [EQUALS] == Ascii("=")
    ensures [QUOTE] == Ascii("\"") && [APOSTROPHE] == Ascii("'")
  {
  }
}
