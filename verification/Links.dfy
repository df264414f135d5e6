/**
 What a request path leads to, and what a reference on a page does, said of the names that were written;
 origin/guard.rs:105-126 and origin/mod.rs:2335-2347.
 */
module Links {
  import opened Common
  import opened Guard
  import opened Encodings

  // ---- Following names ----

  /** Names with a slash between any two. */
  function Slashed(names: seq<Path>): Path
    requires names != []
  {
    if |names| == 1 then names[0] else Slashed(names[..|names| - 1]) + Ascii("/") + names[|names| - 1]
  }

  predicate NoSlash(names: seq<Path>) { forall i :: 0 <= i < |names| ==> SLASH !in names[i] }

  /** One name at a time: down, up, or nowhere; never above where everything starts. */
  function Follow(at: seq<Path>, names: seq<Path>): Option<seq<Path>>
  {
    if names == [] then Some(at)
    else
      var last := names[|names| - 1];
      match Follow(at, names[..|names| - 1])
      case None => None
      case Some(there) =>
        if last == Ascii("") || last == Ascii(".") then Some(there)
        else if last == Ascii("..") then (if there == [] then None else Some(there[..|there| - 1]))
        else Some(there + [last])
  }

  predicate CleanName(name: Path) { Utf8(name) && Ascii("\0")[0] !in name }

  predicate Clean(names: seq<Path>) { forall i :: 0 <= i < |names| ==> CleanName(names[i]) }

  lemma {:induction false} SplitSlashed(names: seq<Path>)
    requires names != [] && NoSlash(names)
    ensures Split(Slashed(names)) == names
  {
    hide Split;
    var init, last := names[..|names| - 1], names[|names| - 1];
    assert names == init + [last];
    if |names| == 1 {
      SplitWhole(last);
    } else {
      SplitSlashed(init);
      assert Ascii("/") == [SLASH];
      SplitAppendName(Slashed(init), last);
    }
  }

  lemma {:induction false} SplitWhole(s: Path)
    requires SLASH !in s
    ensures Split(s) == [s]
  {
    if s != [] {
      SplitWhole(s[..|s| - 1]);
      assert s[|s| - 1] in s;
      assert s[..|s| - 1] + [s[|s| - 1]] == s;
    }
  }

  /** Following names from the base is surviving, unless some climb leaves it. */
  lemma {:induction false} FollowIsSurviving(names: seq<Path>)
    ensures Follow([], names) == if Escapes(names) then None else Some(Survivors(names))
  {
    if names == [] {
      assert names[..0] == [] && !Escapes(names);
    } else {
      var init := names[..|names| - 1];
      FollowIsSurviving(init);
      SurvivorsAreReal(init);
      EscapesNext(names);
    }
  }

  lemma EscapesLater(init: seq<Path>, names: seq<Path>)
    requires Escapes(init) && init <= names
    ensures Escapes(names)
  {
    hide Depth;
    var k :| 0 <= k <= |init| && Depth(init[..k]) < 0;
    assert init[..k] == names[..k];
  }

  lemma EscapesAtEnd(names: seq<Path>)
    requires Depth(names) < 0
    ensures Escapes(names)
  {
    hide Depth;
    assert names[..|names|] == names;
  }

  lemma EscapesNowhere(init: seq<Path>, names: seq<Path>)
    requires names != [] && init == names[..|names| - 1] && !Escapes(init) && Depth(names) >= 0
    ensures !Escapes(names)
  {
    hide Depth;
    forall k | 0 <= k <= |names| ensures Depth(names[..k]) >= 0 {
      if k <= |init| {
        assert init[..k] == names[..k];
      } else {
        assert names[..k] == names;
      }
    }
  }

  lemma EscapesNext(names: seq<Path>)
    requires names != []
    ensures Escapes(names) <==> Escapes(names[..|names| - 1]) || Depth(names) < 0
  {
    hide *;
    var init := names[..|names| - 1];
    if Escapes(init) {
      EscapesLater(init, names);
    } else if Depth(names) < 0 {
      EscapesAtEnd(names);
    } else {
      EscapesNowhere(init, names);
    }
  }

  /** A slash is a character of its own. */
  lemma {:induction false} Utf8Parts(a: Path, b: Path)
    ensures Utf8(a + [SLASH] + b) <==> Utf8(a) && Utf8(b)
    decreases |a|
  {
    var s := a + [SLASH] + b;
    if a == [] {
      assert s[1..] == b;
    } else {
      assert s[|a|] == SLASH && forall i :: 0 <= i < |a| ==> s[i] == a[i];
      var n := CharLength(s);
      LengthWithin(a, s);
      if n > 0 {
        Utf8Parts(a[n..], b);
        assert s[n..] == a[n..] + [SLASH] + b;
      }
    }
  }

  lemma LengthWithin(a: Path, s: Path)
    requires a != [] && |a| < |s| && s[|a|] == SLASH && forall i :: 0 <= i < |a| ==> s[i] == a[i]
    ensures CharLength(s) == CharLength(a)
  {
  }

  lemma {:induction false} CleanSlashed(names: seq<Path>)
    requires names != []
    ensures Utf8(Slashed(names)) && NUL !in Slashed(names) <==> Clean(names)
  {
    hide Utf8;
    if |names| > 1 {
      var init, last := names[..|names| - 1], names[|names| - 1];
      CleanSlashed(init);
      Utf8Parts(Slashed(init), last);
      assert Ascii("/") == [SLASH];
      assert names == init + [last];
    }
    assert Ascii("\0")[0] == NUL;
  }

  /**
   A path, in whatever way it is written, leads to what following its names from the base leads to; and nowhere
   if some climb leaves the base, or a name is not UTF-8 or has a NUL in it.
   */
  lemma PathLeads(gs: seq<Glyph>, names: seq<Path>)
    requires Proper(gs) && names != [] && NoSlash(names) && Bytes(gs) == Slashed(names)
    ensures Segments(Text(gs)) == if Clean(names) then Follow([], names) else None
  {
    TextReads(gs);
    SplitSlashed(names);
    CleanSlashed(names);
    FollowIsSurviving(names);
  }

  // ---- References ----

  function BeforeLastSlash(p: Path): Path
  {
    if p == [] then [] else if p[|p| - 1] == SLASH then p[..|p| - 1] else BeforeLastSlash(p[..|p| - 1])
  }

  /** The URL a reference on a page stands for. */
  function UrlOf(docPath: Path, r: Path): Path
  {
    if r != [] && r[0] == SLASH then r else BeforeLastSlash(docPath) + [SLASH] + r
  }

  lemma {:induction false} LastSlash(dir: Path, page: Path)
    requires SLASH !in page
    ensures BeforeLastSlash(dir + Ascii("/") + page) == dir
    ensures BeforeLastSlash(page) == []
    decreases |page|
  {
    var p := dir + Ascii("/") + page;
    if page == [] {
      assert p[..|p| - 1] == dir;
    } else {
      LastSlash(dir, page[..|page| - 1]);
      assert page[|page| - 1] in page && p[..|p| - 1] == dir + Ascii("/") + page[..|page| - 1];
    }
  }

  lemma TextJoins(a: seq<Glyph>, b: seq<Glyph>)
    ensures Text(a + b) == Text(a) + Text(b)
    decreases |a|
  {
    if a == [] {
      assert a + b == b;
    } else {
      assert (a + b)[1..] == a[1..] + b;
      TextJoins(a[1..], b);
    }
  }

  lemma {:induction false} SlashedJoins(a: seq<Path>, b: seq<Path>)
    requires a != [] && b != []
    ensures Slashed(a + b) == Slashed(a) + Ascii("/") + Slashed(b)
  {
    var init, last := b[..|b| - 1], b[|b| - 1];
    assert (a + b)[..|a + b| - 1] == a + init;
    if |b| == 1 {
      assert a + init == a;
    } else {
      SlashedJoins(a, init);
    }
  }

  /** A page in a directory, both written out: where it is is what stands in front of its last slash. */
  predicate IsPage(doc: Path, dir: seq<Glyph>, page: Path) { SLASH !in page && doc == Text(dir) + Ascii("/") + page }

  /** What is written stands for these names. */
  predicate Names(gs: seq<Glyph>, names: seq<Path>)
  {
    Proper(gs) && names != [] && NoSlash(names) && Bytes(gs) == Slashed(names)
  }

  /** A reference that starts with a slash leads where it says, whatever page it stands on. */
  lemma AbsoluteLeads(doc: Path, ref: seq<Glyph>, names: seq<Path>)
    requires Names(ref, names) && Ascii("/") <= Text(ref)
    ensures Segments(UrlOf(doc, Text(ref))) == if Clean(names) then Follow([], names) else None
  {
    assert Text(ref)[0] == Ascii("/")[0];
    PathLeads(ref, names);
  }

  /** Any other leads on from the directory of the page. */
  lemma RelativeLeads(doc: Path, dir: seq<Glyph>, page: Path, above: seq<Path>, ref: seq<Glyph>, names: seq<Path>)
    requires IsPage(doc, dir, page) && Names(dir, above) && Names(ref, names) && !(Ascii("/") <= Text(ref))
    ensures Segments(UrlOf(doc, Text(ref))) == if Clean(above + names) then Follow([], above + names) else None
  {
    hide Names, Segments, Clean, Follow, Text, BeforeLastSlash;
    LastSlash(Text(dir), page);
    assert Ascii("/") == [SLASH];
    var gs := NamesJoin(dir, above, ref, names);
    NamesLead(gs, above + names);
  }

  lemma NamesLead(gs: seq<Glyph>, names: seq<Path>)
    requires Names(gs, names)
    ensures Segments(Text(gs)) == if Clean(names) then Follow([], names) else None
  {
    PathLeads(gs, names);
  }

  lemma NamesJoin(dir: seq<Glyph>, above: seq<Path>, ref: seq<Glyph>, names: seq<Path>) returns (gs: seq<Glyph>)
    requires Names(dir, above) && Names(ref, names)
    ensures Names(gs, above + names) && Text(gs) == Text(dir) + Ascii("/") + Text(ref)
  {
    hide Text, Slashed;
    var slash := [Plainly(SLASH)];
    gs := dir + slash + ref;
    TextJoins(dir + slash, ref);
    TextJoins(dir, slash);
    SlashIsText();
    SlashedJoins(above, names);
    assert Bytes(gs) == Bytes(dir) + Ascii("/") + Bytes(ref);
  }

  lemma SlashIsText()
    ensures var slash := [Plainly(SLASH)]; Text(slash) == Ascii("/") && ProperGlyph(slash[0])
  {
    assert [Plainly(SLASH)][1..] == [];
    assert Ascii("/") == [SLASH] && Ascii("%") == [PERCENT];
  }

  lemma {:induction false} FollowOn(at: seq<Path>, above: seq<Path>, names: seq<Path>)
    requires Follow(at, above).Some?
    ensures Follow(at, above + names) == Follow(Follow(at, above).value, names)
  {
    if names == [] {
      assert above + names == above;
    } else {
      FollowOn(at, above, names[..|names| - 1]);
      assert (above + names)[..|above + names| - 1] == above + names[..|names| - 1];
    }
  }

  /** Names of entries are gone down into, one after another. */
  lemma {:induction false} FollowDown(at: seq<Path>, names: seq<Path>)
    requires forall i :: 0 <= i < |names| ==> EntryName(names[i])
    ensures Follow(at, names) == Some(at + names)
  {
    if names == [] {
      assert at + names == at;
    } else {
      var init, last := names[..|names| - 1], names[|names| - 1];
      FollowDown(at, init);
      assert at + names == at + init + [last];
    }
  }

  predicate Entries(names: seq<Path>) { forall i :: 0 <= i < |names| ==> EntryName(names[i]) }

  /**
   On a page in a directory below the base: names alone lead down from there, with two dots in front from the
   directory above, and out of the base nowhere.
   */
  lemma ReferenceLeads(doc: Path, dir: seq<Glyph>, page: Path, above: seq<Path>, ref: seq<Glyph>, names: seq<Path>)
    requires IsPage(doc, dir, page) && Entries(above) && Names(dir, [Ascii("")] + above) && Entries(names)
    requires !(Ascii("/") <= Text(ref))
    ensures Names(ref, names) ==> Segments(UrlOf(doc, Text(ref))) == Some(above + names)
    ensures Names(ref, [Ascii("..")] + names) ==>
      Segments(UrlOf(doc, Text(ref))) == if above == [] then None else Some(above[..|above| - 1] + names)
  {
    hide Names, Segments, UrlOf, IsPage, Follow, EntryName;
    var from := [Ascii("")] + above;
    FromTop(above);
    if Names(ref, names) {
      RelativeLeads(doc, dir, page, from, ref, names);
      EntriesAreClean(above, [], names);
      assert from + names == [Ascii("")] + above + [] + names;
      FollowOn([], from, names);
      FollowDown(above, names);
    }
    var up := [Ascii("..")] + names;
    if Names(ref, up) {
      RelativeLeads(doc, dir, page, from, ref, up);
      EntriesAreClean(above, [Ascii("..")], names);
      assert from + up == [Ascii("")] + above + [Ascii("..")] + names;
      FollowOn([], from, up);
      UpFirst(above, names);
    }
  }

  lemma FromTop(above: seq<Path>)
    requires Entries(above)
    ensures Follow([], [Ascii("")] + above) == Some(above)
  {
    hide EntryName;
    var top := [Ascii("")];
    assert top[..0] == [] && Follow([], top) == Some([]);
    FollowOn([], top, above);
    FollowDown([], above);
    assert [] + above == above;
  }

  lemma UpFirst(above: seq<Path>, names: seq<Path>)
    requires Entries(names)
    ensures Follow(above, [Ascii("..")] + names) ==
      if above == [] then None else Some(above[..|above| - 1] + names)
  {
    hide EntryName;
    var up := [Ascii("..")];
    assert up[..0] == [] && Follow(above, []) == Some(above);
    if above == [] {
      NowhereOn(above, up, names);
    } else {
      FollowOn(above, up, names);
      FollowDown(above[..|above| - 1], names);
    }
  }

  lemma {:induction false} NowhereOn(at: seq<Path>, up: seq<Path>, names: seq<Path>)
    requires Follow(at, up).None?
    ensures Follow(at, up + names).None?
  {
    if names == [] {
      assert up + names == up;
    } else {
      NowhereOn(at, up, names[..|names| - 1]);
      assert (up + names)[..|up + names| - 1] == up + names[..|names| - 1];
    }
  }

  lemma EntriesAreClean(above: seq<Path>, up: seq<Path>, names: seq<Path>)
    requires Entries(above) && Entries(names) && (up == [] || up == [Ascii("..")])
    ensures Clean([Ascii("")] + above + up + names)
  {
    var all := [Ascii("")] + above + up + names;
    DotsAreClean();
    forall i | 0 <= i < |all| ensures CleanName(all[i]) {
      assert all[i] == Ascii("") || all[i] == Ascii("..") || all[i] in above || all[i] in names;
    }
  }

  lemma DotsAreClean()
    ensures CleanName(Ascii("")) && CleanName(Ascii("..")) && Ascii("\0")[0] == NUL
  {
    var dots := Ascii("..");
    assert dots == [DOT, DOT] && dots[1..] == [DOT] && [DOT][1..] == [];
  }

  // ---- Below a base ----

  lemma {:induction false} SlashesTrimmed(base: Path, slashes: Path)
    requires (base != [] ==> base[|base| - 1] != Ascii("/")[0])
    requires forall i :: 0 <= i < |slashes| ==> slashes[i] == Ascii("/")[0]
    ensures TrimEnd(base + slashes) == base
  {
    if slashes == [] {
      assert base + slashes == base;
    } else {
      var s := base + slashes;
      assert s[..|s| - 1] == base + slashes[..|slashes| - 1];
      SlashesTrimmed(base, slashes[..|slashes| - 1]);
    }
  }

  lemma {:induction false} JoinedIs(base: Path, names: seq<Path>)
    ensures Joined(base, names) == if names == [] then base else base + Ascii("/") + Slashed(names)
  {
    if |names| > 1 {
      JoinedIs(base, names[..|names| - 1]);
    } else if |names| == 1 {
      assert names[..0] == [];
    }
  }

  /** What names lead to below a base, however many slashes the base ends in: the names, a slash before each. */
  lemma BelowBase(base: Path, slashes: Path, names: seq<Path>)
    requires (base != [] ==> base[|base| - 1] != Ascii("/")[0])
    requires forall i :: 0 <= i < |slashes| ==> slashes[i] == Ascii("/")[0]
    ensures Joined(TrimEnd(base + slashes), names) ==
      if names == [] then base else base + Ascii("/") + Slashed(names)
  {
    SlashesTrimmed(base, slashes);
    JoinedIs(base, names);
  }
}
