/**
 Which requests a page makes, from the page as it is printed and the paths as they are written, to the requests
 whose costs Origins.Origin.ServePage bounds.
 */
module Visits {
  import opened Common
  import opened Guard
  import opened Answers
  import opened Encodings
  import opened Links
  import opened Origins
  import Pages
  import Prefetch
  import References

  lemma {:induction false} DistinctHas(s: seq<Path>, x: Path)
    ensures x in Pages.Distinct(s) <==> x in s
    ensures |Pages.Distinct(s)| <= |s|
  {
    if s != [] {
      DistinctHas(s[..|s| - 1], x);
      assert s == s[..|s| - 1] + [s[|s| - 1]];
    }
  }

  /** What a page with no more references than are taken refers to is what the prefetcher takes from it. */
  lemma RefsAreTaken(ms: seq<References.Marked>, url: Path)
    requires References.RightlyMarked(ms) && Pages.IsPage(Prefetch.HTML, References.Items(ms))
    requires |References.Expected(ms)| <= 64
    ensures url in RefsOf(Pages.PrintAll(References.Items(ms))) <==> url in References.Expected(ms)
  {
    hide Prefetch.HTML;
    var all := Pages.Distinct(References.Expected(ms));
    References.ScanOfPage(ms, Prefetch.MAX_SUBRESOURCES);
    DistinctHas(References.Expected(ms), url);
    assert Pages.First(all, Prefetch.MAX_SUBRESOURCES) == all;
  }

  /**
   A page below the base, in the directory `above`, that refers to names beside it or further down: a request for
   those names in that directory, however its path is written, is one of those that ServePage speaks of.
   */
  lemma PageAsksFor(
    origin: Origin, first: Request, ms: seq<References.Marked>, req: Request, dir: seq<Glyph>, page: Path,
    above: seq<Path>, ref: seq<Glyph>, names: seq<Path>, asked: seq<Glyph>)
    requires References.RightlyMarked(ms) && Pages.IsPage(Prefetch.HTML, References.Items(ms))
    requires |References.Expected(ms)| <= 64 && Text(ref) in References.Expected(ms)
    requires Links.IsPage(first.path, dir, page) && Entries(above) && Names(dir, [Ascii("")] + above)
    requires !(Ascii("/") <= Text(ref)) && Entries(names) && Names(ref, names)
    requires req.path == Text(asked) && Names(asked, [Ascii("")] + above + names)
    requires !req.WantsDir() && origin.Beside(origin.ChainOf(first), req.path)
    ensures origin.AsksFor(first, Pages.PrintAll(References.Items(ms)), req)
  {
    hide Names, Text, RefsOf, Segments, UrlOf, Links.IsPage, Follow, EntryName, Prefetch.HTML, Pages.PrintAll,
      References.RightlyMarked, References.Expected, Pages.IsPage, origin.Beside;
    RefsAreTaken(ms, Text(ref));
    ReferenceLeads(first.path, dir, page, above, ref, names);
    NamesLead(asked, [Ascii("")] + above + names);
    EntriesAreClean(above, [], names);
    assert [Ascii("")] + above + [] + names == [Ascii("")] + above + names;
    assert [Ascii("")] + above + names == [Ascii("")] + (above + names);
    FromTop(above + names);
  }
}
