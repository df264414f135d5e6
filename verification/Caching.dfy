/** The listing cache with its time to live, beside the body cache, cache/mod.rs:80-210. */
module Caching {
  import opened Common
  import opened Remotes
  import opened BodyCache

  datatype Listing = Listing(entries: map<Path, Attrs>, fetched: nat)

  /** Collecting into a HashMap: for a name listed twice the last one stays. */
  function AsMap(es: seq<Remotes.Entry>): map<Path, Attrs>
  {
    if es == [] then map[] else AsMap(es[..|es| - 1])[es[|es| - 1].name := es[|es| - 1].attrs]
  }

  /** `entries.iter().find(..)`: for a name listed twice the first one answers. */
  function Find(es: seq<Remotes.Entry>, name: Path): Option<Attrs>
  {
    if es == [] then None else if es[0].name == name then Some(es[0].attrs) else Find(es[1..], name)
  }

  function Get(m: map<Path, Attrs>, name: Path): Option<Attrs>
  {
    if name in m then Some(m[name]) else None
  }

  predicate FirstOf(es: seq<Remotes.Entry>, i: int)
    requires 0 <= i < |es|
  {
    forall j :: 0 <= j < i ==> es[j].name != es[i].name
  }

  predicate LastOf(es: seq<Remotes.Entry>, i: int)
    requires 0 <= i < |es|
  {
    forall j :: i < j < |es| ==> es[j].name != es[i].name
  }

  /** For a name listed more than once, the first and the last mention carry the same attributes. */
  predicate Coherent(es: seq<Remotes.Entry>)
  {
    forall i, j :: 0 <= i < |es| && 0 <= j < |es| && FirstOf(es, i) && LastOf(es, j) && es[i].name == es[j].name ==>
      es[i].attrs == es[j].attrs
  }

  predicate Mentions(es: seq<Remotes.Entry>, name: Path)
  {
    exists i :: 0 <= i < |es| && es[i].name == name
  }

  lemma {:induction false} FindMeans(es: seq<Remotes.Entry>, name: Path) returns (i: int)
    ensures Find(es, name).None? <==> !Mentions(es, name)
    ensures Find(es, name).Some? ==>
      0 <= i < |es| && es[i] == Remotes.Entry(name, Find(es, name).value) && FirstOf(es, i)
  {
    i := 0;
    if es != [] {
      if es[0].name == name {
        assert Mentions(es, name);
      } else {
        var j := FindMeans(es[1..], name);
        i := j + 1;
        assert forall k :: 0 < k < |es| ==> es[k] == es[1..][k - 1];
        if Find(es, name).Some? {
          assert es[i].name == name;
        }
      }
    }
  }

  lemma {:induction false} AsMapMeans(es: seq<Remotes.Entry>, name: Path) returns (i: int)
    ensures name !in AsMap(es) <==> !Mentions(es, name)
    ensures name in AsMap(es) ==> 0 <= i < |es| && es[i] == Remotes.Entry(name, AsMap(es)[name]) && LastOf(es, i)
  {
    i := |es| - 1;
    if es != [] && es[i].name != name {
      var init := es[..|es| - 1];
      i := AsMapMeans(init, name);
      if name in AsMap(es) {
        assert es[i] == init[i];
      } else {
        forall k | 0 <= k < |es| ensures es[k].name != name {
          if k < |init| {
            assert es[k] == init[k];
          }
        }
      }
    } else if es != [] {
      assert Mentions(es, name);
    }
  }

  /** A cached listing answers every lookup as the fresh one does exactly when the listing is coherent. */
  lemma {:induction false} CachedLookupAgrees(es: seq<Remotes.Entry>)
    ensures Coherent(es) <==> forall name :: Get(AsMap(es), name) == Find(es, name)
  {
    if Coherent(es) {
      forall name ensures Get(AsMap(es), name) == Find(es, name) {
        var i := FindMeans(es, name);
        var j := AsMapMeans(es, name);
      }
    } else {
      var i, j :| 0 <= i < |es| && 0 <= j < |es| && FirstOf(es, i) && LastOf(es, j) && es[i].name == es[j].name
        && es[i].attrs != es[j].attrs;
      var name := es[i].name;
      assert Mentions(es, name);
      var first := FindMeans(es, name);
      var last := AsMapMeans(es, name);
      assert first == i && last == j;
      assert Get(AsMap(es), name) != Find(es, name);
    }
  }

  function KeyOf(path: Path, attrs: Attrs): Option<Key>
  {
    if attrs.mtime.Some? && attrs.size.Some? then Some(Key(path, attrs.mtime.value, attrs.size.value)) else None
  }

  class Cache {
    var listings: map<Path, Listing>
    var now: nat
    const ttl: nat
    const bodies: Bodies

    constructor (ttl: nat, cap: nat)
      ensures listings == map[] && fresh(bodies) && bodies.Valid() && bodies.bodies == map[] && this.ttl == ttl
    {
      listings, now := map[], 0;
      this.ttl := ttl;
      bodies := new Bodies(cap);
    }

    predicate Fresh(dir: Path)
      reads this
    {
      dir in listings && now - listings[dir].fetched < ttl
    }

    function AttrsOf(dir: Path, name: Path): Option<Attrs>
      reads this
    {
      if Fresh(dir) then Get(listings[dir].entries, name) else None
    }

    /** The entries of a fresh listing, in the order the map happens to give them. */
    method ListingEntries(dir: Path) returns (r: Option<seq<Remotes.Entry>>)
      ensures r.Some? <==> Fresh(dir)
      ensures r.Some? ==> forall name :: Find(r.value, name) == Get(listings[dir].entries, name)
    {
      if !Fresh(dir) {
        return None;
      }
      var es := InSomeOrder(listings[dir].entries);
      r := Some(es);
    }

    method PutListing(dir: Path, entries: seq<Remotes.Entry>)
      modifies this`listings
      ensures listings == old(listings)[dir := Listing(AsMap(entries), now)]
    {
      var m: map<Path, Attrs> := map[];
      for i := 0 to |entries|
        invariant m == AsMap(entries[..i])
      {
        assert entries[..i + 1][..i] == entries[..i];
        m := m[entries[i].name := entries[i].attrs];
      }
      assert entries[..|entries|] == entries;
      listings := listings[dir := Listing(m, now)];
    }

    method ForgetListing(dir: Path)
      modifies this`listings
      ensures listings == old(listings) - {dir}
    {
      listings := listings - {dir};
    }

    function Body(path: Path, attrs: Attrs): Option<seq<byte>>
      reads this, bodies
    {
      match KeyOf(path, attrs)
      case None => None
      case Some(k) => bodies.Lookup(k)
    }

    method PutBody(path: Path, attrs: Attrs, body: seq<byte>)
      requires bodies.Valid()
      modifies bodies
      ensures bodies.Valid()
      ensures forall k :: k in bodies.bodies ==>
        || (k in old(bodies.bodies) && bodies.bodies[k] == old(bodies.bodies)[k])
        || (KeyOf(path, attrs) == Some(k) && bodies.bodies[k] == body)
      ensures KeyOf(path, attrs).None? ==> bodies.bodies == old(bodies.bodies) && bodies.log == old(bodies.log)
      ensures KeyOf(path, attrs).Some? && (|body| > bodies.cap || KeyOf(path, attrs).value in old(bodies.bodies)) ==>
        bodies.bodies == old(bodies.bodies) && bodies.log == old(bodies.log)
      ensures KeyOf(path, attrs).Some? && |body| <= bodies.cap && KeyOf(path, attrs).value !in old(bodies.bodies) ==>
        Body(path, attrs) == Some(body) &&
          bodies.log == old(bodies.log) + [BodyCache.Entry(KeyOf(path, attrs).value, body)]
      ensures old(bodies.Evicted()) <= bodies.Evicted()
      ensures bodies.Evicted() == old(bodies.Evicted()) ==> forall k :: k in old(bodies.bodies) ==> k in bodies.bodies
    {
      var key := KeyOf(path, attrs);
      if key.Some? {
        bodies.Insert(key.value, body);
      }
    }
  }

  /** A listing that has been put answers for as long as it may live, and then no more. */
  method ListedThenAsked(cache: Cache, dir: Path, entries: seq<Remotes.Entry>, elapsed: nat)
    returns (r: Option<seq<Remotes.Entry>>)
    modifies cache
    ensures r.Some? <==> elapsed < cache.ttl
    ensures r.Some? ==> forall name :: Find(r.value, name) == Get(AsMap(entries), name)
    ensures forall name ::
      cache.AttrsOf(dir, name) == if elapsed < cache.ttl then Get(AsMap(entries), name) else None
  {
    cache.PutListing(dir, entries);
    cache.now := cache.now + elapsed;
    r := cache.ListingEntries(dir);
  }

  /** A map's entries, each once, in an arbitrary order. */
  method InSomeOrder(m: map<Path, Attrs>) returns (es: seq<Remotes.Entry>)
    ensures forall name :: Find(es, name) == Get(m, name)
  {
    es := [];
    var left := m;
    while left != map[]
      invariant forall name :: name in left ==> name in m && left[name] == m[name] && Find(es, name) == None
      invariant forall name :: name !in left ==> Find(es, name) == Get(m, name)
      decreases |left|
    {
      var name :| name in left;
      es := [Remotes.Entry(name, left[name])] + es;
      left := left - {name};
    }
  }
}
