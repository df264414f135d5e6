/** The byte-budgeted cache of file contents, cache/mod.rs. */
module BodyCache {
  import opened Common

  datatype Key = Key(path: Path, mtime: nat, size: nat)

  datatype Entry = Entry(key: Key, body: seq<byte>)

  function Total(es: seq<Entry>): (n: nat)
  {
    if es == [] then 0 else |es[0].body| + Total(es[1..])
  }

  /** The specification: what is kept of an insertion history is its longest suffix within the budget. */
  function Fitting(log: seq<Entry>, cap: nat): (kept: seq<Entry>)
    ensures Total(kept) <= cap
  {
    if Total(log) <= cap then log else Fitting(log[1..], cap)
  }

  lemma {:induction false} TotalOfSum(a: seq<Entry>, b: seq<Entry>)
    ensures Total(a + b) == Total(a) + Total(b)
  {
    if a == [] {
      assert a + b == b;
    } else {
      assert (a + b)[1..] == a[1..] + b;
      TotalOfSum(a[1..], b);
    }
  }

  /** Fitting is a suffix of the history, and every suffix that fits is no longer than it. */
  lemma {:induction false} FittingIsLongestSuffix(log: seq<Entry>, cap: nat)
    ensures |Fitting(log, cap)| <= |log|
    ensures Fitting(log, cap) == log[|log| - |Fitting(log, cap)|..]
    ensures forall i: nat :: i <= |log| && Total(log[i..]) <= cap ==> |log| - i <= |Fitting(log, cap)|
  {
    if Total(log) > cap {
      FittingIsLongestSuffix(log[1..], cap);
      var kept := Fitting(log, cap);
      assert log[|log| - |kept|..] == log[1..][|log[1..]| - |kept|..];
      forall i: nat | i <= |log| && Total(log[i..]) <= cap ensures |log| - i <= |kept| {
        assert log[0..] == log;
        assert i > 0;
        assert log[1..][i - 1..] == log[i..];
      }
    }
  }

  /** Evicting as one goes loses nothing: only what is kept now matters for what is kept later. */
  lemma {:induction false} FittingForgets(log: seq<Entry>, e: Entry, cap: nat)
    ensures Fitting(Fitting(log, cap) + [e], cap) == Fitting(log + [e], cap)
  {
    if Total(log) > cap {
      TotalOfSum(log, [e]);
      assert (log + [e])[1..] == log[1..] + [e];
      FittingForgets(log[1..], e, cap);
    }
  }

  ghost predicate DistinctKeys(es: seq<Entry>)
  {
    forall i, j :: 0 <= i < j < |es| ==> es[i].key != es[j].key
  }

  /** The three fields of the cache describe the entries `held`, oldest first. */
  ghost predicate Lists(bodies: map<Key, seq<byte>>, order: seq<Key>, bytes: int, held: seq<Entry>)
  {
    && |order| == |held|
    && (forall i :: 0 <= i < |held| ==> order[i] == held[i].key)
    && DistinctKeys(held)
    && (forall i :: 0 <= i < |held| ==> held[i].key in bodies && bodies[held[i].key] == held[i].body)
    && (forall k :: k in bodies ==> k in order)
    && bytes == Total(held)
  }

  lemma ListsPop(bodies: map<Key, seq<byte>>, order: seq<Key>, bytes: int, held: seq<Entry>)
    requires Lists(bodies, order, bytes, held) && order != []
    ensures order[0] in bodies && bodies[order[0]] == held[0].body
    ensures 0 <= bytes - |held[0].body|
    ensures Lists(bodies - {order[0]}, order[1..], bytes - |held[0].body|, held[1..])
  {
    var rest := held[1..];
    forall i | 0 <= i < |rest|
      ensures rest[i].key in bodies - {order[0]} && (bodies - {order[0]})[rest[i].key] == rest[i].body
    {
      assert rest[i] == held[i + 1] && held[0].key != held[i + 1].key;
    }
    forall k | k in bodies - {order[0]} ensures k in order[1..] {
      var i :| 0 <= i < |order| && order[i] == k;
      assert order[1..][i - 1] == k;
    }
  }

  lemma ListsPush(bodies: map<Key, seq<byte>>, order: seq<Key>, bytes: int, held: seq<Entry>, e: Entry)
    requires Lists(bodies, order, bytes, held) && e.key !in bodies
    ensures Lists(bodies[e.key := e.body], order + [e.key], bytes + |e.body|, held + [e])
  {
    TotalOfSum(held, [e]);
    forall k | k in bodies[e.key := e.body] ensures k in order + [e.key] {
      if k in order {
        var i :| 0 <= i < |order| && order[i] == k;
        assert (order + [e.key])[i] == k;
      } else {
        assert (order + [e.key])[|order|] == e.key;
      }
    }
  }

  /** Nothing goes exactly when there is room for one more. */
  lemma EvictsIffOver(held: seq<Entry>, e: Entry, cap: nat)
    ensures var after := Fitting(held + [e], cap);
      && |after| <= |held| + 1
      && (|after| == |held| + 1 <==> Total(held) + |e.body| <= cap)
      && (|after| == |held| + 1 ==> after == held + [e])
  {
    TotalOfSum(held, [e]);
    FittingIsLongestSuffix(held + [e], cap);
  }

  /** With no entry fewer, what was held is held. */
  lemma ListsKeeps(bodies: map<Key, seq<byte>>, order: seq<Key>, bytes: int, held: seq<Entry>,
                   later: map<Key, seq<byte>>, newOrder: seq<Key>, newBytes: int, more: seq<Entry>)
    requires Lists(bodies, order, bytes, held) && Lists(later, newOrder, newBytes, more) && held <= more
    ensures forall k :: k in bodies ==> k in later
  {
    forall k | k in bodies ensures k in later {
      var i :| 0 <= i < |order| && order[i] == k;
      assert more[i].key == k;
    }
  }

  /** An entry that fits the budget is never itself evicted: what is too big holds something older. */
  lemma TooBigHoldsOlder(held: seq<Entry>, e: Entry, cap: nat)
    requires held != [] && held[|held| - 1] == e && |e.body| <= cap < Total(held)
    ensures |held| > 1
  {
    var older := held[..|held| - 1];
    assert held == older + [e];
    TotalOfSum(older, [e]);
    assert Total(older) > 0;
  }

  /**
   `bodies` holds the bodies, `order` their keys from oldest to newest, `bytes` their total length.
   `log` is the history of accepted insertions, `held` the part of it still in the map.
   */
  class Bodies {
    var bodies: map<Key, seq<byte>>
    var order: seq<Key>
    var bytes: int
    const cap: nat
    ghost var log: seq<Entry>
    ghost var held: seq<Entry>

    ghost predicate Listed()
      reads this
    {
      Lists(bodies, order, bytes, held)
    }

    ghost predicate Valid()
      reads this
    {
      Listed() && held == Fitting(log, cap)
    }

    /** How many entries have been evicted so far. */
    ghost function Evicted(): int
      reads this
    {
      |log| - |held|
    }

    constructor (cap: nat)
      ensures Valid() && log == [] && this.cap == cap && bodies == map[]
    {
      this.cap := cap;
      bodies, order, bytes := map[], [], 0;
      log, held := [], [];
    }

    function Lookup(k: Key): (r: Option<seq<byte>>)
      reads this
    {
      if k in bodies then Some(bodies[k]) else None
    }

    /** Drop the oldest entry. The subtraction never goes below zero. */
    method PopOldest()
      requires Listed() && order != []
      modifies this
      ensures Listed() && held == old(held)[1..] && log == old(log)
      ensures 0 <= bytes == old(bytes) - |old(held)[0].body|
      ensures bodies == old(bodies) - {old(held)[0].key}
    {
      var oldest := order[0];
      ListsPop(bodies, order, bytes, held);
      order := order[1..];
      if oldest in bodies {
        var dropped := bodies[oldest];
        bodies := bodies - {oldest};
        bytes := bytes - |dropped|;
      }
      held := held[1..];
    }

    method PushNewest(e: Entry)
      requires Listed() && e.key !in bodies
      modifies this
      ensures Listed() && held == old(held) + [e] && log == old(log)
      ensures bodies == old(bodies)[e.key := e.body]
    {
      ListsPush(bodies, order, bytes, held, e);
      bytes := bytes + |e.body|;
      order := order + [e.key];
      bodies := bodies[e.key := e.body];
      held := held + [e];
    }

    /** The eviction loop: it stops before the entry just pushed. */
    method Evict(ghost e: Entry)
      requires Listed() && held != [] && held[|held| - 1] == e && |e.body| <= cap
      modifies this
      ensures Listed() && log == old(log) && held == Fitting(old(held), cap)
      ensures bytes <= cap && e.key in bodies && bodies[e.key] == e.body
      ensures forall k :: k in bodies ==> k in old(bodies) && bodies[k] == old(bodies)[k]
    {
      while bytes > cap
        invariant Listed() && log == old(log)
        invariant Fitting(held, cap) == Fitting(old(held), cap)
        invariant held != [] && held[|held| - 1] == e
        invariant forall k :: k in bodies ==> k in old(bodies) && bodies[k] == old(bodies)[k]
        decreases |held|
      {
        TooBigHoldsOlder(held, e, cap);
        if order == [] {
          break;
        }
        PopOldest();
      }
      assert held[|held| - 1].key in bodies;
    }

    method Insert(key: Key, body: seq<byte>)
      requires Valid()
      modifies this
      ensures Valid() && bytes <= cap
      ensures |body| > cap || key in old(bodies) ==> log == old(log) && bodies == old(bodies)
      ensures |body| <= cap && key !in old(bodies) ==>
        log == old(log) + [Entry(key, body)] && Lookup(key) == Some(body)
      ensures forall k :: k in bodies ==>
        (k in old(bodies) && bodies[k] == old(bodies)[k]) || (k == key && bodies[k] == body)
      ensures old(Evicted()) <= Evicted()
      ensures Evicted() == old(Evicted()) <==> |body| > cap || key in old(bodies) || old(bytes) + |body| <= cap
      ensures Evicted() == old(Evicted()) ==> forall k :: k in old(bodies) ==> k in bodies
    {
      if |body| > cap || key in bodies {
        return;
      }
      ghost var e, was := Entry(key, body), held;
      FittingForgets(log, e, cap);
      PushNewest(Entry(key, body));
      Evict(e);
      log := log + [e];
      EvictsIffOver(was, e, cap);
      if |held| == |was| + 1 {
        ListsKeeps(old(bodies), old(order), old(bytes), was, bodies, order, bytes, held);
      }
    }
  }

  // ---- Whole runs ----

  datatype Insertion = Insertion(key: Key, body: seq<byte>)

  /** The history of accepted insertions after a run, decided by what is held at each moment. */
  function Accepted(run: seq<Insertion>, cap: nat): seq<Entry>
  {
    if run == [] then [] else
      var log := Accepted(run[..|run| - 1], cap);
      var i := run[|run| - 1];
      if |i.body| > cap || Holds(Fitting(log, cap), i.key) then log
      else log + [Entry(i.key, i.body)]
  }

  predicate Holds(es: seq<Entry>, k: Key)
  {
    exists j :: 0 <= j < |es| && es[j].key == k
  }

  /** After any run, the cache holds exactly the longest fitting suffix of the accepted insertions. */
  method Replay(run: seq<Insertion>, cap: nat) returns (b: Bodies)
    ensures fresh(b) && b.Valid() && b.cap == cap && b.bytes <= cap
    ensures b.log == Accepted(run, cap)
    ensures forall k, v :: b.Lookup(k) == Some(v) <==> Entry(k, v) in Fitting(Accepted(run, cap), cap)
  {
    b := new Bodies(cap);
    assert run[..0] == [];
    for i := 0 to |run|
      invariant fresh(b) && b.Valid() && b.cap == cap && b.bytes <= cap
      invariant b.log == Accepted(run[..i], cap)
    {
      assert run[..i + 1][..i] == run[..i];
      assert run[i].key in b.bodies <==> Holds(b.held, run[i].key);
      b.Insert(run[i].key, run[i].body);
    }
    assert run[..|run|] == run;
    forall k, v ensures b.Lookup(k) == Some(v) <==> Entry(k, v) in b.held {
      if k in b.bodies {
        var i :| 0 <= i < |b.order| && b.order[i] == k;
        assert b.held[i] == Entry(k, b.bodies[k]);
      }
    }
  }
}
