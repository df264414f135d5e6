/**
 The file-name matcher behind the Include lines of an ssh_config, ssh_config/mod.rs.

 Matches is the textbook meaning of `*` and `?`. Walks is the slightly smaller relation that the
 loop decides, which goes back to the last star it has passed: a pattern star that faces a literal
 `*` in the name is taken as that character, because the equality test comes first.
 */
module Glob {
  function Matches(p: string, n: string): bool
    decreases |p| + |n|
  {
    if p == "" then n == ""
    else if p[0] == '*' then Matches(p[1..], n) || (n != "" && Matches(p, n[1..]))
    else n != "" && (p[0] == '?' || p[0] == n[0]) && Matches(p[1..], n[1..])
  }

  function Walks(p: string, n: string): bool
    decreases |p|, |n|, 0
  {
    if p == "" then n == ""
    else if n != "" && (p[0] == '?' || p[0] == n[0]) then Walks(p[1..], n[1..])
    else p[0] == '*' && WalksSomeSuffix(p[1..], n)
  }

  /** Does the walk accept some suffix of n? */
  function WalksSomeSuffix(p: string, n: string): bool
    decreases |p|, |n|, 1
  {
    Walks(p, n) || (n != "" && WalksSomeSuffix(p, n[1..]))
  }

  /** WalksSomeSuffix says what its name says. */
  lemma {:induction false} SomeSuffix(p: string, n: string)
    ensures WalksSomeSuffix(p, n) <==> exists k: nat :: k <= |n| && Walks(p, n[k..])
    decreases |n|
  {
    assert n[0..] == n;
    if n != "" {
      SomeSuffix(p, n[1..]);
      forall k: nat | k < |n| ensures n[1..][k..] == n[k + 1..] {}
      if exists k: nat :: k <= |n| && Walks(p, n[k..]) {
        var k: nat :| k <= |n| && Walks(p, n[k..]);
        if k > 0 {
          assert n[1..][k - 1..] == n[k..];
        }
      }
      if WalksSomeSuffix(p, n[1..]) {
        var k: nat :| k <= |n[1..]| && Walks(p, n[1..][k..]);
        assert n[k + 1..] == n[1..][k..];
      }
    } else {
      if k: nat :| k <= |n| && Walks(p, n[k..]) {
        assert n[k..] == n;
      }
    }
  }

  /** Dropping a few more characters first cannot make a suffix search succeed. */
  lemma {:induction false} SuffixOfSuffix(p: string, n: string, i: nat, k: nat)
    requires i <= k <= |n|
    ensures WalksSomeSuffix(p, n[k..]) ==> WalksSomeSuffix(p, n[i..])
    decreases k - i
  {
    if i < k {
      SuffixOfSuffix(p, n, i + 1, k);
      assert n[i..][1..] == n[i + 1..];
    }
  }

  /** The pattern p[a..b] has consumed the name from i on, one character for one character. */
  ghost predicate Consumed(p: string, n: string, a: nat, b: nat, i: nat)
    requires a <= b <= |p| && i + (b - a) <= |n|
  {
    forall j :: a <= j < b ==> p[j] == '?' || p[j] == n[j - a + i]
  }

  /**
   Why only the last star has to be remembered. If p[a..b] consumed the name from i on, then a walk
   that starts the same piece of pattern no earlier (at k >= i) also leaves it no earlier. A pattern
   star consumed literally may act as a star from k, but then k is past i, where the name has a `*`.
   */
  lemma {:induction false} LaterStartEndsLater(p: string, n: string, a: nat, b: nat, i: nat, k: nat) returns (m: nat)
    requires a <= b <= |p| && i + (b - a) <= |n| && Consumed(p, n, a, b, i)
    requires i <= k <= |n| && Walks(p[a..], n[k..])
    ensures i + (b - a) <= m <= |n| && Walks(p[b..], n[m..])
    decreases b - a
  {
    if a == b {
      return k;
    }
    assert p[a..][1..] == p[a + 1..];
    if k < |n| && (p[a] == '?' || p[a] == n[k]) {
      assert n[k..][1..] == n[k + 1..];
      m := LaterStartEndsLater(p, n, a + 1, b, i + 1, k + 1);
    } else {
      SomeSuffix(p[a + 1..], n[k..]);
      var d: nat :| d <= |n[k..]| && Walks(p[a + 1..], n[k..][d..]);
      assert n[k..][d..] == n[k + d..];
      m := LaterStartEndsLater(p, n, a + 1, b, i + 1, k + d);
    }
  }

  /** A new star makes the previous one redundant. */
  lemma {:induction false} NewStarReplacesOld(p: string, n: string, s: nat, pi: nat, resume: nat, ni: nat)
    requires s < pi < |p| && resume <= ni < |n| && ni - resume == pi - (s + 1)
    requires Consumed(p, n, s + 1, pi, resume)
    requires Walks(p[s + 1..], n[resume..]) <==> Walks(p[pi..], n[ni..])
    requires p[pi] == '*' && n[ni] != '*'
    ensures WalksSomeSuffix(p[s + 1..], n[resume..]) <==> WalksSomeSuffix(p[pi + 1..], n[ni..])
  {
    hide Consumed;
    assert p[pi..][1..] == p[pi + 1..];
    if WalksSomeSuffix(p[s + 1..], n[resume..]) {
      SomeSuffix(p[s + 1..], n[resume..]);
      var d: nat :| d <= |n[resume..]| && Walks(p[s + 1..], n[resume..][d..]);
      assert n[resume..][d..] == n[resume + d..];
      var m := LaterStartEndsLater(p, n, s + 1, pi, resume, resume + d);
      if m < |n| && n[m] == '*' {
        assert n[m..][1..] == n[m + 1..];
        assert WalksSomeSuffix(p[pi + 1..], n[m + 1..]);
        SuffixOfSuffix(p[pi + 1..], n, ni, m + 1);
      } else {
        SuffixOfSuffix(p[pi + 1..], n, ni, m);
      }
    }
  }

  /** A run of stars and nothing else. */
  predicate AllStars(p: string) { forall i :: 0 <= i < |p| ==> p[i] == '*' }

  lemma {:induction false} WalksEmptyName(p: string)
    ensures Walks(p, "") <==> AllStars(p)
  {
    if p != "" {
      WalksEmptyName(p[1..]);
      assert forall i :: 0 < i < |p| ==> p[i] == p[1..][i - 1];
    }
  }

  /** With the name used up, no later start of the last star can do better than the present one. */
  lemma {:induction false} NameUsedUp(p: string, n: string, s: nat, pi: nat, resume: nat)
    requires s < pi <= |p| && resume <= |n| && |n| - resume == pi - (s + 1)
    requires Consumed(p, n, s + 1, pi, resume)
    requires Walks(p[s + 1..], n[resume..]) <==> Walks(p[pi..], n[|n|..])
    ensures WalksSomeSuffix(p[s + 1..], n[resume..]) <==> Walks(p[pi..], "")
  {
    assert n[|n|..] == "";
    if WalksSomeSuffix(p[s + 1..], n[resume..]) {
      SomeSuffix(p[s + 1..], n[resume..]);
      var d: nat :| d <= |n[resume..]| && Walks(p[s + 1..], n[resume..][d..]);
      assert n[resume..][d..] == n[resume + d..];
      var m := LaterStartEndsLater(p, n, s + 1, pi, resume, resume + d);
    }
  }

  /** One unfolding of Walks, by index. */
  lemma WalksAt(p: string, n: string, pi: nat, ni: nat)
    requires pi <= |p| && ni < |n|
    ensures pi == |p| ==> !Walks(p[pi..], n[ni..])
    ensures pi < |p| && (p[pi] == '?' || p[pi] == n[ni]) ==>
      (Walks(p[pi..], n[ni..]) <==> Walks(p[pi + 1..], n[ni + 1..]))
    ensures pi < |p| && p[pi] != '?' && p[pi] != n[ni] ==>
      (Walks(p[pi..], n[ni..]) <==> p[pi] == '*' && WalksSomeSuffix(p[pi + 1..], n[ni..]))
    ensures WalksSomeSuffix(p[pi..], n[ni..]) <==> Walks(p[pi..], n[ni..]) || WalksSomeSuffix(p[pi..], n[ni + 1..])
  {
    assert n[ni..][1..] == n[ni + 1..];
    if pi < |p| {
      assert p[pi..][1..] == p[pi + 1..];
    }
  }

  /**
   What is known between two turns of the loop: without a star the rest must match the rest; with
   one, p[star+1..pi] has consumed the name from resume on, and no suffix before resume will do.
   */
  ghost predicate Remembered(p: string, n: string, pi: nat, ni: nat, star: int, resume: nat)
  {
    && pi <= |p| && resume <= ni <= |n| && star < pi
    && if star < 0 then
         Walks(p, n) <==> Walks(p[pi..], n[ni..])
       else
         && ni - resume == pi - (star + 1) && Consumed(p, n, star + 1, pi, resume)
         && (Walks(p[star + 1..], n[resume..]) <==> Walks(p[pi..], n[ni..]))
         && (Walks(p, n) <==> WalksSomeSuffix(p[star + 1..], n[resume..]))
  }

  lemma Starts(p: string, n: string)
    ensures Remembered(p, n, 0, 0, -1, 0)
  {
    assert p[0..] == p && n[0..] == n;
  }

  lemma NoStarToFallBackOn(p: string, n: string, pi: nat, ni: nat, star: int, resume: nat)
    requires Remembered(p, n, pi, ni, star, resume) && ni < |n| && star < 0
    requires pi < |p| ==> p[pi] != '?' && p[pi] != n[ni] && p[pi] != '*'
    ensures !Walks(p, n)
  {
    WalksAt(p, n, pi, ni);
  }

  lemma Advances(p: string, n: string, pi: nat, ni: nat, star: int, resume: nat)
    requires Remembered(p, n, pi, ni, star, resume) && pi < |p| && ni < |n|
    requires p[pi] == '?' || p[pi] == n[ni]
    ensures Remembered(p, n, pi + 1, ni + 1, star, resume)
  {
    WalksAt(p, n, pi, ni);
  }

  lemma TakesStar(p: string, n: string, pi: nat, ni: nat, star: int, resume: nat)
    requires Remembered(p, n, pi, ni, star, resume) && pi < |p| && ni < |n|
    requires p[pi] == '*' && n[ni] != '*'
    ensures Remembered(p, n, pi + 1, ni, pi, ni)
  {
    WalksAt(p, n, pi, ni);
    if star >= 0 {
      NewStarReplacesOld(p, n, star, pi, resume, ni);
    }
  }

  lemma FallsBack(p: string, n: string, pi: nat, ni: nat, star: int, resume: nat)
    requires Remembered(p, n, pi, ni, star, resume) && ni < |n| && star >= 0
    requires pi < |p| ==> p[pi] != '?' && p[pi] != n[ni] && p[pi] != '*'
    ensures Remembered(p, n, star + 1, resume + 1, star, resume + 1)
  {
    WalksAt(p, n, pi, ni);
    WalksAt(p, n, star + 1, resume);
  }

  lemma Finishes(p: string, n: string, pi: nat, star: int, resume: nat)
    requires Remembered(p, n, pi, |n|, star, resume)
    ensures Walks(p, n) <==> AllStars(p[pi..])
  {
    assert n[|n|..] == "";
    WalksEmptyName(p[pi..]);
    if star >= 0 {
      NameUsedUp(p, n, star, pi, resume);
    }
  }

  // ---- The walk, and what it costs ----

  /** Where the two indices, the last star and the place to resume from can be. */
  predicate Placed(p: string, n: string, pi: nat, ni: nat, star: int, resume: nat)
  {
    pi <= |p| && resume <= ni <= |n| && -1 <= star < pi
  }

  /** Turns of the loop from here on. */
  ghost function TurnsFrom(p: string, n: string, pi: nat, ni: nat, star: int, resume: nat): nat
    requires Placed(p, n, pi, ni, star, resume)
    decreases |n| - resume, |p| - pi
  {
    if ni == |n| then 0
    else if pi < |p| && (p[pi] == '?' || p[pi] == n[ni]) then 1 + TurnsFrom(p, n, pi + 1, ni + 1, star, resume)
    else if pi < |p| && p[pi] == '*' then 1 + TurnsFrom(p, n, pi + 1, ni, pi, ni)
    else if star >= 0 then 1 + TurnsFrom(p, n, star + 1, resume + 1, star, resume + 1)
    else 1
  }

  /** How many turns the loop takes in all. */
  ghost function Turns(p: string, n: string): nat { TurnsFrom(p, n, 0, 0, -1, 0) }

  /** The loop that decides Walks; `steps` counts its turns. */
  method GlobMatches(p: string, n: string) returns (matched: bool, ghost steps: nat)
    ensures matched <==> Walks(p, n)
    ensures '*' !in n ==> (matched <==> Matches(p, n))
    ensures steps == Turns(p, n) <= (|p| + 1) * |n| + |p|
  {
    hide Walks, Matches, Remembered, AllStars;
    WalksIsMatchesOnPlainNames(p, n);
    TurnsWithin(p, n, |p|);
    var pi: nat, ni: nat := 0, 0;
    var star: int, resume: nat := -1, 0;
    steps := 0;
    Starts(p, n);
    while ni < |n|
      invariant Placed(p, n, pi, ni, star, resume) && Remembered(p, n, pi, ni, star, resume)
      invariant steps + TurnsFrom(p, n, pi, ni, star, resume) == Turns(p, n)
      decreases |n| - resume, |p| - pi
    {
      steps := steps + 1;
      if pi < |p| && (p[pi] == '?' || p[pi] == n[ni]) {
        Advances(p, n, pi, ni, star, resume);
        pi, ni := pi + 1, ni + 1;
      } else if pi < |p| && p[pi] == '*' {
        TakesStar(p, n, pi, ni, star, resume);
        star, resume, pi := pi, ni, pi + 1;
      } else if star >= 0 {
        FallsBack(p, n, pi, ni, star, resume);
        pi, resume := star + 1, resume + 1;
        ni := resume;
      } else {
        NoStarToFallBackOn(p, n, pi, ni, star, resume);
        matched := false;
        return;
      }
    }
    Finishes(p, n, pi, star, resume);
    matched := AllStars(p[pi..]);
  }

  /** p[a + 1..b] follows a star and holds none. */
  predicate AfterStar(p: string, a: int, b: int)
  {
    0 <= a < b <= |p| && p[a] == '*' && '*' !in p[a + 1..b]
  }

  /** No stretch of pattern between a star and the next one, or the end, is longer than l. */
  ghost predicate PiecesWithin(p: string, l: nat)
  {
    forall a: nat, b: nat :: AfterStar(p, a, b) ==> b - a - 1 <= l
  }

  /**
   For patterns whose pieces have a bounded length the cost is linear in the name, a factor of one more than
   the bound; for any pattern and name at all that holds with the pattern's own length for the bound.
   */
  lemma TurnsWithin(p: string, n: string, l: nat)
    requires Bounds(p, n, l)
    ensures Turns(p, n) <= (l + 1) * |n| + |p|
  {
    TurnsFromWithin(p, n, 0, 0, -1, 0, l);
  }

  /** What has been read since the last star: a piece, if the name holds no star. */
  predicate SinceStar(p: string, n: string, star: int, pi: nat)
  {
    pi <= |p| && -1 <= star < pi && (star >= 0 ==> p[star] == '*' && ('*' !in n ==> '*' !in p[star + 1..pi]))
  }

  ghost predicate Bounds(p: string, n: string, l: nat) { l >= |p| || ('*' !in n && PiecesWithin(p, l)) }

  lemma ReadsOn(p: string, n: string, star: int, pi: nat, ni: nat)
    requires SinceStar(p, n, star, pi) && pi < |p| && ni < |n| && (p[pi] == '?' || p[pi] == n[ni])
    ensures SinceStar(p, n, star, pi + 1)
  {
    if star >= 0 {
      assert p[star + 1..pi + 1] == p[star + 1..pi] + [p[pi]];
    }
  }

  lemma StarTaken(p: string, n: string, pi: nat)
    requires pi < |p| && p[pi] == '*'
    ensures SinceStar(p, n, pi, pi + 1)
  {
  }

  lemma Restarted(p: string, n: string, star: int, pi: nat)
    requires SinceStar(p, n, star, pi) && star >= 0
    ensures SinceStar(p, n, star, star + 1)
  {
  }

  lemma PieceWithin(p: string, n: string, star: int, pi: nat, l: nat)
    requires Bounds(p, n, l) && SinceStar(p, n, star, pi) && star >= 0
    ensures pi - star - 1 <= l
  {
    assert '*' !in n ==> AfterStar(p, star, pi);
  }

  /** Turns allowed with so much of the name to resume from and so much of the pattern left. */
  function Allowance(l: nat, left: nat, rest: nat): nat { (l + 1) * left + rest }

  lemma AllowsStep(l: nat, left: nat, rest: nat, less: nat)
    requires less <= left && rest > 0
    ensures Allowance(l, less, rest - 1) + 1 <= Allowance(l, left, rest)
  {
    Fewer(l + 1, less, left);
  }

  lemma AllowsFall(l: nat, left: nat, rest: nat, more: nat)
    requires left > 0 && more <= rest + l
    ensures Allowance(l, left - 1, more) + 1 <= Allowance(l, left, rest)
  {
    OneMore(l + 1, left);
  }

  lemma {:induction false} TurnsFromWithin(p: string, n: string, pi: nat, ni: nat, star: int, resume: nat, l: nat)
    requires Placed(p, n, pi, ni, star, resume) && Bounds(p, n, l) && SinceStar(p, n, star, pi)
    ensures TurnsFrom(p, n, pi, ni, star, resume) <= Allowance(l, |n| - resume, |p| - pi)
    decreases |n| - resume, |p| - pi
  {
    hide Bounds, Allowance, SinceStar;
    if ni < |n| {
      if pi < |p| && (p[pi] == '?' || p[pi] == n[ni]) {
        ReadsOn(p, n, star, pi, ni);
        AllowsStep(l, |n| - resume, |p| - pi, |n| - resume);
        TurnsFromWithin(p, n, pi + 1, ni + 1, star, resume, l);
      } else if pi < |p| && p[pi] == '*' {
        StarTaken(p, n, pi);
        AllowsStep(l, |n| - resume, |p| - pi, |n| - ni);
        TurnsFromWithin(p, n, pi + 1, ni, pi, ni, l);
      } else if star >= 0 {
        PieceWithin(p, n, star, pi, l);
        Restarted(p, n, star, pi);
        AllowsFall(l, |n| - resume, |p| - pi, |p| - star - 1);
        TurnsFromWithin(p, n, star + 1, resume + 1, star, resume + 1, l);
      } else {
        AllowsFall(l, |n| - resume, |p| - pi, 0);
      }
    }
  }

  lemma OneMore(l: nat, k: nat)
    requires k > 0
    ensures l * k == l * (k - 1) + l
  {
  }

  lemma {:induction false} Fewer(l: nat, a: nat, b: nat)
    requires a <= b
    ensures l * a <= l * b
  {
    if a < b {
      OneMore(l, b);
      Fewer(l, a, b - 1);
    }
  }

  // ---- No linear bound holds for every pattern ----

  function Copies(k: nat): (s: string)
    ensures |s| == k && '*' !in s
  {
    seq(k, i => 'a')
  }

  /** A star, k times the same letter, and one that is not in the name. */
  function Needle(k: nat): (p: string)
    ensures |p| == k + 2
  {
    "*" + Copies(k) + "b"
  }

  /** From one place to resume from to the next: the piece is read to its end, and then given up. */
  lemma {:induction false} GivenUp(k: nat, m: nat, resume: nat, j: nat)
    requires j <= k && resume + k < m
    ensures TurnsFrom(Needle(k), Copies(m), 1 + j, resume + j, 0, resume) ==
      k - j + 1 + TurnsFrom(Needle(k), Copies(m), 1, resume + 1, 0, resume + 1)
    decreases k - j
  {
    if j < k {
      GivenUp(k, m, resume, j + 1);
    }
  }

  lemma {:induction false} LastStretch(k: nat, m: nat, j: nat)
    requires j <= k <= m
    ensures TurnsFrom(Needle(k), Copies(m), 1 + j, m - k + j, 0, m - k) == k - j
    decreases k - j
  {
    if j < k {
      LastStretch(k, m, j + 1);
    }
  }

  lemma {:induction false} FromResume(k: nat, m: nat, resume: nat)
    requires resume + k <= m
    ensures TurnsFrom(Needle(k), Copies(m), 1, resume, 0, resume) == (m - k - resume) * (k + 1) + k
    decreases m - resume
  {
    hide TurnsFrom, Needle, Copies;
    if resume + k < m {
      GivenUp(k, m, resume, 0);
      FromResume(k, m, resume + 1);
      OneMore(k + 1, m - k - resume);
    } else {
      LastStretch(k, m, 0);
    }
  }

  /** On a name twice as long as the piece, the walk takes (k + 1) squared turns. */
  lemma NeedleTurns(k: nat)
    requires k > 0
    ensures Turns(Needle(k), Copies(2 * k)) == (k + 1) * (k + 1)
  {
    FromResume(k, 2 * k, 0);
    assert (k + 1) * (k + 1) == k * (k + 1) + (k + 1);
  }

  lemma SquareOutgrows(factor: nat, offset: nat, k: nat)
    requires k == 3 * factor + offset + 1
    ensures (k + 1) * (k + 1) > factor * (3 * k + 2) + offset
  {
    assert (k + 1) * (k + 1) == (k + 1) * (3 * factor) + (k + 1) * (offset + 2);
    Fewer(offset + 2, 1, k + 1);
    assert (k + 1) * (3 * factor) == factor * (3 * k + 2) + factor;
  }

  /** So no multiple of the two lengths together bounds the cost. */
  lemma NoLinearBound(factor: nat, offset: nat)
    ensures exists p, n :: '*' !in n && Turns(p, n) > factor * (|p| + |n|) + offset
  {
    hide Turns;
    var k := 3 * factor + offset + 1;
    var p, n := Needle(k), Copies(2 * k);
    NeedleTurns(k);
    SquareOutgrows(factor, offset, k);
    assert |p| + |n| == 3 * k + 2;
    assert '*' !in n && Turns(p, n) > factor * (|p| + |n|) + offset;
  }

  /** Whatever the walk accepts, the textbook reading accepts. */
  lemma {:induction false} WalksImpliesMatches(p: string, n: string)
    requires Walks(p, n)
    ensures Matches(p, n)
    decreases |p|
  {
    if p != "" {
      if n != "" && (p[0] == '?' || p[0] == n[0]) {
        WalksImpliesMatches(p[1..], n[1..]);
        if p[0] == '*' {
          StarAbsorbs(p, n, 1);
        }
      } else {
        SomeSuffix(p[1..], n);
        var k: nat :| k <= |n| && Walks(p[1..], n[k..]);
        WalksImpliesMatches(p[1..], n[k..]);
        StarAbsorbs(p, n, k);
      }
    }
  }

  lemma {:induction false} StarAbsorbs(p: string, n: string, k: nat)
    requires p != "" && p[0] == '*' && k <= |n| && Matches(p[1..], n[k..])
    ensures Matches(p, n)
    decreases k
  {
    if k == 0 {
      assert n[0..] == n;
    } else {
      assert n[1..][k - 1..] == n[k..];
      StarAbsorbs(p, n[1..], k - 1);
    }
  }

  /** On a name with no `*` in it the walk decides exactly the textbook relation. */
  lemma {:induction false} WalksIsMatchesOnPlainNames(p: string, n: string)
    ensures '*' !in n ==> (Walks(p, n) <==> Matches(p, n))
    decreases |p| + |n|
  {
    if Walks(p, n) {
      WalksImpliesMatches(p, n);
    }
    if '*' !in n && p != "" {
      WalksIsMatchesOnPlainNames(p[1..], n);
      if n != "" {
        WalksIsMatchesOnPlainNames(p, n[1..]);
        WalksIsMatchesOnPlainNames(p[1..], n[1..]);
        if p[0] == '*' {
          assert Walks(p, n) <==> WalksSomeSuffix(p[1..], n);
          assert n[1..] == "" || n[1..][0] != '*';
          assert Walks(p, n[1..]) <==> WalksSomeSuffix(p[1..], n[1..]);
        }
      }
    }
  }

  /**
   The exact limit of GlobMatches: it decides the textbook relation for every pattern precisely on
   the names that hold no `*`. For any other name the pattern below is one it gets wrong.
   */
  lemma {:induction false} ExactNames(n: string)
    ensures (forall p: string :: Walks(p, n) <==> Matches(p, n)) <==> '*' !in n
  {
    if '*' in n {
      var p := Misread(n);
    } else {
      forall p: string ensures Walks(p, n) <==> Matches(p, n) {
        WalksIsMatchesOnPlainNames(p, n);
      }
    }
  }

  /** A pattern the walk gets wrong on a name with a star: everything up to it, then `*` or `*?`. */
  lemma {:induction false} Misread(n: string) returns (p: string)
    requires '*' in n
    ensures Matches(p, n) && !Walks(p, n)
  {
      var j := FirstStar(n, 0);
      var tail := if j + 1 < |n| then "*" else "*?";
      p := n[..j] + tail;
      assert n[..j] + n[j..] == n;
      assert tail[1..] == if j + 1 < |n| then "" else "?";
      assert n[j..][1..] == n[j + 1..];
      assert Matches(tail, n[j..]) by {
        if j + 1 < |n| {
          assert n[j..][|n[j..]|..] == "";
          StarAbsorbs(tail, n[j..], |n[j..]|);
        } else {
          assert n[j..] == "*" && tail == "*?";
          assert Matches("?", "*");
        }
      }
      MatchesAfterPrefix(n[..j], tail, n[j..]);
      WalksAfterPrefix(n[..j], tail, n[j..]);
      assert !Walks(tail, n[j..]);
  }

  lemma {:induction false} FirstStar(n: string, i: nat) returns (j: nat)
    requires i <= |n| && '*' in n[i..] && '*' !in n[..i]
    ensures j < |n| && n[j] == '*' && '*' !in n[..j]
    decreases |n| - i
  {
    if n[i] == '*' {
      j := i;
    } else {
      assert n[..i + 1] == n[..i] + [n[i]];
      assert n[i..] == [n[i]] + n[i + 1..];
      j := FirstStar(n, i + 1);
    }
  }

  lemma {:induction false} MatchesAfterPrefix(x: string, p: string, n: string)
    requires '*' !in x && Matches(p, n)
    ensures Matches(x + p, x + n)
  {
    if x == "" {
      assert x + p == p && x + n == n;
    } else {
      assert (x + p)[1..] == x[1..] + p && (x + n)[1..] == x[1..] + n;
      MatchesAfterPrefix(x[1..], p, n);
    }
  }

  lemma {:induction false} WalksAfterPrefix(x: string, p: string, n: string)
    requires '*' !in x && p != ""
    ensures Walks(x + p, x + n) ==> Walks(p, n)
  {
    if x == "" {
      assert x + p == p && x + n == n;
    } else {
      assert (x + p)[1..] == x[1..] + p && (x + n)[1..] == x[1..] + n;
      WalksAfterPrefix(x[1..], p, n);
    }
  }
}
