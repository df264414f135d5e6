/** Which Host headers are answered, origin/guard.rs:27-98. */
module Hosts {
  import opened Common
  import Ranges

  datatype Target = Alias(alias: string, path: string) | Index(path: string) | Direct(path: string)

  predicate LabelChar(c: char) { 'a' <= c <= 'z' || '0' <= c <= '9' || c == '-' }

  predicate IsLabel(s: string)
  {
    s != "" && s[0] != '-' && s[|s| - 1] != '-' && forall i :: 0 <= i < |s| ==> LabelChar(s[i])
  }

  type Port = Option<nat>

  /** `parse::<u16>().ok()`: a port that does not parse is no port at all. */
  function ParsePort(s: string): Port
  {
    match Ranges.ParseU64(s)
    case Some(n) => if n < 0x1_0000 then Some(n) else None
    case None => None
  }

  /** Where the last colon is, or the end. */
  function LastColon(s: string): (at: nat)
    ensures at <= |s| && (at < |s| ==> s[at] == ':') && forall i :: at < i < |s| ==> s[i] != ':'
    ensures at == |s| ==> ':' !in s
  {
    if s == "" then 0
    else if s[|s| - 1] == ':' then |s| - 1
    else
      var at := LastColon(s[..|s| - 1]);
      assert s == s[..|s| - 1] + [s[|s| - 1]];
      if at == |s| - 1 then |s| else at
  }

  /** Where "]:" first stands, or the end. */
  function BracketColon(s: string, from: nat): (at: nat)
    requires from <= |s|
    ensures from <= at <= |s| && (at < |s| ==> at + 2 <= |s| && s[at..at + 2] == "]:")
    decreases |s| - from
  {
    if from + 2 > |s| then |s|
    else if s[from..from + 2] == "]:" then from
    else BracketColon(s, from + 1)
  }

  /** The colons inside the brackets of an IPv6 literal are not a port. */
  function SplitHost(host: string): (string, Port)
  {
    if host != "" && host[0] == '[' then
      var at := BracketColon(host, 1);
      if at < |host| then (host[..at + 1], ParsePort(host[at + 2..])) else (host, None)
    else
      var at := LastColon(host);
      if at < |host| then (host[..at], ParsePort(host[at + 1..])) else (host, None)
  }

  /** The label in front of ".suffix", if the name ends so. */
  function AliasOf(name: string, suffix: string): Option<string>
  {
    var n := |name| - |suffix|;
    if n >= 1 && name[n..] == suffix && name[n - 1] == '.' then Some(name[..n - 1]) else None
  }

  predicate SitePort(port: Port) { port in {None, Some(80), Some(443)} }

  predicate Loopback(name: string) { name in ["127.0.0.1", "localhost", "[::1]", "::1"] }

  function Classify(host: string, path: string, suffix: string, port: nat): Option<Target>
  {
    var (name, given) := SplitHost(host);
    var alias := AliasOf(name, suffix);
    if alias.Some? then
      if IsLabel(alias.value) && SitePort(given) then Some(Alias(alias.value, path)) else None
    else if name == suffix then
      if SitePort(given) then Some(Index(path)) else None
    else if Loopback(name) then
      if given == Some(port) then Some(Direct(path)) else None
    else None
  }

  // ---- Exactly which headers reach an alias ----

  /** The host a link to an alias names, and the same with a port. */
  function HostOf(alias: string, suffix: string): string { alias + "." + suffix }

  /** The port 80 or 443, however it is written, or what is no port number at all. */
  ghost predicate SiteText(p: string) { forall n :: n < 0x1_0000 && Ranges.Numeral(p, n) ==> n == 80 || n == 443 }

  ghost predicate WithPort(host: string, name: string, p: string)
  {
    host == name + ":" + p && ':' !in p && SiteText(p)
  }

  /** Letters and digits, with hyphens inside. */
  predicate LabelText(s: string)
  {
    s != "" && forall i :: 0 <= i < |s| ==>
      'a' <= s[i] <= 'z' || '0' <= s[i] <= '9' || (s[i] == '-' && 0 < i < |s| - 1)
  }

  lemma LabelIs(s: string)
    ensures IsLabel(s) <==> LabelText(s)
  {
    if LabelText(s) {
      assert s[0] != '-' && s[|s| - 1] != '-';
    }
  }

  lemma PortIs(p: string, n: nat)
    ensures ParsePort(p) == Some(n) <==> n < 0x1_0000 && Ranges.Numeral(p, n)
  {
    hide Ranges.ParseU64, Ranges.Numeral;
    Ranges.ParsesIff(p, n);
  }

  lemma SiteIs(p: string)
    ensures SitePort(ParsePort(p)) <==> SiteText(p)
  {
    hide Ranges.ParseU64, Ranges.Numeral, ParsePort;
    forall n: nat ensures ParsePort(p) == Some(n) <==> n < 0x1_0000 && Ranges.Numeral(p, n) {
      PortIs(p, n);
    }
  }

  lemma AfterColon(name: string, p: string, i: nat)
    requires i < |name| + 1 + |p|
    ensures var s := name + ":" + p; i > |name| ==> s[i] in p
  {
    if i > |name| {
      assert (name + ":" + p)[i] == p[i - |name| - 1];
    }
  }

  lemma LastColonBefore(name: string, p: string)
    requires ':' !in p
    ensures LastColon(name + ":" + p) == |name|
  {
    hide LastColon;
    var s := name + ":" + p;
    assert s[|name|] == ':';
    AfterColon(name, p, LastColon(s));
  }

  lemma AliasOfHost(alias: string, suffix: string)
    ensures AliasOf(HostOf(alias, suffix), suffix) == Some(alias)
  {
    var name := HostOf(alias, suffix);
    assert name[|alias| + 1..] == suffix && name[|alias|] == '.' && name[..|alias|] == alias;
  }

  lemma OnlyHost(name: string, suffix: string)
    requires AliasOf(name, suffix).Some?
    ensures name == HostOf(AliasOf(name, suffix).value, suffix)
  {
    var n := |name| - |suffix|;
    assert name == name[..n - 1] + [name[n - 1]] + name[n..];
  }

  lemma BareReaches(alias: string, suffix: string)
    requires IsLabel(alias) && ':' !in suffix
    ensures SplitHost(HostOf(alias, suffix)) == (HostOf(alias, suffix), None)
  {
    NoColon(alias, suffix);
  }

  lemma PortReaches(host: string, alias: string, suffix: string, p: string)
    requires IsLabel(alias) && WithPort(host, HostOf(alias, suffix), p)
    ensures SplitHost(host) == (HostOf(alias, suffix), ParsePort(p))
  {
    var name := HostOf(alias, suffix);
    LastColonBefore(name, p);
    assert host[..|name|] == name && host[|name| + 1..] == p && host[0] == alias[0];
  }

  lemma OnlyThese(host: string, alias: string, suffix: string)
    requires IsLabel(alias) && SplitHost(host).0 == HostOf(alias, suffix) && SitePort(SplitHost(host).1)
    ensures host == HostOf(alias, suffix) || exists p :: WithPort(host, HostOf(alias, suffix), p)
  {
    Bracketed(host, alias, suffix);
    var at := LastColon(host);
    if at < |host| {
      assert host == host[..at] + ":" + host[at + 1..];
      SiteIs(host[at + 1..]);
      assert WithPort(host, HostOf(alias, suffix), host[at + 1..]);
    }
  }

  lemma ClassifiesName(host: string, path: string, suffix: string, port: nat, alias: string)
    ensures Classify(host, path, suffix, port) == Some(Alias(alias, path)) <==>
      SplitHost(host).0 == HostOf(alias, suffix) && IsLabel(alias) && SitePort(SplitHost(host).1)
  {
    var name := SplitHost(host).0;
    AliasOfHost(alias, suffix);
    if AliasOf(name, suffix).Some? {
      OnlyHost(name, suffix);
    }
  }

  /**
   A request reaches an alias exactly when its Host is that alias's own name, bare or with a port that
   is 80, 443 or no number; nothing else that ends in the suffix, or resolves to this machine, does.
   */
  lemma ReachesAliasIff(host: string, path: string, suffix: string, port: nat, alias: string)
    requires ':' !in suffix
    ensures Classify(host, path, suffix, port) == Some(Alias(alias, path)) <==>
      LabelText(alias) && (host == HostOf(alias, suffix) || exists p :: WithPort(host, HostOf(alias, suffix), p))
  {
    hide Classify, SplitHost, HostOf, IsLabel, LabelText, ParsePort, SitePort, SiteText;
    LabelIs(alias);
    ClassifiesName(host, path, suffix, port, alias);
    SiteIsNone();
    if IsLabel(alias) {
      BareReaches(alias, suffix);
      forall p | WithPort(host, HostOf(alias, suffix), p)
        ensures SplitHost(host) == (HostOf(alias, suffix), ParsePort(p)) && SitePort(ParsePort(p))
      {
        PortReaches(host, alias, suffix, p);
        SiteIs(p);
      }
      if SplitHost(host).0 == HostOf(alias, suffix) && SitePort(SplitHost(host).1) {
        OnlyThese(host, alias, suffix);
      }
    }
  }

  lemma SiteIsNone()
    ensures SitePort(None)
  {
  }

  lemma NoColon(alias: string, suffix: string)
    requires IsLabel(alias) && ':' !in suffix
    ensures ':' !in HostOf(alias, suffix) && HostOf(alias, suffix)[0] != '['
  {
  }

  lemma Bracketed(host: string, alias: string, suffix: string)
    requires SplitHost(host).0 == HostOf(alias, suffix) && IsLabel(alias)
    ensures host != "" && host[0] != '['
  {
    assert HostOf(alias, suffix)[0] == alias[0];
  }

  // ---- And exactly which reach this listener itself ----

  /** One of the names of this machine, with this port behind it, however that is written. */
  ghost predicate LoopbackWithPort(host: string, name: string, p: string, port: nat)
  {
    && name in {"127.0.0.1", "localhost", "[::1]", "::1"} && host == name + ":" + p
    && port < 0x1_0000 && Ranges.Numeral(p, port)
  }

  /** A name the site's own suffix lays claim to. */
  ghost predicate Claimed(name: string, suffix: string)
  {
    name == suffix || exists head :: name == head + "." + suffix
  }

  lemma ClaimedIs(name: string, suffix: string)
    ensures Claimed(name, suffix) <==> AliasOf(name, suffix).Some? || name == suffix
  {
    if AliasOf(name, suffix).Some? {
      OnlyHost(name, suffix);
    }
    forall head | name == head + "." + suffix ensures AliasOf(name, suffix).Some? {
      AliasOfHost(head, suffix);
    }
  }

  lemma LoopbackSplits(host: string, name: string, p: string, port: nat)
    requires LoopbackWithPort(host, name, p, port)
    ensures SplitHost(host) == (name, Some(port))
  {
    hide ParsePort, Ranges.Numeral;
    PortIs(p, port);
    ParsedHasNoColon(p);
    if name[0] == '[' {
      BracketAt(host, p);
    } else {
      LastColonBefore(name, p);
      assert host[..|name|] == name && host[|name| + 1..] == p && host[0] == name[0];
    }
  }

  lemma BracketAt(host: string, p: string)
    requires host == "[::1]" + ":" + p
    ensures host[0] == '[' && BracketColon(host, 1) == 4 && host[..5] == "[::1]" && host[6..] == p
  {
    assert host[1..3] == "::" && host[2..4] == ":1" && host[3..5] == "1]" && host[4..6] == "]:";
    assert BracketColon(host, 4) == 4;
    assert BracketColon(host, 3) == 4;
    assert BracketColon(host, 2) == 4;
  }

  lemma ParsedHasNoColon(p: string)
    requires ParsePort(p).Some?
    ensures ':' !in p
  {
  }

  /** A port that was split off stood behind a colon. */
  lemma SplitAtColon(host: string)
    requires SplitHost(host).1.Some?
    ensures var name := SplitHost(host).0;
      |name| < |host| && host == name + ":" + host[|name| + 1..] && ParsePort(host[|name| + 1..]) == SplitHost(host).1
  {
    hide ParsePort, LastColon, BracketColon;
    if host != "" && host[0] == '[' {
      var at := BracketColon(host, 1);
      assert host[at..at + 2] == "]:";
      assert host[at + 1] == host[at..at + 2][1] == ':';
      assert host == host[..at + 1] + [host[at + 1]] + host[at + 2..];
    } else {
      var at := LastColon(host);
      assert host == host[..at] + [host[at]] + host[at + 1..];
    }
  }

  lemma SplitsLoopback(host: string, port: nat)
    requires Loopback(SplitHost(host).0) && SplitHost(host).1 == Some(port)
    ensures exists p :: LoopbackWithPort(host, SplitHost(host).0, p, port)
  {
    hide SplitHost, ParsePort, Loopback, Ranges.Numeral;
    SplitAtColon(host);
    var name := SplitHost(host).0;
    PortIs(host[|name| + 1..], port);
    NamesAre(name);
    assert LoopbackWithPort(host, name, host[|name| + 1..], port);
  }

  /**
   A request is answered directly exactly when its Host is a loopback name with this listener's own port behind
   it, one that the suffix has no claim to: no name a page could make resolve to this machine gets there.
   */
  lemma DirectIff(host: string, path: string, suffix: string, port: nat)
    ensures Classify(host, path, suffix, port) == Some(Direct(path)) <==>
      exists name, p :: LoopbackWithPort(host, name, p, port) && !Claimed(name, suffix)
  {
    hide SplitHost, AliasOf, IsLabel, ParsePort, Loopback, Claimed, LoopbackWithPort, SitePort;
    ClaimedIs(SplitHost(host).0, suffix);
    if Classify(host, path, suffix, port) == Some(Direct(path)) {
      SplitsLoopback(host, port);
    }
    forall name, p | LoopbackWithPort(host, name, p, port)
      ensures SplitHost(host) == (name, Some(port)) && Loopback(name)
    {
      LoopbackSplits(host, name, p, port);
      NamesAre(name);
      LoopbackMeans(host, name, p, port);
    }
  }

  lemma LoopbackMeans(host: string, name: string, p: string, port: nat)
    requires LoopbackWithPort(host, name, p, port)
    ensures name in {"127.0.0.1", "localhost", "[::1]", "::1"}
  {
  }

  lemma NamesAre(name: string)
    ensures Loopback(name) <==> name in {"127.0.0.1", "localhost", "[::1]", "::1"}
  {
  }

  // ---- And exactly which reach the front door ----

  /** The suffix itself, with no label in front, is held to the same ports as an alias. */
  lemma IndexIff(host: string, path: string, suffix: string, port: nat)
    requires ':' !in suffix && (suffix != "" ==> suffix[0] != '[')
    ensures Classify(host, path, suffix, port) == Some(Index(path)) <==>
      host == suffix || exists p :: WithPort(host, suffix, p)
  {
    hide SplitHost, ParsePort, SitePort, SiteText, IsLabel, Loopback;
    SiteIsNone();
    assert AliasOf(suffix, suffix).None?;
    SuffixSplits(suffix);
    forall p | WithPort(host, suffix, p) ensures SplitHost(host) == (suffix, ParsePort(p)) && SitePort(ParsePort(p)) {
      SuffixWithPort(host, suffix, p);
      SiteIs(p);
    }
    if SplitHost(host).0 == suffix && SitePort(SplitHost(host).1) {
      OnlySuffix(host, suffix);
    }
  }

  lemma SuffixSplits(suffix: string)
    requires ':' !in suffix && (suffix != "" ==> suffix[0] != '[')
    ensures SplitHost(suffix) == (suffix, None)
  {
  }

  lemma SuffixWithPort(host: string, suffix: string, p: string)
    requires (suffix != "" ==> suffix[0] != '[') && WithPort(host, suffix, p)
    ensures SplitHost(host) == (suffix, ParsePort(p))
  {
    LastColonBefore(suffix, p);
    assert host[..|suffix|] == suffix && host[|suffix| + 1..] == p;
    assert host[0] == if suffix == "" then ':' else suffix[0];
  }

  lemma OnlySuffix(host: string, suffix: string)
    requires ':' !in suffix && (suffix != "" ==> suffix[0] != '[')
    requires SplitHost(host).0 == suffix && SitePort(SplitHost(host).1)
    ensures host == suffix || exists p :: WithPort(host, suffix, p)
  {
    hide ParsePort, SitePort, SiteText;
    var at := LastColon(host);
    if (host == "" || host[0] != '[') && at < |host| {
      assert host == host[..at] + ":" + host[at + 1..];
      SiteIs(host[at + 1..]);
      assert WithPort(host, suffix, host[at + 1..]);
    }
  }

  /** Whatever is answered is one of the three, about the path that was asked for. */
  lemma NothingElse(host: string, path: string, suffix: string, port: nat)
    ensures match Classify(host, path, suffix, port)
      case Some(Alias(_, p)) => p == path
      case Some(Index(p)) => p == path
      case Some(Direct(p)) => p == path
      case None => true
  {
  }
}
