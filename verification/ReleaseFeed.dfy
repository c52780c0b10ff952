/**
 "Latest" and the feed: releases gathered over a channel's fallback chain, each channel
 through a bounded window, then sorted by version.
 */
module ReleaseFeed {
  import opened Wrappers
  import opened Semver
  import SemverLaws
  import opened Sorting

  datatype Channel = Stable | Beta | Alpha | Dev

  /** A published release; `platforms` are those with an uploaded artifact. */
  datatype Entry = Entry(id: string, version: string, channel: Channel, platforms: set<string>)

  /** The published releases of one product, in the order of the listing query: most recently published first. */
  type Catalog = seq<Entry>

  const LATEST_COMPUTE_WINDOW: nat := 1000
  const MAX_FEED_LIST_LIMIT: nat := 5000

  /** Versions passed validateVersion, and a product has each version once. */
  ghost predicate WellFormedCatalog(catalog: Catalog) {
    && (forall i :: 0 <= i < |catalog| ==> Accepts(catalog[i].version))
    && (forall i, j :: 0 <= i < j < |catalog| ==> catalog[i].version != catalog[j].version)
  }

  function ChannelFallbackChain(c: Channel): seq<Channel> {
    match c
    case Dev => [Dev, Alpha, Beta, Stable]
    case Alpha => [Alpha, Beta, Stable]
    case Beta => [Beta, Stable]
    case Stable => [Stable]
  }

  predicate Matches(e: Entry, channel: Channel, platform: string) {
    e.channel == channel && (platform == "" || platform in e.platforms)
  }

  function Matching(catalog: Catalog, channel: Channel, platform: string): (rows: seq<Entry>)
    ensures forall e :: e in rows <==> e in catalog && Matches(e, channel, platform)
  {
    if catalog == [] then []
    else if Matches(catalog[0], channel, platform) then [catalog[0]] + Matching(catalog[1..], channel, platform)
    else Matching(catalog[1..], channel, platform)
  }

  function Clamp(limit: int): nat {
    if limit <= 0 then 20 else if limit > MAX_FEED_LIST_LIMIT then MAX_FEED_LIST_LIMIT else limit
  }

  /** The listing query: the platform filter applies before the limit. */
  function ListPublished(catalog: Catalog, channel: Channel, platform: string, limit: int): seq<Entry> {
    var rows := Matching(catalog, channel, platform);
    if |rows| <= Clamp(limit) then rows else rows[..Clamp(limit)]
  }

  function Pool(catalog: Catalog, chain: seq<Channel>, platform: string): seq<Entry> {
    if chain == [] then []
    else
      var last := ListPublished(catalog, chain[|chain| - 1], platform, LATEST_COMPUTE_WINDOW);
      Pool(catalog, chain[..|chain| - 1], platform) + last
  }

  /** A client on the channel and platform may install it. */
  predicate Eligible(catalog: Catalog, e: Entry, channel: Channel, platform: string) {
    e in catalog && e.channel in ChannelFallbackChain(channel) && (platform == "" || platform in e.platforms)
  }

  predicate Saturated(catalog: Catalog, channel: Channel, platform: string) {
    exists c :: c in ChannelFallbackChain(channel) && |Matching(catalog, c, platform)| > LATEST_COMPUTE_WINDOW
  }

  // ─── Sorting ───

  /** The comparison of the sort: higher versions first, versions that do not parse last. */
  predicate Newer(a: Entry, b: Entry) {
    Accepts(a.version) && (Accepts(b.version) ==> Precedes(b.version, a.version))
  }

  lemma NewerOrder(a: Entry, b: Entry, c: Entry)
    ensures Newer(a, b) ==> !Newer(b, a)
    ensures !Newer(a, b) && !Newer(b, c) ==> !Newer(a, c)
    ensures Accepts(a.version) && Accepts(b.version) && a.version != b.version ==> Newer(a, b) || Newer(b, a)
  {
    if Accepts(a.version) && Accepts(b.version) {
      PrecedenceIsTotalOrder(a.version, b.version, b.version);
      if Accepts(c.version) && !Precedes(b.version, a.version) && !Precedes(c.version, b.version) {
        NotBelowIsTransitive(a.version, b.version, c.version);
      }
    }
  }

  lemma NewerIsWeakOrder()
    ensures WeakOrder(Newer)
  {
    forall a, b | Newer(a, b) ensures !Newer(b, a) {
      NewerOrder(a, b, a);
    }
    forall a, b, c | !Newer(a, b) && !Newer(b, c) ensures !Newer(a, c) {
      NewerOrder(a, b, c);
    }
  }

  // ─── Latest and feed ───

  /** A highest version of the pool. */
  ghost predicate Head(pool: seq<Entry>, e: Entry) {
    e in pool && forall f :: f in pool ==> !Newer(f, e)
  }

  method Gather(catalog: Catalog, channel: Channel, platform: string) returns (pool: seq<Entry>)
    ensures pool == Pool(catalog, ChannelFallbackChain(channel), platform)
  {
    var chain := ChannelFallbackChain(channel);
    pool := [];
    for i := 0 to |chain|
      invariant pool == Pool(catalog, chain[..i], platform)
    {
      var batch := ListPublished(catalog, chain[i], platform, LATEST_COMPUTE_WINDOW);
      assert chain[..i + 1][..i] == chain[..i];
      pool := pool + batch;
    }
    assert chain[..|chain|] == chain;
  }

  method FindLatestPublished(catalog: Catalog, channel: Channel, platform: string) returns (latest: Option<Entry>)
    ensures latest.None? <==> Pool(catalog, ChannelFallbackChain(channel), platform) == []
    ensures latest.Some? ==> Head(Pool(catalog, ChannelFallbackChain(channel), platform), latest.value)
  {
    var pool := Gather(catalog, channel, platform);
    if |pool| == 0 {
      return None;
    }
    NewerIsWeakOrder();
    var sorted := Sort(pool, Newer);
    SortedHead(pool, sorted);
    return Some(sorted[0]);
  }

  lemma SortedHead(pool: seq<Entry>, sorted: seq<Entry>)
    requires multiset(sorted) == multiset(pool) && Sorted(sorted, Newer) && pool != []
    ensures sorted != [] && Head(pool, sorted[0])
  {
    assert |sorted| == |multiset(sorted)| == |multiset(pool)|;
    assert sorted[0] in multiset(pool);
    forall f | f in pool
      ensures !Newer(f, sorted[0])
    {
      assert f in multiset(sorted);
      var i :| 0 <= i < |sorted| && sorted[i] == f;
      NewerOrder(f, f, f);
    }
  }

  function Smaller(a: int, b: int): int { if a <= b then a else b }

  /** The feed is the first `limit` entries of the sorted pool. */
  ghost predicate IsFeed(pool: seq<Entry>, limit: int, feed: seq<Entry>) {
    exists sorted ::
      && multiset(sorted) == multiset(pool) && Sorted(sorted, Newer)
      && feed == sorted[..FeedLength(limit, |sorted|)]
  }

  method ListForFeed(catalog: Catalog, channel: Channel, platform: string, limit: int) returns (feed: seq<Entry>)
    ensures IsFeed(Pool(catalog, ChannelFallbackChain(channel), platform), limit, feed)
    ensures |feed| == Smaller(|Pool(catalog, ChannelFallbackChain(channel), platform)|,
      if 1 <= limit <= 100 then limit else 20)
  {
    var cap := if limit <= 0 || limit > 100 then 20 else limit;
    var pool := Gather(catalog, channel, platform);
    if |pool| == 0 {
      assert Sorted(pool, Newer) && pool[..FeedLength(limit, 0)] == [];
      return [];
    }
    NewerIsWeakOrder();
    var sorted := Sort(pool, Newer);
    assert |sorted| == |multiset(sorted)| == |multiset(pool)|;
    feed := if |sorted| > cap then sorted[..cap] else sorted;
    assert feed == sorted[..FeedLength(limit, |sorted|)];
  }

  function FeedLength(limit: int, n: nat): (k: nat)
    ensures k <= n && k <= 100
  {
    var cap := if limit <= 0 || limit > 100 then 20 else limit;
    if n > cap then cap else n
  }

  /** The pool holds eligible releases only, and unless a window is saturated it holds all of them. */
  lemma {:induction false} PoolMembers(catalog: Catalog, chain: seq<Channel>, platform: string, e: Entry)
    ensures e in Pool(catalog, chain, platform)
      ==> e in catalog && e.channel in chain && Matches(e, e.channel, platform)
    ensures e in catalog && e.channel in chain && Matches(e, e.channel, platform)
      && (forall c :: c in chain ==> |Matching(catalog, c, platform)| <= LATEST_COMPUTE_WINDOW)
      ==> e in Pool(catalog, chain, platform)
    decreases chain
  {
    if chain != [] {
      var last := chain[|chain| - 1];
      PoolMembers(catalog, chain[..|chain| - 1], platform, e);
      assert chain == chain[..|chain| - 1] + [last];
      var rows := ListPublished(catalog, last, platform, LATEST_COMPUTE_WINDOW);
      assert e in rows ==> e in Matching(catalog, last, platform);
    }
  }

  lemma DistinctVersions(catalog: Catalog, a: Entry, b: Entry)
    requires WellFormedCatalog(catalog) && a in catalog && b in catalog && a != b
    ensures Newer(a, b) || Newer(b, a)
  {
    var i :| 0 <= i < |catalog| && catalog[i] == a;
    var j :| 0 <= j < |catalog| && catalog[j] == b;
    NewerOrder(a, b, b);
  }

  /** With no saturated window the latest release is above every other release the client may install. */
  lemma LatestIsMaximum(catalog: Catalog, channel: Channel, platform: string, latest: Entry, e: Entry)
    requires WellFormedCatalog(catalog) && !Saturated(catalog, channel, platform)
    requires Head(Pool(catalog, ChannelFallbackChain(channel), platform), latest)
    requires Eligible(catalog, e, channel, platform) && e != latest
    ensures Eligible(catalog, latest, channel, platform)
    ensures Accepts(e.version) && Accepts(latest.version) && Precedes(e.version, latest.version)
  {
    var chain := ChannelFallbackChain(channel);
    PoolMembers(catalog, chain, platform, e);
    PoolMembers(catalog, chain, platform, latest);
    DistinctVersions(catalog, latest, e);
    var i :| 0 <= i < |catalog| && catalog[i] == e;
  }

  lemma {:induction false} InPool(catalog: Catalog, chain: seq<Channel>, platform: string, c: Channel, e: Entry)
    requires c in chain && e in ListPublished(catalog, c, platform, LATEST_COMPUTE_WINDOW)
    ensures e in Pool(catalog, chain, platform)
    decreases |chain|
  {
    if chain[|chain| - 1] != c {
      assert chain == chain[..|chain| - 1] + [chain[|chain| - 1]];
      InPool(catalog, chain[..|chain| - 1], platform, c, e);
    }
  }

  /** A release is gathered exactly if its channel is in the chain and it lies in that channel's own window. */
  lemma {:induction false} InPoolIff(catalog: Catalog, chain: seq<Channel>, platform: string, e: Entry)
    ensures e in Pool(catalog, chain, platform)
      <==> e.channel in chain && e in ListPublished(catalog, e.channel, platform, LATEST_COMPUTE_WINDOW)
    decreases |chain|
  {
    if e.channel in chain && e in ListPublished(catalog, e.channel, platform, LATEST_COMPUTE_WINDOW) {
      InPool(catalog, chain, platform, e.channel, e);
    }
    if chain != [] {
      var last := chain[|chain| - 1];
      InPoolIff(catalog, chain[..|chain| - 1], platform, e);
      assert chain == chain[..|chain| - 1] + [last];
      assert e in ListPublished(catalog, last, platform, LATEST_COMPUTE_WINDOW)
        ==> e in Matching(catalog, last, platform);
    }
  }

  /** In general the answer is the true maximum exactly when that release lies inside its own channel's window. */
  lemma LatestIsMaximumIff(catalog: Catalog, channel: Channel, platform: string, latest: Entry, top: Entry)
    requires WellFormedCatalog(catalog)
    requires Head(Pool(catalog, ChannelFallbackChain(channel), platform), latest)
    requires Eligible(catalog, top, channel, platform)
    requires forall e :: Eligible(catalog, e, channel, platform) ==> !Newer(e, top)
    ensures latest == top <==> top in ListPublished(catalog, top.channel, platform, LATEST_COMPUTE_WINDOW)
  {
    var chain := ChannelFallbackChain(channel);
    PoolMembers(catalog, chain, platform, latest);
    InPoolIff(catalog, chain, platform, top);
    if top in Pool(catalog, chain, platform) && latest != top {
      DistinctVersions(catalog, latest, top);
    }
  }

  lemma {:induction false} PoolGrows(
    catalog: Catalog, chain: seq<Channel>, more: seq<Channel>, platform: string, e: Entry)
    requires e in Pool(catalog, chain, platform) && forall c :: c in chain ==> c in more
    ensures e in Pool(catalog, more, platform)
    decreases |chain|
  {
    var last := chain[|chain| - 1];
    if e in Pool(catalog, chain[..|chain| - 1], platform) {
      PoolGrows(catalog, chain[..|chain| - 1], more, platform, e);
    } else {
      assert last in chain;
      InPool(catalog, more, platform, last, e);
    }
  }

  function Rank(c: Channel): nat {
    match c
    case Stable => 0
    case Beta => 1
    case Alpha => 2
    case Dev => 3
  }

  /**
   A wider channel never answers with a lower version: latest(dev) >= latest(alpha) >= latest(beta) >=
   latest(stable).
   */
  lemma WiderChannelIsNotLower(catalog: Catalog, wide: Channel, narrow: Channel, platform: string, w: Entry, n: Entry)
    requires Rank(wide) >= Rank(narrow)
    requires Head(Pool(catalog, ChannelFallbackChain(wide), platform), w)
    requires Head(Pool(catalog, ChannelFallbackChain(narrow), platform), n)
    ensures !Newer(n, w)
  {
    PoolGrows(catalog, ChannelFallbackChain(narrow), ChannelFallbackChain(wide), platform, n);
  }

  lemma OneSortedPool(catalog: Catalog, channel: Channel, platform: string, a: seq<Entry>, b: seq<Entry>)
    requires WellFormedCatalog(catalog)
    requires multiset(a) == multiset(Pool(catalog, ChannelFallbackChain(channel), platform)) == multiset(b)
    requires Sorted(a, Newer) && Sorted(b, Newer)
    ensures a == b
  {
    var pool := Pool(catalog, ChannelFallbackChain(channel), platform);
    forall x, y | x in a && y in a && x != y
      ensures Newer(x, y) || Newer(y, x)
    {
      assert x in multiset(pool) && y in multiset(pool);
      PoolMembers(catalog, ChannelFallbackChain(channel), platform, x);
      PoolMembers(catalog, ChannelFallbackChain(channel), platform, y);
      DistinctVersions(catalog, x, y);
    }
    SortedIsUnique(a, b, Newer);
  }

  /** The feed is determined by the catalog, and starts with the latest release. */
  lemma FeedStartsWithLatest(catalog: Catalog, channel: Channel, platform: string,
    limit: int, feed: seq<Entry>, other: seq<Entry>, latest: Entry)
    requires WellFormedCatalog(catalog)
    ensures var pool := Pool(catalog, ChannelFallbackChain(channel), platform);
      IsFeed(pool, limit, feed) ==>
        && (IsFeed(pool, limit, other) ==> feed == other)
        && (Head(pool, latest) ==> feed != [] && feed[0] == latest)
  {
    var pool := Pool(catalog, ChannelFallbackChain(channel), platform);
    if IsFeed(pool, limit, feed) {
      var a :| multiset(a) == multiset(pool) && Sorted(a, Newer) && feed == a[..FeedLength(limit, |a|)];
      if IsFeed(pool, limit, other) {
        var b :| multiset(b) == multiset(pool) && Sorted(b, Newer) && other == b[..FeedLength(limit, |b|)];
        OneSortedPool(catalog, channel, platform, a, b);
      }
      if Head(pool, latest) {
        SortedHead(pool, a);
        OneHead(catalog, channel, platform, latest, a[0]);
      }
    }
  }

  lemma OneHead(catalog: Catalog, channel: Channel, platform: string, a: Entry, b: Entry)
    requires WellFormedCatalog(catalog)
    ensures var pool := Pool(catalog, ChannelFallbackChain(channel), platform);
      Head(pool, a) && Head(pool, b) ==> a == b
  {
    if Head(Pool(catalog, ChannelFallbackChain(channel), platform), a)
      && Head(Pool(catalog, ChannelFallbackChain(channel), platform), b) && a != b
    {
      PoolMembers(catalog, ChannelFallbackChain(channel), platform, a);
      PoolMembers(catalog, ChannelFallbackChain(channel), platform, b);
      DistinctVersions(catalog, a, b);
    }
  }

  // ─── What the pieces mean ───

  /** Channels from the most to the least stable; a client on one is served from it and every more stable one, once. */
  lemma ChainIsDownward(c: Channel, d: Channel)
    ensures Rank(Stable) < Rank(Beta) < Rank(Alpha) < Rank(Dev)
    ensures d in ChannelFallbackChain(c) <==> Rank(d) <= Rank(c)
    ensures ChannelFallbackChain(c)[0] == c && |ChannelFallbackChain(c)| == Rank(c) + 1
  {
  }

  /** Among accepted versions the comparison is precedence, and they come before versions that do not parse. */
  lemma ComparisonIsPrecedence(a: Entry, b: Entry)
    ensures Accepts(a.version) && Accepts(b.version) ==>
      (Newer(a, b) <==> SemverLaws.Section11(b.version, a.version))
    ensures Accepts(a.version) && !Accepts(b.version) ==> Newer(a, b) && !Newer(b, a)
    ensures !Accepts(a.version) ==> !Newer(a, b)
  {
    if Accepts(a.version) && Accepts(b.version) {
      SemverLaws.PrecedesIsSection11(b.version, a.version);
    }
  }

  /** Where a release and one of its prereleases are both gathered, the prerelease is never the latest. */
  lemma LatestPrefersRelease(catalog: Catalog, channel: Channel, platform: string, latest: Entry, v: string, p: string)
    requires WellFormedCatalog(catalog) && '-' !in v
    ensures var pool := Pool(catalog, ChannelFallbackChain(channel), platform);
      Head(pool, latest) && (exists e :: e in pool && e.version == v) ==> latest.version != v + "-" + p
  {
    var chain := ChannelFallbackChain(channel);
    var pool := Pool(catalog, chain, platform);
    if Head(pool, latest) && latest.version == v + "-" + p {
      if e :| e in pool && e.version == v {
        PoolMembers(catalog, chain, platform, e);
        PoolMembers(catalog, chain, platform, latest);
        PrereleaseIsOlder(e, latest, v, p);
      }
    }
  }

  lemma PrereleaseIsOlder(a: Entry, b: Entry, v: string, p: string)
    ensures '-' !in v && a.version == v && b.version == v + "-" + p && Accepts(a.version) && Accepts(b.version)
      ==> Newer(a, b)
  {
    if '-' !in v && Accepts(v) && Accepts(v + "-" + p) {
      SemverLaws.ReleaseAbovePrerelease(v, p);
    }
  }

  /** The listing's own limit: twenty rows by default, and never more than 5000. */
  lemma ListingLimit(catalog: Catalog, channel: Channel, platform: string, limit: int)
    ensures var rows := Matching(catalog, channel, platform);
      var cap := if limit <= 0 then 20 else if limit > 5000 then 5000 else limit;
      ListPublished(catalog, channel, platform, limit) == if |rows| <= cap then rows else rows[..cap]
  {
  }

  /** No window is saturated exactly if no channel of the chain has more than 1000 matching releases. */
  lemma UnsaturatedIff(catalog: Catalog, channel: Channel, platform: string)
    ensures !Saturated(catalog, channel, platform) <==>
      forall c :: c in ChannelFallbackChain(channel) ==> |Matching(catalog, c, platform)| <= 1000
  {
  }

  /** How many of the first i rows match. */
  function MatchingBefore(catalog: Catalog, i: nat, channel: Channel, platform: string): (n: nat)
    requires i <= |catalog|
    ensures n <= i
    decreases i
  {
    if i == 0 then 0
    else
      var last := catalog[i - 1];
      MatchingBefore(catalog, i - 1, channel, platform)
      + (if last.channel == channel && (platform == "" || platform in last.platforms) then 1 else 0)
  }

  lemma {:induction false} MatchingBeforeTail(catalog: Catalog, i: nat, channel: Channel, platform: string)
    requires 0 < i <= |catalog|
    ensures MatchingBefore(catalog, i, channel, platform) ==
      MatchingBefore(catalog[1..], i - 1, channel, platform) + MatchingBefore(catalog, 1, channel, platform)
    decreases i
  {
    if i > 1 {
      MatchingBeforeTail(catalog, i - 1, channel, platform);
      assert catalog[1..][i - 2] == catalog[i - 1];
    }
  }

  /** Matching rows keep their order: row i stands behind exactly the matching rows before it. */
  lemma {:induction false} MatchingAt(catalog: Catalog, i: nat, channel: Channel, platform: string)
    requires i < |catalog| && catalog[i].channel == channel && (platform == "" || platform in catalog[i].platforms)
    ensures var n := MatchingBefore(catalog, i, channel, platform); var rows := Matching(catalog, channel, platform);
      n < |rows| && rows[n] == catalog[i]
  {
    if i > 0 {
      MatchingBeforeTail(catalog, i, channel, platform);
      MatchingAt(catalog[1..], i - 1, channel, platform);
    }
  }

  ghost predicate Distinct(s: seq<Entry>) {
    forall i, j :: 0 <= i < j < |s| ==> s[i] != s[j]
  }

  lemma DistinctCons(e: Entry, s: seq<Entry>)
    ensures Distinct([e] + s) <==> Distinct(s) && e !in s
  {
    var t := [e] + s;
    assert forall i :: 0 <= i < |s| ==> s[i] == t[i + 1];
    if Distinct(t) {
      forall i, j | 0 <= i < j < |s|
        ensures s[i] != s[j]
      {
        assert t[i + 1] != t[j + 1];
      }
      forall k | 0 <= k < |s|
        ensures s[k] != e
      {
        assert t[0] != t[k + 1];
      }
    }
  }

  lemma {:induction false} MatchingDistinct(catalog: Catalog, channel: Channel, platform: string)
    requires Distinct(catalog)
    ensures Distinct(Matching(catalog, channel, platform))
  {
    if catalog != [] {
      assert catalog == [catalog[0]] + catalog[1..];
      DistinctCons(catalog[0], catalog[1..]);
      MatchingDistinct(catalog[1..], channel, platform);
      DistinctCons(catalog[0], Matching(catalog[1..], channel, platform));
    }
  }

  /**
   A matching release lies in its channel's window exactly if fewer than 1000 matching ones were published after
   it.
   */
  lemma WindowIff(catalog: Catalog, i: nat, platform: string)
    requires WellFormedCatalog(catalog) && i < |catalog| && (platform == "" || platform in catalog[i].platforms)
    ensures catalog[i] in ListPublished(catalog, catalog[i].channel, platform, LATEST_COMPUTE_WINDOW)
      <==> MatchingBefore(catalog, i, catalog[i].channel, platform) < 1000
  {
    var c := catalog[i].channel;
    MatchingAt(catalog, i, c, platform);
    forall i, j | 0 <= i < j < |catalog|
      ensures catalog[i] != catalog[j]
    {
      assert catalog[i].version != catalog[j].version;
    }
    MatchingDistinct(catalog, c, platform);
  }

  // ─── A saturated window hides the maximum ───

  /** 1001 stable releases; the one published first has the highest version. */
  function CrowdedVersion(i: nat): string {
    Render(CrowdedNumber(i))
  }

  function Crowded(): Catalog {
    seq(LATEST_COMPUTE_WINDOW + 1, i requires 0 <= i => Entry(CrowdedVersion(i), CrowdedVersion(i), Stable, {}))
  }

  lemma {:induction false} MatchingAll(catalog: Catalog, channel: Channel)
    requires forall i :: 0 <= i < |catalog| ==> catalog[i].channel == channel
    ensures Matching(catalog, channel, "") == catalog
  {
    if catalog != [] {
      MatchingAll(catalog[1..], channel);
      assert catalog == [catalog[0]] + catalog[1..];
    }
  }

  function CrowdedNumber(i: nat): Version {
    Version(if i == LATEST_COMPUTE_WINDOW then 1 else 0, 0, i, [])
  }

  lemma CrowdedParses(i: nat)
    ensures Accepts(CrowdedVersion(i)) && Parse(CrowdedVersion(i)) == CrowdedNumber(i)
  {
    RenderParse(CrowdedNumber(i));
  }

  lemma CrowdedDistinct(i: nat, j: nat)
    requires i != j
    ensures CrowdedVersion(i) != CrowdedVersion(j)
  {
    CrowdedParses(i);
    CrowdedParses(j);
    assert CrowdedNumber(i).patch != CrowdedNumber(j).patch;
  }

  lemma CrowdedTop(i: nat)
    requires i < LATEST_COMPUTE_WINDOW
    ensures Accepts(CrowdedVersion(i)) && Accepts(CrowdedVersion(LATEST_COMPUTE_WINDOW))
    ensures Precedes(CrowdedVersion(i), CrowdedVersion(LATEST_COMPUTE_WINDOW))
  {
    CrowdedParses(i);
    CrowdedParses(LATEST_COMPUTE_WINDOW);
    assert CrowdedNumber(i).major < CrowdedNumber(LATEST_COMPUTE_WINDOW).major;
  }

  lemma CrowdedIsWellFormed()
    ensures WellFormedCatalog(Crowded())
  {
    var catalog := Crowded();
    forall i | 0 <= i < |catalog|
      ensures Accepts(catalog[i].version)
    {
      CrowdedParses(i);
    }
    forall i, j | 0 <= i < j < |catalog|
      ensures catalog[i].version != catalog[j].version
    {
      CrowdedDistinct(i, j);
    }
  }

  lemma CrowdedPool()
    ensures Pool(Crowded(), [Stable], "") == Crowded()[..LATEST_COMPUTE_WINDOW]
  {
    MatchingAll(Crowded(), Stable);
    assert [Stable][..0] == [];
    assert ListPublished(Crowded(), Stable, "", LATEST_COMPUTE_WINDOW) == Crowded()[..LATEST_COMPUTE_WINDOW];
  }

  /** The highest version of that catalog is eligible, and is not what FindLatestPublished answers. */
  lemma SaturationHidesTheMaximum(latest: Entry)
    ensures WellFormedCatalog(Crowded()) && Eligible(Crowded(), Crowded()[LATEST_COMPUTE_WINDOW], Stable, "")
    ensures Head(Pool(Crowded(), ChannelFallbackChain(Stable), ""), latest) ==>
      var top := Crowded()[LATEST_COMPUTE_WINDOW];
      && latest != top && Accepts(latest.version) && Accepts(top.version) && Precedes(latest.version, top.version)
  {
    CrowdedPool();
    CrowdedIsWellFormed();
    assert Crowded()[LATEST_COMPUTE_WINDOW] in Crowded();
    if Head(Pool(Crowded(), ChannelFallbackChain(Stable), ""), latest) {
      var i := CrowdedIndex(latest);
      CrowdedDistinct(i, LATEST_COMPUTE_WINDOW);
      CrowdedTop(i);
    }
  }

  lemma CrowdedIndex(e: Entry) returns (i: nat)
    requires e in Crowded()[..LATEST_COMPUTE_WINDOW]
    ensures i < LATEST_COMPUTE_WINDOW && e.version == CrowdedVersion(i)
  {
    var catalog := Crowded();
    i :| 0 <= i < LATEST_COMPUTE_WINDOW && catalog[i] == e;
  }
}
