/**
 * How the store's writes show up in the analytics: a created link reports
 * zero clicks; a cache miss adds exactly one click to that link's per-link
 * report, leaves every other per-link report alone, and adds one click to its
 * owner's owner-wide total; cache hits are not counted at all.
 */
module Lifecycle {
  import opened Optional
  import opened Links
  import opened Events
  import opened Aggregation
  import opened Analytics
  import opened LinkStore

  /** A link just inserted under a new alias reports zero clicks to its owner. */
  lemma CreatedLinkReportsZero(links: seq<Link>, l: Link, events: seq<Event>, now: int)
    requires AliasesUnique(links)
    requires forall j :: 0 <= j < |links| ==> links[j].alias != l.alias
    requires l.clicks == 0
    ensures var r := UrlAnalytics(links + [l], events, l.alias, l.userId, now);
      r.Some? && r.value.totalClicks == 0
  {
    var after := links + [l];
    assert after[|links|] == l;
    assert AliasesUnique(after);
    UrlAnalyticsReport(after, events, |links|, now);
  }

  /** Bumping a counter keeps every owner-scoped lookup. */
  lemma {:induction false} BumpKeepsOwnedLookup(links: seq<Link>, i: nat, alias: string, owner: OwnerId)
    requires i < |links|
    ensures FindOwned(Bump(links, i), alias, owner) == FindOwned(links, alias, owner)
  {
    if !(links[0].alias == alias && links[0].userId == owner) {
      if i == 0 {
        assert Bump(links, i)[1..] == links[1..];
      } else {
        assert Bump(links, i)[1..] == Bump(links[1..], i - 1);
        BumpKeepsOwnedLookup(links[1..], i - 1, alias, owner);
      }
    }
  }

  /**
   * After a cache miss on link `i`, its owner's report for it shows exactly
   * one more click and is otherwise the same.
   */
  lemma MissAddsOneClick(links: seq<Link>, i: nat, events: seq<Event>, now: int)
    requires AliasesUnique(links) && i < |links|
    ensures var before := UrlAnalytics(links, events, links[i].alias, links[i].userId, now);
      var after := UrlAnalytics(Bump(links, i), events, links[i].alias, links[i].userId, now);
      && before.Some? && after.Some?
      && after.value == before.value.(totalClicks := before.value.totalClicks + 1)
  {
    var l, bumped := links[i], Bump(links, i);
    BumpKeepsOwnedLookup(links, i, l.alias, l.userId);
    FindOwnedUnique(links, i);
    ReportOfFound(links, events, l.alias, l.userId, now, i);
    ReportOfFound(bumped, events, l.alias, l.userId, now, i);
    assert bumped[i] == l.(clicks := l.clicks + 1);
    ReportCountsClicks(l, events, now);
  }

  /** A cache miss on link `i` leaves every per-link report other than its owner's report for it unchanged. */
  lemma MissLeavesOtherReports(links: seq<Link>, i: nat, events: seq<Event>, now: int,
                               alias: string, owner: OwnerId)
    requires i < |links| && (alias != links[i].alias || owner != links[i].userId)
    ensures UrlAnalytics(Bump(links, i), events, alias, owner, now) == UrlAnalytics(links, events, alias, owner, now)
  {
    BumpKeepsOwnedLookup(links, i, alias, owner);
    match FindOwned(links, alias, owner)
    case None =>
    case Some(j) =>
      ReportOfFound(links, events, alias, owner, now, j);
      ReportOfFound(Bump(links, i), events, alias, owner, now, j);
  }

  /**
   * A counted resolution of one of the caller's links raises the owner-wide
   * `totalClicks` by exactly one and leaves the rest of that report as it
   * was; a resolution of someone else's link leaves it unchanged.
   */
  lemma MissCountsInOverall(links: seq<Link>, i: nat, events: seq<Event>, owner: OwnerId, now: int)
    requires i < |links|
    ensures var before := OverallAnalytics(links, events, owner, now);
      OverallAnalytics(Bump(links, i), events, owner, now)
        == before.(totalClicks := before.totalClicks + if links[i].userId == owner then 1 else 0)
  {
    var a, b := OwnedLinks(Bump(links, i), owner), OwnedLinks(links, owner);
    OwnedBumpSameLinks(links, i, owner);
    OwnedBumpClicks(links, i, owner);
    SameButClicksIds(a, b);
  }

  /** Two link lists that differ at most in their counters. */
  predicate SameButClicks(a: seq<Link>, b: seq<Link>)
  {
    |a| == |b| && forall k :: 0 <= k < |a| ==> a[k] == b[k].(clicks := a[k].clicks)
  }

  /** Lists that differ only in their counters hold the same ids. */
  lemma SameButClicksIds(a: seq<Link>, b: seq<Link>)
    requires SameButClicks(a, b)
    ensures IdsOf(a) == IdsOf(b)
  {
    forall id | id in IdsOf(a) ensures id in IdsOf(b) {
      var k :| 0 <= k < |a| && a[k].id == id;
      assert b[k] in b;
    }
    forall id | id in IdsOf(b) ensures id in IdsOf(a) {
      var k :| 0 <= k < |b| && b[k].id == id;
      assert a[k] in a;
    }
  }

  lemma SameButClicksCons(x: Link, y: Link, a: seq<Link>, b: seq<Link>)
    requires x == y.(clicks := x.clicks) && SameButClicks(a, b)
    ensures SameButClicks([x] + a, [y] + b)
  {
    forall k | 0 <= k < |a| + 1 ensures ([x] + a)[k] == ([y] + b)[k].(clicks := ([x] + a)[k].clicks) {
      if k > 0 {
        assert ([x] + a)[k] == a[k - 1] && ([y] + b)[k] == b[k - 1];
      }
    }
  }

  /** After a counted resolution the caller's links are the same links up to their counters. */
  lemma {:induction false} OwnedBumpSameLinks(links: seq<Link>, i: nat, owner: OwnerId)
    requires i < |links|
    ensures SameButClicks(OwnedLinks(Bump(links, i), owner), OwnedLinks(links, owner))
  {
    var bumped := Bump(links, i);
    var tail, tail' := OwnedLinks(links[1..], owner), OwnedLinks(bumped[1..], owner);
    if i == 0 {
      assert bumped[1..] == links[1..];
    } else {
      BumpTail(links, i);
      OwnedBumpSameLinks(links[1..], i - 1, owner);
    }
    assert SameButClicks(tail', tail);
    OwnedCons(links, owner);
    OwnedCons(bumped, owner);
    if links[0].userId == owner {
      SameButClicksCons(bumped[0], links[0], tail', tail);
    } else {
      assert [] + tail == tail && [] + tail' == tail';
    }
  }

  /** The caller's counters add up to one more exactly when the caller owns link `i`. */
  lemma {:induction false} OwnedBumpClicks(links: seq<Link>, i: nat, owner: OwnerId)
    requires i < |links|
    ensures SumClicks(OwnedLinks(Bump(links, i), owner))
         == SumClicks(OwnedLinks(links, owner)) + if links[i].userId == owner then 1 else 0
  {
    var bumped := Bump(links, i);
    if i == 0 {
      assert bumped[1..] == links[1..];
    } else {
      BumpTail(links, i);
      OwnedBumpClicks(links[1..], i - 1, owner);
    }
    OwnedStep(links, owner);
    OwnedStep(bumped, owner);
  }

  /** What `getUrlAnalytics` reports once it has found link `l`. */
  function ReportOf(l: Link, events: seq<Event>, now: int): LinkReport
  {
    var es := ForLink(events, l.id);
    LinkReport(l.clicks, |Ips(es)|, ClicksByDate(es, now), Breakdown(es, Os), Breakdown(es, Device))
  }

  /** The report for the record found, written out field by field. */
  lemma ReportOfFound(links: seq<Link>, events: seq<Event>, alias: string, owner: OwnerId, now: int, j: nat)
    requires FindOwned(links, alias, owner) == Some(j)
    ensures UrlAnalytics(links, events, alias, owner, now) == Some(ReportOf(links[j], events, now))
  {
  }

  /** One more click on a link changes its report's click count and nothing else. */
  lemma ReportCountsClicks(l: Link, events: seq<Event>, now: int)
    ensures ReportOf(l.(clicks := l.clicks + 1), events, now)
         == ReportOf(l, events, now).(totalClicks := l.clicks + 1)
  {
  }

  /**
   * Any number of resolutions of an alias whose destination is cached all
   * return its recorded destination and change neither store nor cache.
   */
  method ResolveCachedRepeatedly(store: Store, alias: string, n: nat) returns (outcomes: seq<RedirectOutcome>)
    requires store.Valid() && CacheKey(alias) in store.cache
    modifies store
    ensures store.Valid()
    ensures store.links == old(store.links) && store.cache == old(store.cache)
    ensures Destination(store.links, alias).Some?
    ensures |outcomes| == n
    ensures forall k :: 0 <= k < n ==> outcomes[k] == Redirect(Destination(store.links, alias).value)
  {
    assert AliasOfKey(CacheKey(alias)) == alias by {
      CacheKeyInjective(AliasOfKey(CacheKey(alias)), alias);
    }
    outcomes := [];
    while |outcomes| < n
      invariant store.Valid()
      invariant store.links == old(store.links) && store.cache == old(store.cache)
      invariant |outcomes| <= n
      invariant forall k :: 0 <= k < |outcomes| ==> outcomes[k] == Redirect(Destination(store.links, alias).value)
    {
      var r := store.Resolve(alias);
      outcomes := outcomes + [r];
    }
  }

  /** A lone fresh link reports zero clicks, and one after a single counted resolution. */
  lemma SingleLinkClicks(links: seq<Link>, events: seq<Event>, now: int)
    requires |links| == 1 && links[0].clicks == 0
    ensures UrlAnalytics(links, events, links[0].alias, links[0].userId, now).value.totalClicks == 0
    ensures UrlAnalytics(Bump(links, 0), events, links[0].alias, links[0].userId, now).value.totalClicks == 1
  {
    assert AliasesUnique(links);
    FindOwnedUnique(links, 0);
    ReportOfFound(links, events, links[0].alias, links[0].userId, now, 0);
    MissAddsOneClick(links, 0, events, now);
  }

  const ExampleUrl: string := "https://example.com"
  const ExampleAlias: string := "test123"

  /** A new store holding one link created with a custom alias and its primed cache entry. */
  method CreateExample(owner: OwnerId, now: int) returns (store: Store)
    ensures fresh(store) && store.Valid()
    ensures |store.links| == 1 && store.links[0].alias == ExampleAlias && store.links[0].userId == owner
    ensures store.links[0].clicks == 0 && Destination(store.links, ExampleAlias) == Some(ExampleUrl)
    ensures CacheKey(ExampleAlias) in store.cache
  {
    store := new Store("http://localhost:3000");
    var token := "x7Qp_2Lk";
    assert IsNanoId(token) by {
      forall i | 0 <= i < |token| ensures IsNanoIdChar(token[i]) {}
    }
    assert ChooseAlias(Some(ExampleAlias), token) == ExampleAlias;
    var created := store.Create(owner, Some(ExampleUrl), Some(ExampleAlias), None, token, now);
    assert created.Created?;
    FindAliasUnique(store.links, ExampleAlias, 0);
  }

  /**
   * A link created with a custom alias resolves to its destination ten times
   * from the cache, and its report still shows zero clicks; after the cache
   * entry expires, one more resolution is counted.
   */
  method CachedResolutionsAreNotCounted(owner: OwnerId, events: seq<Event>, now: int)
    returns (outcomes: seq<RedirectOutcome>, clicksAfterHits: nat, clicksAfterMiss: nat)
    ensures |outcomes| == 11
    ensures forall k :: 0 <= k < |outcomes| ==> outcomes[k] == Redirect(ExampleUrl)
    ensures clicksAfterHits == 0 && clicksAfterMiss == 1
  {
    var store := CreateExample(owner, now);
    ghost var links := store.links;
    var hits := ResolveCachedRepeatedly(store, ExampleAlias, 10);
    var hitLinks := store.links;
    store.Evict(ExampleAlias);
    var r := store.Resolve(ExampleAlias);
    outcomes := hits + [r];
    forall k | 0 <= k < |outcomes| ensures outcomes[k] == Redirect(ExampleUrl) {
      if k < |hits| { assert outcomes[k] == hits[k]; }
    }
    SingleLinkClicks(links, events, now);
    clicksAfterHits := UrlAnalytics(hitLinks, events, ExampleAlias, owner, now).value.totalClicks;
    clicksAfterMiss := UrlAnalytics(store.links, events, ExampleAlias, owner, now).value.totalClicks;
  }
}
