/**
 * The three read-only queries of src/controllers/analyticsController.ts:
 * per link (owner-scoped), per topic and owner-wide. Each reads a snapshot of
 * the link collection and the event log; `now` is the clock at query time.
 */
module Analytics {
  import opened Optional
  import opened Links
  import opened Events
  import opened Aggregation

  /** The `clicksByDate` window: seven days of 24 hours before `now`. */
  const Week: int := 7 * MsPerDay

  /**
   * `clicksByDate`: per-UTC-day counts of the events at or after `now - Week`,
   * ascending by day, with no empty day, adding up to those events.
   */
  function ClicksByDate(es: seq<Event>, now: int): (r: seq<DayCount>)
    ensures StrictlyAscending(r) && AllPositive(r)
    ensures Total(r) == |Since(es, now - Week)| <= |es|
  {
    ClicksByDay(Since(es, now - Week))
  }

  datatype LinkReport = LinkReport(
    totalClicks: nat,
    uniqueUsers: nat,
    clicksByDate: seq<DayCount>,
    osType: seq<GroupStat>,
    deviceType: seq<GroupStat>)

  datatype LinkSummary = LinkSummary(shortUrl: string, totalClicks: nat, uniqueUsers: nat)

  datatype TopicReport = TopicReport(
    totalClicks: nat,
    uniqueUsers: nat,
    clicksByDate: seq<DayCount>,
    urls: seq<LinkSummary>)

  datatype OverallReport = OverallReport(
    totalUrls: nat,
    totalClicks: nat,
    uniqueUsers: nat,
    clicksByDate: seq<DayCount>,
    osType: seq<GroupStat>,
    deviceType: seq<GroupStat>)

  /** `Url.findOne({ alias, userId })`: the first record with this alias and this owner. */
  function FindOwned(links: seq<Link>, alias: string, owner: OwnerId): (r: Option<nat>)
    ensures r.Some? ==> r.value < |links| && links[r.value].alias == alias && links[r.value].userId == owner
    ensures r.None? <==> forall i :: 0 <= i < |links| ==> !(links[i].alias == alias && links[i].userId == owner)
  {
    if links == [] then None
    else if links[0].alias == alias && links[0].userId == owner then Some(0)
    else match FindOwned(links[1..], alias, owner)
      case None => None
      case Some(j) => Some(j + 1)
  }

  /** Under the unique index, the caller's own link is the record found. */
  lemma FindOwnedUnique(links: seq<Link>, i: nat)
    requires AliasesUnique(links) && i < |links|
    ensures FindOwned(links, links[i].alias, links[i].userId) == Some(i)
  {
  }

  /** `Url.find({ userId })` */
  function OwnedLinks(links: seq<Link>, owner: OwnerId): (r: seq<Link>)
    ensures |r| <= |links|
    ensures forall l :: l in r <==> l in links && l.userId == owner
  {
    Filter(links, (l: Link) => l.userId == owner)
  }

  /**
   * `Url.find({ userId, topic })`: the topic comes from the request path as a
   * string, so a link without a topic (null) never matches.
   */
  function TopicLinks(links: seq<Link>, owner: OwnerId, topic: string): (r: seq<Link>)
    ensures |r| <= |links|
    ensures forall l :: l in r <==>
              l in links && l.userId == owner && l.topic.Some? && TopicName(l.topic.value) == topic
  {
    Filter(links, (l: Link) => l.userId == owner && l.topic.Some? && TopicName(l.topic.value) == topic)
  }

  /** `urls.map(url => url._id)`, as the set `$in` tests against. */
  function IdsOf(links: seq<Link>): set<LinkId>
  {
    set l | l in links :: l.id
  }

  /**
   * `getUrlAnalytics`. It answers exactly when the caller owns a link with
   * that alias (`None`, the 404, does not tell a missing alias from another
   * owner's link). `totalClicks` is the stored counter, not an event count;
   * the distinct addresses never exceed the link's events; the date rows
   * count its in-window events; the OS and device groups count all of them.
   */
  function UrlAnalytics(links: seq<Link>, events: seq<Event>, alias: string, owner: OwnerId, now: int)
    : (r: Option<LinkReport>)
    ensures r.Some? <==>
            exists i :: 0 <= i < |links| && links[i].alias == alias && links[i].userId == owner
    ensures r.Some? ==>
              var l := links[FindOwned(links, alias, owner).value];
              var es := ForLink(events, l.id);
              && r.value.totalClicks == l.clicks
              && r.value.uniqueUsers <= |es|
              && Total(r.value.clicksByDate) == |Since(es, now - Week)|
              && SumGroupClicks(r.value.osType) == |es|
              && SumGroupClicks(r.value.deviceType) == |es|
  {
    match FindOwned(links, alias, owner)
    case None => None
    case Some(i) =>
      var es := ForLink(events, links[i].id);
      IpsAtMostEvents(es);
      BreakdownSpec(es, Os);
      BreakdownSpec(es, Device);
      Some(LinkReport(
        links[i].clicks,
        |Ips(es)|,
        ClicksByDate(es, now),
        Breakdown(es, Os),
        Breakdown(es, Device)))
  }

  /** One entry of the topic report's `urls`: distinct addresses of this link's events only. */
  function Summary(l: Link, es: seq<Event>): (s: LinkSummary)
    ensures s.shortUrl == l.shortUrl && s.totalClicks == l.clicks
    ensures s.uniqueUsers == |set e | e in es && e.urlId == l.id :: e.ipAddress|
    ensures s.uniqueUsers <= |ForLink(es, l.id)|
    ensures forall e :: e in es && e.urlId == l.id ==> e.ipAddress in Ips(ForLink(es, l.id))
  {
    IpsAtMostEvents(ForLink(es, l.id));
    IpsForLink(es, l.id);
    LinkSummary(l.shortUrl, l.clicks, |Ips(ForLink(es, l.id))|)
  }

  /** A link's distinct addresses, read off the whole log. */
  lemma IpsForLink(es: seq<Event>, id: LinkId)
    ensures Ips(ForLink(es, id)) == set e | e in es && e.urlId == id :: e.ipAddress
  {
    var mine := ForLink(es, id);
    forall a | a in Ips(mine) ensures a in set e | e in es && e.urlId == id :: e.ipAddress {
      var e :| e in mine && e.ipAddress == a;
    }
    forall a | a in (set e | e in es && e.urlId == id :: e.ipAddress) ensures a in Ips(mine) {
      var e :| e in es && e.urlId == id && e.ipAddress == a;
      assert e in mine;
    }
  }

  /** The distinct addresses of a set of links' events, read off the whole log. */
  lemma IpsForLinks(es: seq<Event>, ids: set<LinkId>)
    ensures Ips(ForLinks(es, ids)) == set e | e in es && e.urlId in ids :: e.ipAddress
  {
    var theirs := ForLinks(es, ids);
    forall a | a in Ips(theirs) ensures a in set e | e in es && e.urlId in ids :: e.ipAddress {
      var e :| e in theirs && e.ipAddress == a;
    }
    forall a | a in (set e | e in es && e.urlId in ids :: e.ipAddress) ensures a in Ips(theirs) {
      var e :| e in es && e.urlId in ids && e.ipAddress == a;
      assert e in theirs;
    }
  }

  /**
   * `getTopicAnalytics`: one `urls` entry per matching link; the distinct
   * addresses never exceed the topic's events; the date rows count the
   * topic's in-window events.
   */
  function TopicAnalytics(links: seq<Link>, events: seq<Event>, topic: string, owner: OwnerId, now: int)
    : (r: TopicReport)
    ensures var es := ForLinks(events, IdsOf(TopicLinks(links, owner, topic)));
      && |r.urls| == |TopicLinks(links, owner, topic)|
      && r.uniqueUsers <= |es|
      && Total(r.clicksByDate) == |Since(es, now - Week)|
  {
    var ls := TopicLinks(links, owner, topic);
    var es := ForLinks(events, IdsOf(ls));
    IpsAtMostEvents(es);
    TopicReport(
      SumClicks(ls),
      |Ips(es)|,
      ClicksByDate(es, now),
      seq(|ls|, k requires 0 <= k < |ls| => Summary(ls[k], es)))
  }

  /**
   * `getOverallAnalytics`: `totalUrls` counts the caller's links; the
   * distinct addresses never exceed their events; the date rows count the
   * in-window events; the OS and device groups count all of them.
   */
  function OverallAnalytics(links: seq<Link>, events: seq<Event>, owner: OwnerId, now: int)
    : (r: OverallReport)
    ensures var es := ForLinks(events, IdsOf(OwnedLinks(links, owner)));
      && r.totalUrls == |OwnedLinks(links, owner)|
      && r.uniqueUsers <= |es|
      && Total(r.clicksByDate) == |Since(es, now - Week)|
      && SumGroupClicks(r.osType) == |es|
      && SumGroupClicks(r.deviceType) == |es|
  {
    var ls := OwnedLinks(links, owner);
    var es := ForLinks(events, IdsOf(ls));
    IpsAtMostEvents(es);
    BreakdownSpec(es, Os);
    BreakdownSpec(es, Device);
    OverallReport(
      |ls|,
      SumClicks(ls),
      |Ips(es)|,
      ClicksByDate(es, now),
      Breakdown(es, Os),
      Breakdown(es, Device))
  }

  //////////////////////////////////////////////////////////////////////////
  // The date window

  /**
   * `clicksByDate` rows are strictly ascending by day, none is zero, each
   * counts the in-window events of its day, and together they count exactly
   * the in-window events.
   */
  lemma ClicksByDateSpec(es: seq<Event>, now: int)
    ensures var r := ClicksByDate(es, now);
      && StrictlyAscending(r)
      && AllPositive(r)
      && Total(r) == |Since(es, now - Week)| <= |es|
      && (forall i :: 0 <= i < |r| ==> r[i].count == |OnDay(Since(es, now - Week), r[i].day)|)
      && (forall e :: e in es && e.timestamp >= now - Week ==>
            exists i :: 0 <= i < |r| && r[i].day == Day(e.timestamp))
  {
    var r := ClicksByDate(es, now);
    var w := Since(es, now - Week);
    forall i | 0 <= i < |r| ensures r[i].count == |OnDay(w, r[i].day)| {
      CountAtRow(r, i);
    }
    forall e | e in es && e.timestamp >= now - Week
      ensures exists i :: 0 <= i < |r| && r[i].day == Day(e.timestamp)
    {
      assert e in OnDay(w, Day(e.timestamp));
      RowIffCounted(r, Day(e.timestamp));
    }
  }

  /**
   * An event older than the window leaves `clicksByDate` unchanged, while it
   * still counts toward the distinct addresses.
   */
  lemma {:induction false} OldEventOutsideWindow(es: seq<Event>, e: Event, now: int)
    requires e.timestamp < now - Week
    ensures ClicksByDate(es + [e], now) == ClicksByDate(es, now)
    ensures e.ipAddress in Ips(es + [e])
  {
    FilterAppendRejected(es, e, (x: Event) => x.timestamp >= now - Week);
  }

  //////////////////////////////////////////////////////////////////////////
  // Per link

  /**
   * Under the unique alias index, the caller's report for a link's alias is
   * about that link: its own counter and the distinct addresses of its own
   * events.
   */
  lemma UrlAnalyticsReport(links: seq<Link>, events: seq<Event>, i: nat, now: int)
    requires AliasesUnique(links) && i < |links|
    ensures var r := UrlAnalytics(links, events, links[i].alias, links[i].userId, now);
      && r.Some?
      && r.value.totalClicks == links[i].clicks
      && r.value.uniqueUsers == |Ips(ForLink(events, links[i].id))|
  {
    FindOwnedUnique(links, i);
  }

  //////////////////////////////////////////////////////////////////////////
  // Per topic

  /**
   * The topic report: the counters of the matching links, the distinct
   * addresses of all their events, and the date rows of those events.
   */
  lemma TopicAnalyticsReport(links: seq<Link>, events: seq<Event>, topic: string, owner: OwnerId, now: int)
    ensures var ls := TopicLinks(links, owner, topic);
      var r := TopicAnalytics(links, events, topic, owner, now);
      && r.totalClicks == SumClicks(ls)
      && r.uniqueUsers == |set e | e in events && e.urlId in IdsOf(ls) :: e.ipAddress|
      && r.clicksByDate == ClicksByDate(ForLinks(events, IdsOf(ls)), now)
  {
    IpsForLinks(events, IdsOf(TopicLinks(links, owner, topic)));
  }

  /** A topic with no links of the caller gives all zeros and no error. */
  lemma TopicAnalyticsEmpty(links: seq<Link>, events: seq<Event>, topic: string, owner: OwnerId, now: int)
    requires forall l :: l in links && l.userId == owner ==> l.topic.None? || TopicName(l.topic.value) != topic
    ensures TopicAnalytics(links, events, topic, owner, now) == TopicReport(0, 0, [], [])
  {
    FilterNone(links, (l: Link) => l.userId == owner && l.topic.Some? && TopicName(l.topic.value) == topic);
    FilterNone(events, (e: Event) => e.urlId in IdsOf([]));
  }

  /** The links matching the topic query are exactly the caller's links with that topic. */
  lemma TopicLinksMatch(links: seq<Link>, owner: OwnerId, t: Topic)
    ensures forall l :: l in TopicLinks(links, owner, TopicName(t)) <==>
                        l in links && l.userId == owner && l.topic == Some(t)
  {
    forall l | l in links && l.topic.Some? ensures TopicName(l.topic.value) == TopicName(t) <==> l.topic == Some(t) {
      TopicNameRoundTrip(l.topic.value);
      TopicNameRoundTrip(t);
    }
  }

  /**
   * The topic's `urls` list has one entry per matching link, in the same
   * order, with that link's short URL and counter and the distinct addresses
   * of that link's own events, which never exceed the topic's `uniqueUsers`.
   */
  lemma TopicUrlsSpec(links: seq<Link>, events: seq<Event>, topic: string, owner: OwnerId, now: int)
    ensures var ls := TopicLinks(links, owner, topic);
      var r := TopicAnalytics(links, events, topic, owner, now);
      && |r.urls| == |ls|
      && forall k :: 0 <= k < |ls| ==>
           && r.urls[k].shortUrl == ls[k].shortUrl
           && r.urls[k].totalClicks == ls[k].clicks
           && r.urls[k].uniqueUsers == |Ips(ForLink(events, ls[k].id))|
           && r.urls[k].uniqueUsers <= r.uniqueUsers
  {
    var ls := TopicLinks(links, owner, topic);
    var ids := IdsOf(ls);
    var es := ForLinks(events, ids);
    forall k | 0 <= k < |ls|
      ensures ForLink(es, ls[k].id) == ForLink(events, ls[k].id)
      ensures |Ips(ForLink(es, ls[k].id))| <= |Ips(es)|
    {
      var id := ls[k].id;
      assert id in ids by { assert ls[k] in ls; }
      FilterTwice(events, (e: Event) => e.urlId in ids, (e: Event) => e.urlId == id,
                  (e: Event) => e.urlId == id);
      IpsMonotone(ForLink(es, id), es);
    }
  }

  /**
   * A topic entry agrees with the per-link query for that link: same counter,
   * same distinct addresses.
   */
  lemma TopicEntryMatchesUrlAnalytics(links: seq<Link>, events: seq<Event>, topic: string,
                                      owner: OwnerId, now: int, k: nat)
    requires AliasesUnique(links)
    requires k < |TopicLinks(links, owner, topic)|
    ensures var l := TopicLinks(links, owner, topic)[k];
      var entry := TopicAnalytics(links, events, topic, owner, now).urls[k];
      var r := UrlAnalytics(links, events, l.alias, owner, now);
      r.Some? && r.value.totalClicks == entry.totalClicks && r.value.uniqueUsers == entry.uniqueUsers
  {
    var ls := TopicLinks(links, owner, topic);
    var l := ls[k];
    assert l in ls;
    var i :| 0 <= i < |links| && links[i] == l;
    UrlAnalyticsReport(links, events, i, now);
    TopicUrlsSpec(links, events, topic, owner, now);
  }

  //////////////////////////////////////////////////////////////////////////
  // Owner-wide

  /**
   * The owner-wide report: the number and counters of the caller's links, the
   * distinct addresses of all their events, and the date rows and OS and
   * device groups of those events.
   */
  lemma OverallAnalyticsReport(links: seq<Link>, events: seq<Event>, owner: OwnerId, now: int)
    ensures var ls := OwnedLinks(links, owner);
      var es := ForLinks(events, IdsOf(ls));
      var r := OverallAnalytics(links, events, owner, now);
      && r.totalUrls == |ls|
      && r.totalClicks == SumClicks(ls)
      && r.uniqueUsers == |set e | e in events && e.urlId in IdsOf(ls) :: e.ipAddress|
      && r.clicksByDate == ClicksByDate(es, now)
      && r.osType == Breakdown(es, Os)
      && r.deviceType == Breakdown(es, Device)
  {
    IpsForLinks(events, IdsOf(OwnedLinks(links, owner)));
  }

  /**
   * A new event on one of the caller's links, from an address already seen
   * among the caller's events, is one more event but no new user.
   */
  lemma RepeatAddressAddsNoUser(links: seq<Link>, events: seq<Event>, earlier: Event, e: Event,
                                 owner: OwnerId, now: int)
    requires e.urlId in IdsOf(OwnedLinks(links, owner))
    requires earlier in events && earlier.urlId in IdsOf(OwnedLinks(links, owner))
    requires earlier.ipAddress == e.ipAddress
    ensures OverallAnalytics(links, events + [e], owner, now).uniqueUsers
         == OverallAnalytics(links, events, owner, now).uniqueUsers
  {
    var ids := IdsOf(OwnedLinks(links, owner));
    var es := ForLinks(events, ids);
    OwnedEventAppended(events, e, ids);
    OverallUsers(links, events, owner, now);
    OverallUsers(links, events + [e], owner, now);
    assert earlier in es;
    IpsRepeat(es, earlier, e);
  }

  /**
   * A new event on one of the caller's links, from an address not seen among
   * the caller's events, is exactly one more user.
   */
  lemma NewAddressAddsOneUser(links: seq<Link>, events: seq<Event>, e: Event, owner: OwnerId, now: int)
    requires e.urlId in IdsOf(OwnedLinks(links, owner))
    requires forall x :: x in events && x.urlId in IdsOf(OwnedLinks(links, owner)) ==> x.ipAddress != e.ipAddress
    ensures OverallAnalytics(links, events + [e], owner, now).uniqueUsers
         == OverallAnalytics(links, events, owner, now).uniqueUsers + 1
  {
    var ids := IdsOf(OwnedLinks(links, owner));
    OwnedEventAppended(events, e, ids);
    OverallUsers(links, events, owner, now);
    OverallUsers(links, events + [e], owner, now);
    IpsFresh(ForLinks(events, ids), e);
  }

  /** The owner-wide users are the distinct addresses of the caller's events. */
  lemma OverallUsers(links: seq<Link>, events: seq<Event>, owner: OwnerId, now: int)
    ensures OverallAnalytics(links, events, owner, now).uniqueUsers
         == |Ips(ForLinks(events, IdsOf(OwnedLinks(links, owner))))|
  {
  }

  /** An event on one of the given links joins the end of their events. */
  lemma OwnedEventAppended(events: seq<Event>, e: Event, ids: set<LinkId>)
    requires e.urlId in ids
    ensures ForLinks(events + [e], ids) == ForLinks(events, ids) + [e]
  {
    FilterAppendKept(events, e, (x: Event) => x.urlId in ids);
  }

  /** An event on a link the caller does not own leaves the owner-wide report as it was. */
  lemma OtherOwnersEventIgnored(links: seq<Link>, events: seq<Event>, e: Event, owner: OwnerId, now: int)
    requires e.urlId !in IdsOf(OwnedLinks(links, owner))
    ensures OverallAnalytics(links, events + [e], owner, now) == OverallAnalytics(links, events, owner, now)
  {
    var ids := IdsOf(OwnedLinks(links, owner));
    FilterAppendRejected(events, e, (x: Event) => x.urlId in ids);
  }

  function NoTopicLinks(links: seq<Link>, owner: OwnerId): seq<Link>
  {
    Filter(links, (l: Link) => l.userId == owner && l.topic.None?)
  }

  /**
   * Every click of the caller's links is counted once across the three topic
   * queries and the links without a topic.
   */
  lemma {:induction false} OverallClicksByTopic(links: seq<Link>, owner: OwnerId)
    ensures SumClicks(OwnedLinks(links, owner))
         == SumClicks(TopicLinks(links, owner, "acquisition"))
          + SumClicks(TopicLinks(links, owner, "activation"))
          + SumClicks(TopicLinks(links, owner, "retention"))
          + SumClicks(NoTopicLinks(links, owner))
  {
    if links != [] {
      OverallClicksByTopic(links[1..], owner);
      var l := links[0];
      OwnedStep(links, owner);
      TopicStep(links, owner, "acquisition");
      TopicStep(links, owner, "activation");
      TopicStep(links, owner, "retention");
      NoTopicStep(links, owner);
      if l.topic.Some? {
        TopicNameRoundTrip(Acquisition);
        TopicNameRoundTrip(Activation);
        TopicNameRoundTrip(Retention);
        TopicNameRoundTrip(l.topic.value);
      }
    }
  }

  /**
   * The owner-wide `totalClicks` is the three topic reports' `totalClicks`
   * plus the clicks of the caller's links without a topic.
   */
  lemma OverallTotalSplitsByTopic(links: seq<Link>, events: seq<Event>, owner: OwnerId, now: int)
    ensures OverallAnalytics(links, events, owner, now).totalClicks
         == TopicAnalytics(links, events, "acquisition", owner, now).totalClicks
          + TopicAnalytics(links, events, "activation", owner, now).totalClicks
          + TopicAnalytics(links, events, "retention", owner, now).totalClicks
          + SumClicks(NoTopicLinks(links, owner))
  {
    OverallClicksByTopic(links, owner);
  }

  lemma OwnedStep(links: seq<Link>, owner: OwnerId)
    requires links != []
    ensures SumClicks(OwnedLinks(links, owner))
         == (if links[0].userId == owner then links[0].clicks else 0) + SumClicks(OwnedLinks(links[1..], owner))
  {
    var l := links[0];
    SumClicksConcat(if l.userId == owner then [l] else [], OwnedLinks(links[1..], owner));
  }

  lemma TopicStep(links: seq<Link>, owner: OwnerId, topic: string)
    requires links != []
    ensures var l := links[0];
      SumClicks(TopicLinks(links, owner, topic))
         == (if l.userId == owner && l.topic.Some? && TopicName(l.topic.value) == topic then l.clicks else 0)
          + SumClicks(TopicLinks(links[1..], owner, topic))
  {
    var l := links[0];
    SumClicksConcat(if l.userId == owner && l.topic.Some? && TopicName(l.topic.value) == topic then [l] else [],
                    TopicLinks(links[1..], owner, topic));
  }

  lemma NoTopicStep(links: seq<Link>, owner: OwnerId)
    requires links != []
    ensures SumClicks(NoTopicLinks(links, owner))
         == (if links[0].userId == owner && links[0].topic.None? then links[0].clicks else 0)
          + SumClicks(NoTopicLinks(links[1..], owner))
  {
    var l := links[0];
    SumClicksConcat(if l.userId == owner && l.topic.None? then [l] else [], NoTopicLinks(links[1..], owner));
  }

  lemma SumClicksConcat(a: seq<Link>, b: seq<Link>)
    requires |a| <= 1
    ensures SumClicks(a + b) == SumClicks(a) + SumClicks(b)
  {
    if a != [] {
      assert (a + b)[0] == a[0] && (a + b)[1..] == b && a[1..] == [];
      assert SumClicks(a + b) == a[0].clicks + SumClicks(b);
      assert SumClicks(a) == a[0].clicks + SumClicks([]);
    } else {
      assert a + b == b;
    }
  }

  /**
   * The owner-wide distinct addresses include those of every topic and of
   * every one of the caller's links.
   */
  lemma OverallUsersCoverTopic(links: seq<Link>, events: seq<Event>, topic: string, owner: OwnerId, now: int)
    ensures TopicAnalytics(links, events, topic, owner, now).uniqueUsers
         <= OverallAnalytics(links, events, owner, now).uniqueUsers
  {
    var tl := TopicLinks(links, owner, topic);
    var ol := OwnedLinks(links, owner);
    assert IdsOf(tl) <= IdsOf(ol) by {
      forall id | id in IdsOf(tl) ensures id in IdsOf(ol) {
        var l :| l in tl && l.id == id;
        assert l in ol;
      }
    }
    IpsMonotone(ForLinks(events, IdsOf(tl)), ForLinks(events, IdsOf(ol)));
  }

  lemma OverallUsersCoverLink(links: seq<Link>, events: seq<Event>, alias: string, owner: OwnerId, now: int)
    requires UrlAnalytics(links, events, alias, owner, now).Some?
    ensures UrlAnalytics(links, events, alias, owner, now).value.uniqueUsers
         <= OverallAnalytics(links, events, owner, now).uniqueUsers
  {
    var i := FindOwned(links, alias, owner).value;
    LinkEventsAmongOwners(links, events, i);
  }

  /** A link's events are among its owner's events. */
  lemma LinkEventsAmongOwners(links: seq<Link>, events: seq<Event>, i: nat)
    requires i < |links|
    ensures |Ips(ForLink(events, links[i].id))| <= |Ips(ForLinks(events, IdsOf(OwnedLinks(links, links[i].userId))))|
  {
    var ol := OwnedLinks(links, links[i].userId);
    var mine, all := ForLink(events, links[i].id), ForLinks(events, IdsOf(ol));
    assert links[i].id in IdsOf(ol) by { assert links[i] in ol; }
    forall e | e in mine ensures e in all {
      assert e in events && e.urlId == links[i].id;
    }
    IpsMonotone(mine, all);
  }

  /** Two link lists that differ at most in their topics. */
  predicate SameButTopic(a: seq<Link>, b: seq<Link>)
  {
    |a| == |b| && forall k :: 0 <= k < |a| ==> a[k] == b[k].(topic := a[k].topic)
  }

  lemma {:induction false} SameButTopicClicks(a: seq<Link>, b: seq<Link>)
    requires SameButTopic(a, b)
    ensures SumClicks(a) == SumClicks(b)
  {
    if a != [] {
      assert SameButTopic(a[1..], b[1..]);
      SameButTopicClicks(a[1..], b[1..]);
    }
  }

  /** Changing one link's topic changes the caller's links in their topics only. */
  lemma {:induction false} OwnedIgnoresTopic(links: seq<Link>, i: nat, t: Option<Topic>, owner: OwnerId)
    requires i < |links|
    ensures SameButTopic(OwnedLinks(links[i := links[i].(topic := t)], owner), OwnedLinks(links, owner))
  {
    var retopiced := links[i := links[i].(topic := t)];
    var tail, tail' := OwnedLinks(links[1..], owner), OwnedLinks(retopiced[1..], owner);
    if i == 0 {
      assert retopiced[1..] == links[1..];
    } else {
      assert retopiced[1..] == links[1..][i - 1 := links[1..][i - 1].(topic := t)];
      OwnedIgnoresTopic(links[1..], i - 1, t, owner);
    }
    assert SameButTopic(tail', tail);
    OwnedCons(links, owner);
    OwnedCons(retopiced, owner);
    if links[0].userId == owner {
      SameButTopicCons(retopiced[0], links[0], tail', tail);
    } else {
      assert [] + tail == tail && [] + tail' == tail';
    }
  }

  lemma SameButTopicCons(x: Link, y: Link, a: seq<Link>, b: seq<Link>)
    requires x == y.(topic := x.topic) && SameButTopic(a, b)
    ensures SameButTopic([x] + a, [y] + b)
  {
    forall k | 0 <= k < |a| + 1 ensures ([x] + a)[k] == ([y] + b)[k].(topic := ([x] + a)[k].topic) {
      if k > 0 {
        assert ([x] + a)[k] == a[k - 1] && ([y] + b)[k] == b[k - 1];
      }
    }
  }

  /** `OwnedLinks` takes the first link when the caller owns it, then filters the rest. */
  lemma OwnedCons(links: seq<Link>, owner: OwnerId)
    requires links != []
    ensures OwnedLinks(links, owner)
         == (if links[0].userId == owner then [links[0]] else []) + OwnedLinks(links[1..], owner)
  {
  }

  /** The owner-wide report does not depend on the links' topics. */
  lemma OverallIgnoresTopic(links: seq<Link>, events: seq<Event>, i: nat, t: Option<Topic>,
                            owner: OwnerId, now: int)
    requires i < |links|
    ensures OverallAnalytics(links[i := links[i].(topic := t)], events, owner, now)
         == OverallAnalytics(links, events, owner, now)
  {
    var a := OwnedLinks(links[i := links[i].(topic := t)], owner);
    var b := OwnedLinks(links, owner);
    OwnedIgnoresTopic(links, i, t, owner);
    SameButTopicClicks(a, b);
    assert IdsOf(a) == IdsOf(b) by {
      forall id | id in IdsOf(a) ensures id in IdsOf(b) {
        var k :| 0 <= k < |a| && a[k].id == id;
        assert b[k] in b;
      }
      forall id | id in IdsOf(b) ensures id in IdsOf(a) {
        var k :| 0 <= k < |b| && b[k].id == id;
        assert a[k] in a;
      }
    }
  }
}
