# url-shorter: link store and click analytics

A Dafny model of the two components behind the url-shorter HTTP service:

- **The link store with a read-through cache** (`createUrl` and `redirectUrl`).
  `LinkStore.Store` holds the `Url` collection as a sequence of `Links.Link` records in
  insertion order and the Redis cache as a map from `"url:" + alias` to a destination.
  `Create` validates the request, picks the alias (the custom alias, or the 8-character
  `nanoid` token), inserts the record and primes the cache. `Resolve` answers from the cache
  when it can, without counting anything. On a miss it looks the alias up, increments that
  record's `clicks` by one, caches the destination again and returns it. The store's
  invariant is kept by every method: aliases are unique, every record is well formed, and
  every cache entry is the destination recorded for its alias.
- **The analytics queries** (`getUrlAnalytics`, `getTopicAnalytics`,
  `getOverallAnalytics`). These are pure functions over a snapshot of the links and an event
  log of `Events.Event` records. The Mongo pipelines become explicit filters, a per-day tally
  and a group-by. `$match` is `Aggregation.Filter`. The distinct-address count is
  `|Aggregation.Ips(...)|`. The `'%Y-%m-%d'` date key is the UTC day index `Events.Day`;
  the zero-padded string sorts the same way for years 0000 to 9999. The `$group` by
  `osType` or `deviceType` is `Aggregation.Breakdown`.

`Lifecycle` connects the two components. A created link reports zero clicks. A cache miss
adds exactly one click to that link's per-link report and leaves every other per-link report
unchanged. It also adds exactly one click to its owner's owner-wide `totalClicks` and changes
nothing else in that report. Cache hits are never counted.

Modules: `Optional` (option type), `Links` (the `Url` record, `src/models/Url.ts`), `Events`
(the `Analytics` record, `src/models/Analytics.ts`), `LinkStore`
(`src/controllers/urlController.ts`), `Aggregation` and `Analytics`
(`src/controllers/analyticsController.ts`), `Lifecycle` (the store and the queries together).

Behaviour worth noting:

- A redirect answered from the cache does not increment `clicks`.
- No redirect records a click event. Nothing in the modelled code writes `Analytics` events,
  so the queries read an event log supplied from outside.
- A generated alias that collides is not retried. The insert fails, and the failure surfaces
  as the catch-all 500 error; the model calls it `AliasTaken`.
- A topic outside the enum is rejected by the schema's validator, which also ends in the 500
  error. The model calls it `InvalidTopic` and checks it before the duplicate alias, because
  validation runs before the insert.

## Model

| member | source | states |
|---|---|---|
| Links.ParseTopic | src/models/Url.ts:32-36 | a topic string is accepted exactly when it is one of "acquisition", "activation", "retention", and then it names the parsed topic |
| Links.TopicNameRoundTrip | src/models/Url.ts:32-36 | every stored topic's name parses back to that topic |
| Links.NewLink | src/models/Url.ts:37-44 | a new record starts with `clicks` 0, `createdAt` the insertion time, and carries the given id, owner, URLs, alias and topic |
| Links.FindAlias | src/controllers/urlController.ts:52 | `findOne({ alias })` returns a record with that alias and no earlier one has it; it returns nothing exactly when no record has the alias |
| Links.FindAliasUnique | src/models/Url.ts:27-31 | under the unique index, the record found for an alias is the only record with that alias |
| Links.Destination | src/controllers/urlController.ts:52-66 | an alias has a destination exactly when some record has the alias; the destination is that record's `longUrl` |
| Links.FindAliasAppend | src/controllers/urlController.ts:20-26 | inserting a record under a new alias keeps every earlier lookup and makes the new alias find the new record |
| Links.Bump | src/controllers/urlController.ts:59-61 | the found record's `clicks` goes up by one; every other field of it and every other record stays the same |
| Links.SumClicks | src/controllers/analyticsController.ts:101 | the sum of the counters is at least every single counter, and is zero exactly when every counter is zero |
| Links.BumpAddsOneClick | src/controllers/urlController.ts:59-61 | one counted resolution raises the sum of all counters by exactly one |
| Links.BumpKeepsLookups | src/controllers/urlController.ts:59-64 | incrementing a counter changes no alias lookup and no destination, and keeps aliases unique |
| Events.Day | src/controllers/analyticsController.ts:37 | the day key of a timestamp is the UTC day that contains it |
| LinkStore.CacheKey | src/controllers/urlController.ts:28 | the cache key is "url:" followed by the alias |
| LinkStore.AliasOfKey | src/controllers/urlController.ts:45 | the alias read back from a cache key (the part after "url:") has exactly that key |
| LinkStore.CacheKeyInjective | src/controllers/urlController.ts:28 | two aliases with the same cache key are the same alias |
| LinkStore.ChooseAlias | src/controllers/urlController.ts:17 | the alias is the custom alias when that is a non-empty string, otherwise the generated token |
| LinkStore.ShortUrl | src/controllers/urlController.ts:18 | the short URL is the base URL, then "/api/", then the alias |
| LinkStore.InsertKeepsInvariant | src/controllers/urlController.ts:20-28 | inserting a well-formed record under a free alias and caching its `longUrl` keeps unique aliases, ids and cache agreement, and the new alias resolves to its `longUrl` |
| LinkStore.BumpKeepsInvariant | src/controllers/urlController.ts:59-64 | incrementing a record's counter and re-caching its `longUrl` keeps the store's invariant |
| LinkStore.Store.constructor | src/controllers/urlController.ts:18 | a new store is empty, its cache is empty, and it uses the given base URL |
| LinkStore.Store.Create | src/controllers/urlController.ts:7-38 | a missing or empty long URL is a validation error; otherwise an unknown topic is rejected, then an alias already stored is rejected; every failure leaves store and cache unchanged; success appends exactly one record (counter 0, time `now`, the chosen alias, owner, URL and topic), sets cache "url:"+alias to the long URL, returns the short URL and time, and keeps the invariant |
| LinkStore.Store.Resolve | src/controllers/urlController.ts:40-71 | the result is the alias's recorded destination, or not-found when no record has the alias; a cache hit changes nothing; a miss on a missing alias changes nothing; a miss on a stored alias increments exactly that record's counter and caches its `longUrl`; the invariant is kept |
| LinkStore.Store.Evict | src/controllers/urlController.ts:28 | expiry removes one cache entry, leaves the records alone and keeps the invariant |
| Aggregation.Filter | src/controllers/analyticsController.ts:129 | the result holds exactly the input elements that pass the test, each as many times as it occurs in the input, and is no longer than the input |
| Aggregation.FilterNone | src/controllers/analyticsController.ts:98-104 | a filter that matches nothing returns nothing |
| Aggregation.FilterAppendRejected | src/controllers/analyticsController.ts:29-34 | a rejected element added to the input does not change the output |
| Aggregation.FilterAppendKept | src/controllers/analyticsController.ts:154 | an appended element that passes the test is appended to the output |
| Aggregation.FilterTwice | src/controllers/analyticsController.ts:129 | filtering by a link after filtering by its topic's ids is filtering by both tests at once |
| Aggregation.IpsRepeat | src/controllers/analyticsController.ts:22 | one more event from an address some earlier event already has leaves the distinct addresses and their number unchanged |
| Aggregation.IpsFresh | src/controllers/analyticsController.ts:22 | one more event from an address no earlier event has adds exactly one distinct address |
| Aggregation.IpsAtMostEvents | src/controllers/analyticsController.ts:22 | the distinct addresses never outnumber the events |
| Aggregation.IpsMonotone | src/controllers/analyticsController.ts:129 | restricting the events never adds addresses |
| Aggregation.Tally | src/controllers/analyticsController.ts:36-39 | one more event on a day raises that day's count by one, every other day's count by nothing, and the total by one |
| Aggregation.TallyAscending | src/controllers/analyticsController.ts:41 | the tally keeps the day rows strictly ascending |
| Aggregation.TallyPositive | src/controllers/analyticsController.ts:38 | the tally never leaves a row with a zero count |
| Aggregation.ClicksByDay | src/controllers/analyticsController.ts:35-41 | day rows are strictly ascending with positive counts; each day counts its events; the counts add up to the number of events |
| Aggregation.RowIffCounted | src/controllers/analyticsController.ts:36-39 | a day has a row exactly when it has a positive count |
| Aggregation.CountAtRow | src/controllers/analyticsController.ts:36-41 | a row's count is the count for its day |
| Aggregation.Categories | src/controllers/analyticsController.ts:50-51 | group keys are distinct, every event's key is among them, and each key belongs to some event |
| Aggregation.Groups | src/controllers/analyticsController.ts:49-55 | one group per key, each counting its events and their distinct addresses |
| Aggregation.GroupClicksCover | src/controllers/analyticsController.ts:52 | over distinct keys covering every event, group sizes add up to the number of events |
| Aggregation.Breakdown | src/controllers/analyticsController.ts:45-56 | one group per distinct key, and the group sizes add up to the number of events |
| Aggregation.BreakdownSpec | src/controllers/analyticsController.ts:45-56 | group names are distinct and every event has its group; each group counts its events (at least one) and its distinct addresses; no group has more users than clicks or than all events have; group sizes add up to the number of events |
| Analytics.FindOwned | src/controllers/analyticsController.ts:12-16 | the record found has the alias and the caller as owner; nothing is found exactly when no such record exists |
| Analytics.FindOwnedUnique | src/controllers/analyticsController.ts:12 | under the unique index, the caller's own link is the record found |
| Analytics.OwnedLinks | src/controllers/analyticsController.ts:148 | `Url.find({ userId })` returns exactly the caller's links and no more links than the collection has |
| Analytics.TopicLinks | src/controllers/analyticsController.ts:98 | `Url.find({ userId, topic })` returns exactly the caller's links whose topic is named by the path parameter (never a link without a topic) |
| Analytics.ClicksByDate | src/controllers/analyticsController.ts:25-42 | `clicksByDate` rows are strictly ascending with positive counts, and add up to the events of the last seven days, which are at most all events |
| Analytics.Summary | src/controllers/analyticsController.ts:126-130 | a `urls` entry carries the link's short URL and counter, and as users the number of distinct addresses among the log's events for that link, which never exceeds those events |
| Analytics.IpsForLink | src/controllers/analyticsController.ts:129 | the distinct addresses of a link's filtered events are the addresses of the log's events for that link |
| Analytics.IpsForLinks | src/controllers/analyticsController.ts:104 | the distinct addresses of the `$in`-filtered events are the addresses of the log's events on any of those links |
| Analytics.UrlAnalytics | src/controllers/analyticsController.ts:7-91 | a report exists exactly when the caller owns a link with the alias; its `totalClicks` is that link's counter; distinct users never exceed the link's events; date rows add up to its in-window events; OS and device groups add up to all its events |
| Analytics.TopicAnalytics | src/controllers/analyticsController.ts:93-142 | one `urls` entry per matching link; distinct users never exceed the topic's events; date rows add up to its in-window events (every field is fixed by `TopicAnalyticsReport`) |
| Analytics.OverallAnalytics | src/controllers/analyticsController.ts:144-225 | `totalUrls` is the number of the caller's links; distinct users never exceed their events; date rows add up to the in-window events; OS and device groups add up to all events (every field is fixed by `OverallAnalyticsReport`) |
| Analytics.ClicksByDateSpec | src/controllers/analyticsController.ts:25-42 | `clicksByDate` rows are strictly ascending with positive counts, each counting its day's in-window events, adding up to the in-window events, with a row for every in-window event's day |
| Analytics.OldEventOutsideWindow | src/controllers/analyticsController.ts:25-34 | an event older than seven days leaves `clicksByDate` as it was but still counts for distinct users |
| Analytics.UrlAnalyticsReport | src/controllers/analyticsController.ts:18-22 | the report for an owner's own alias exists, shows the stored counter, and counts the distinct addresses of that link's events only |
| Analytics.TopicAnalyticsReport | src/controllers/analyticsController.ts:98-128 | the topic report's `totalClicks` is the sum of the matching links' counters, its `uniqueUsers` the number of distinct addresses among the log's events on those links, and its `clicksByDate` the date rows of those events (so `ClicksByDateSpec` applies) |
| Analytics.TopicAnalyticsEmpty | src/controllers/analyticsController.ts:98-104 | a topic with none of the caller's links reports zeros and empty lists, not an error |
| Analytics.TopicLinksMatch | src/controllers/analyticsController.ts:98 | the topic query finds exactly the caller's links with that topic |
| Analytics.TopicUrlsSpec | src/controllers/analyticsController.ts:126-130 | the `urls` list has one entry per matching link, in order, with its short URL, its counter and the distinct addresses of its own events, each at most the topic's distinct users |
| Analytics.TopicEntryMatchesUrlAnalytics | src/controllers/analyticsController.ts:126-130 | a topic entry agrees with the per-link report for that link on clicks and distinct users |
| Analytics.OverallAnalyticsReport | src/controllers/analyticsController.ts:148-203 | the owner-wide `totalUrls` and `totalClicks` are the number and counter sum of the caller's links; `uniqueUsers` is the number of distinct addresses among the log's events on those links; `clicksByDate`, `osType` and `deviceType` are the date rows and OS and device groups of those events (so `ClicksByDateSpec` and `BreakdownSpec` apply) |
| Analytics.RepeatAddressAddsNoUser | src/controllers/analyticsController.ts:154-155 | a new event on one of the caller's links from an address an earlier such event has leaves the owner-wide `uniqueUsers` unchanged |
| Analytics.NewAddressAddsOneUser | src/controllers/analyticsController.ts:154-155 | a new event on one of the caller's links from an address none of the caller's events has raises the owner-wide `uniqueUsers` by exactly one |
| Analytics.OwnedEventAppended | src/controllers/analyticsController.ts:154 | a new event on one of the caller's links is added at the end of the caller's events |
| Analytics.OtherOwnersEventIgnored | src/controllers/analyticsController.ts:154 | an event on a link the caller does not own leaves the owner-wide report unchanged |
| Analytics.OverallClicksByTopic | src/controllers/analyticsController.ts:152 | the caller's total clicks are the three topics' totals plus the links without a topic |
| Analytics.OverallTotalSplitsByTopic | src/controllers/analyticsController.ts:152 | the owner-wide `totalClicks` is the three topic reports' `totalClicks` plus the clicks of links without a topic |
| Analytics.OverallUsersCoverTopic | src/controllers/analyticsController.ts:154-155 | a topic's distinct users never exceed the owner-wide distinct users |
| Analytics.OverallUsersCoverLink | src/controllers/analyticsController.ts:154-155 | a link's distinct users never exceed its owner's owner-wide distinct users |
| Analytics.LinkEventsAmongOwners | src/controllers/analyticsController.ts:154-155 | a link's events are among its owner's events, so it has no more distinct addresses |
| Analytics.OverallIgnoresTopic | src/controllers/analyticsController.ts:148-203 | changing any link's topic leaves the owner-wide report unchanged |
| Lifecycle.CreatedLinkReportsZero | src/models/Url.ts:37-40 | a link just inserted under a new alias reports zero clicks to its owner |
| Lifecycle.BumpKeepsOwnedLookup | src/controllers/analyticsController.ts:12 | incrementing a counter changes no owner-scoped lookup |
| Lifecycle.MissAddsOneClick | src/controllers/urlController.ts:59-61 | after a counted resolution, the owner's report for that link shows exactly one more click and is otherwise the same |
| Lifecycle.MissLeavesOtherReports | src/controllers/urlController.ts:59-61 | a counted resolution leaves every other per-link report unchanged (the owner-wide and topic totals do change; see `MissCountsInOverall`) |
| Lifecycle.MissCountsInOverall | src/controllers/urlController.ts:59-61 | a counted resolution of one of the caller's links raises the owner-wide `totalClicks` by exactly one and changes nothing else in that report; a resolution of another owner's link leaves it unchanged |
| Lifecycle.OwnedBumpSameLinks | src/controllers/analyticsController.ts:148 | after a counted resolution the caller's links are the same links, differing at most in their counters |
| Lifecycle.OwnedBumpClicks | src/controllers/analyticsController.ts:152 | after a counted resolution the caller's counters add up to one more exactly when the caller owns the resolved link |
| Lifecycle.ResolveCachedRepeatedly | src/controllers/urlController.ts:45-50 | any number of cached resolutions all return the recorded destination and change neither store nor cache |
| Lifecycle.SingleLinkClicks | src/controllers/urlController.ts:59-61 | a lone new link reports zero clicks, and one after a single counted resolution |
| Lifecycle.CreateExample | src/__tests__/url.test.ts:24-35 | creating "test123" for "https://example.com" in an empty store gives one link with zero clicks that resolves to that URL and is cached |
| Lifecycle.CachedResolutionsAreNotCounted | src/controllers/urlController.ts:45-61 | ten cached resolutions (the hit path) and one after expiry (the miss path) all redirect to the created URL; the report shows zero clicks after the cached ones and one after the miss, extending the redirect test of src/__tests__/url.test.ts |

## Left out

- Storage and cache back ends: Mongo and Redis are a sequence and a map. Their connection
  failures, which end in the 500 catch blocks, are not modelled.
- HTTP: status codes, JSON shapes and logging become outcome datatypes (`CreateOutcome`,
  `RedirectOutcome`, `Option<LinkReport>`).
- `nanoid(8)` randomness: `Store.Create` takes the token as a parameter and requires it to
  be eight URL-safe characters.
- The 24-hour cache expiry: modelled as the explicit `Store.Evict`, not wall-clock time.
- The clock: `createdAt` and the analytics window take `now` as a parameter.
- Concurrency: the read-modify-write `clicks += 1; save()` is modelled as one sequential
  step. Lost updates between concurrent requests are not modelled.
- The window `setDate(getDate() - 7)` runs in the server's local time, so across a daylight
  saving change it is not exactly seven days. The model uses exactly 7 × 24 hours.
- Event recording and user-agent classification: no modelled code writes events or parses
  user agents.
- Authentication: the owner is the authenticated user's id, passed in as an opaque number.
  Every owner-scoped route is behind authentication, so `userId` is always present.
- Mongo `ObjectId`s: record ids are insertion positions.
- `BASE_URL` is a constructor parameter of `Store`.
- Group order: the database returns the OS and device groups in no fixed order. The model
  lists them by the last occurrence of their key, and no proved property depends on the order.
- Routing: the `/:alias` analytics route is registered before `/overall` and shadows it.
  The model treats the three queries as separate functions.
- Analytics.OverallAnalytics: its own contract only bounds `uniqueUsers` and fixes the totals of
  `clicksByDate`, `osType` and `deviceType`. The lemma `OverallAnalyticsReport` fixes every field
  of the report, and `OverallClicksByTopic`, `OverallTotalSplitsByTopic`, `MissCountsInOverall`,
  `RepeatAddressAddsNoUser` and `NewAddressAddsOneUser` state how the fields behave.
- Analytics.TopicAnalytics: its own contract does not restate `totalClicks` and only bounds
  `uniqueUsers`. The lemma `TopicAnalyticsReport` fixes those fields and `clicksByDate`, and
  `TopicUrlsSpec` fixes `urls`.
