/**
 * The building blocks of the analytics queries in
 * src/controllers/analyticsController.ts, restated over an in-memory event
 * log: `$match` is `Filter`, `new Set(...map(a => a.ipAddress)).size` is
 * `|Ips(...)|`, the per-day `$group`/`$sort` pipeline is `ClicksByDay`, and
 * the `$group` by OS or device type is `Breakdown`.
 */
module Aggregation {
  import opened Links
  import opened Events

  /** How many times `x` occurs in `xs`. */
  function Count<T(==)>(xs: seq<T>, x: T): nat
  {
    if xs == [] then 0 else (if xs[0] == x then 1 else 0) + Count(xs[1..], x)
  }

  /**
   * `$match` / `Array.filter`: the elements that pass `keep`, each kept as
   * often as it occurs in `xs`.
   */
  function Filter<T(==,!new)>(xs: seq<T>, keep: T -> bool): (r: seq<T>)
    ensures |r| <= |xs|
    ensures forall x :: x in r <==> x in xs && keep(x)
    ensures forall x :: Count(r, x) == if keep(x) then Count(xs, x) else 0
  {
    if xs == [] then []
    else
      assert ([xs[0]] + Filter(xs[1..], keep))[1..] == Filter(xs[1..], keep);
      assert [] + Filter(xs[1..], keep) == Filter(xs[1..], keep);
      (if keep(xs[0]) then [xs[0]] else []) + Filter(xs[1..], keep)
  }

  /** A filter that keeps nothing returns the empty sequence. */
  lemma {:induction false} FilterNone<T(!new)>(xs: seq<T>, keep: T -> bool)
    requires forall x :: x in xs ==> !keep(x)
    ensures Filter(xs, keep) == []
  {
    if xs != [] {
      FilterNone(xs[1..], keep);
    }
  }

  /** An element the filter rejects, appended to the input, leaves the output as it was. */
  lemma {:induction false} FilterAppendRejected<T(!new)>(xs: seq<T>, x: T, keep: T -> bool)
    requires !keep(x)
    ensures Filter(xs + [x], keep) == Filter(xs, keep)
  {
    if xs != [] {
      assert (xs + [x])[1..] == xs[1..] + [x];
      FilterAppendRejected(xs[1..], x, keep);
    }
  }

  /** An element the filter keeps, appended to the input, is appended to the output. */
  lemma {:induction false} FilterAppendKept<T(!new)>(xs: seq<T>, x: T, keep: T -> bool)
    requires keep(x)
    ensures Filter(xs + [x], keep) == Filter(xs, keep) + [x]
  {
    if xs == [] {
      assert Filter([x], keep) == [x] + Filter([], keep);
    } else {
      assert (xs + [x])[1..] == xs[1..] + [x];
      FilterAppendKept(xs[1..], x, keep);
      var head := if keep(xs[0]) then [xs[0]] else [];
      assert Filter(xs + [x], keep) == head + (Filter(xs[1..], keep) + [x]);
    }
  }

  /** Filtering twice is filtering once by the conjunction. */
  lemma {:induction false} FilterTwice<T(!new)>(xs: seq<T>, p: T -> bool, q: T -> bool, both: T -> bool)
    requires forall x :: both(x) == (p(x) && q(x))
    ensures Filter(Filter(xs, p), q) == Filter(xs, both)
  {
    if xs != [] {
      var x, rest := xs[0], xs[1..];
      FilterTwice(rest, p, q, both);
      if p(x) {
        var fp := Filter(xs, p);
        assert fp == [x] + Filter(rest, p);
        assert fp != [] && fp[0] == x && fp[1..] == Filter(rest, p);
        calc {
          Filter(fp, q);
          (if q(x) then [x] else []) + Filter(fp[1..], q);
          (if both(x) then [x] else []) + Filter(rest, both);
        }
      } else {
        assert Filter(xs, p) == Filter(rest, p);
        assert Filter(xs, both) == Filter(rest, both);
      }
    }
  }

  /** `{ urlId: url._id }` */
  function ForLink(es: seq<Event>, id: LinkId): seq<Event>
  {
    Filter(es, (e: Event) => e.urlId == id)
  }

  /** `{ urlId: { $in: urlIds } }` */
  function ForLinks(es: seq<Event>, ids: set<LinkId>): seq<Event>
  {
    Filter(es, (e: Event) => e.urlId in ids)
  }

  /** `{ timestamp: { $gte: since } }` */
  function Since(es: seq<Event>, since: int): seq<Event>
  {
    Filter(es, (e: Event) => e.timestamp >= since)
  }

  /** The distinct source addresses of a set of events. */
  function Ips(es: seq<Event>): set<string>
  {
    set e | e in es :: e.ipAddress
  }

  /** One more event from an address already among the events adds no user. */
  lemma IpsRepeat(es: seq<Event>, earlier: Event, e: Event)
    requires earlier in es && earlier.ipAddress == e.ipAddress
    ensures Ips(es + [e]) == Ips(es) && |Ips(es + [e])| == |Ips(es)|
  {
    assert Ips(es + [e]) == Ips(es) + {e.ipAddress};
  }

  /** One more event from an address not among the events adds exactly one user. */
  lemma IpsFresh(es: seq<Event>, e: Event)
    requires forall x :: x in es ==> x.ipAddress != e.ipAddress
    ensures |Ips(es + [e])| == |Ips(es)| + 1
  {
    assert e.ipAddress !in Ips(es);
    assert Ips(es + [e]) == Ips(es) + {e.ipAddress};
  }

  /** Two events sharing an address are one user: there are never more users than events. */
  lemma {:induction false} IpsAtMostEvents(es: seq<Event>)
    ensures |Ips(es)| <= |es|
  {
    if es != [] {
      IpsAtMostEvents(es[1..]);
      assert Ips(es) == {es[0].ipAddress} + Ips(es[1..]);
    }
  }

  lemma SubsetCard<T>(a: set<T>, b: set<T>)
    requires a <= b
    ensures |a| <= |b|
  {
    assert b == a + (b - a);
  }

  /** Restricting the events never adds users. */
  lemma IpsMonotone(sub: seq<Event>, es: seq<Event>)
    requires forall e :: e in sub ==> e in es
    ensures Ips(sub) <= Ips(es) && |Ips(sub)| <= |Ips(es)|
  {
    SubsetCard(Ips(sub), Ips(es));
  }

  //////////////////////////////////////////////////////////////////////////
  // Clicks by day

  /** One row of `clicksByDate`: a UTC day and its number of events. */
  datatype DayCount = DayCount(day: int, count: nat)

  predicate StrictlyAscending(b: seq<DayCount>)
  {
    forall i, j :: 0 <= i < j < |b| ==> b[i].day < b[j].day
  }

  predicate AllPositive(b: seq<DayCount>)
  {
    forall i :: 0 <= i < |b| ==> b[i].count >= 1
  }

  /** Sum of the counts of all rows. */
  function Total(b: seq<DayCount>): nat
  {
    if b == [] then 0 else b[0].count + Total(b[1..])
  }

  /** The count recorded for day `d` (0 when there is no row for it). */
  function CountAt(b: seq<DayCount>, d: int): nat
  {
    if b == [] then 0 else (if b[0].day == d then b[0].count else 0) + CountAt(b[1..], d)
  }

  /** The events on UTC day `d`. */
  function OnDay(es: seq<Event>, d: int): seq<Event>
  {
    Filter(es, (e: Event) => Day(e.timestamp) == d)
  }

  /** Adds one event on day `d` to ascending rows: bump its row or insert a new row in order. */
  function Tally(b: seq<DayCount>, d: int): (r: seq<DayCount>)
    ensures Total(r) == Total(b) + 1
    ensures forall x :: CountAt(r, x) == CountAt(b, x) + (if x == d then 1 else 0)
  {
    if b == [] then [DayCount(d, 1)]
    else if d < b[0].day then
      var r := [DayCount(d, 1)] + b;
      assert r[1..] == b;
      r
    else if d == b[0].day then
      var r := [DayCount(d, b[0].count + 1)] + b[1..];
      assert r[1..] == b[1..];
      r
    else
      var r := [b[0]] + Tally(b[1..], d);
      assert r[1..] == Tally(b[1..], d);
      r
  }

  /** Tallying keeps every row above a bound that the new day is above too. */
  lemma {:induction false} TallyAbove(b: seq<DayCount>, d: int, m: int)
    requires forall i :: 0 <= i < |b| ==> b[i].day > m
    requires d > m
    ensures forall i :: 0 <= i < |Tally(b, d)| ==> Tally(b, d)[i].day > m
  {
    if b != [] && d > b[0].day {
      TallyAbove(b[1..], d, m);
    }
  }

  lemma {:induction false} TallyAscending(b: seq<DayCount>, d: int)
    requires StrictlyAscending(b)
    ensures StrictlyAscending(Tally(b, d))
  {
    if b != [] && d > b[0].day {
      TallyAscending(b[1..], d);
      TallyAbove(b[1..], d, b[0].day);
    }
  }

  lemma {:induction false} TallyPositive(b: seq<DayCount>, d: int)
    requires AllPositive(b)
    ensures AllPositive(Tally(b, d))
  {
    if b != [] && d > b[0].day {
      TallyPositive(b[1..], d);
    }
  }

  /**
   * `clicksByDate` before the window is applied: ascending by UTC day (the
   * zero-padded '%Y-%m-%d' key sorts the same way), no day without events,
   * each day counting its events, all counts adding up to the number of events.
   */
  function ClicksByDay(es: seq<Event>): (r: seq<DayCount>)
    ensures StrictlyAscending(r)
    ensures AllPositive(r)
    ensures Total(r) == |es|
    ensures forall d :: CountAt(r, d) == |OnDay(es, d)|
  {
    if es == [] then []
    else
      var rest := ClicksByDay(es[1..]);
      TallyAscending(rest, Day(es[0].timestamp));
      TallyPositive(rest, Day(es[0].timestamp));
      Tally(rest, Day(es[0].timestamp))
  }

  /** With positive counts, a day has a row exactly when its count is non-zero. */
  lemma {:induction false} RowIffCounted(b: seq<DayCount>, d: int)
    requires AllPositive(b)
    ensures (exists i :: 0 <= i < |b| && b[i].day == d) <==> CountAt(b, d) > 0
  {
    if b != [] {
      RowIffCounted(b[1..], d);
      if CountAt(b[1..], d) > 0 {
        var i :| 0 <= i < |b[1..]| && b[1..][i].day == d;
        assert b[i + 1].day == d;
      }
    }
  }

  /** In strictly ascending rows, the count at a row's own day is that row's count. */
  lemma {:induction false} CountAtRow(b: seq<DayCount>, i: nat)
    requires StrictlyAscending(b) && i < |b|
    ensures CountAt(b, b[i].day) == b[i].count
  {
    if i == 0 {
      CountAtAbsent(b[1..], b[0].day);
    } else {
      CountAtRow(b[1..], i - 1);
    }
  }

  lemma {:induction false} CountAtAbsent(b: seq<DayCount>, d: int)
    requires StrictlyAscending(b)
    requires forall i :: 0 <= i < |b| ==> b[i].day > d
    ensures CountAt(b, d) == 0
  {
    if b != [] {
      CountAtAbsent(b[1..], d);
    }
  }

  //////////////////////////////////////////////////////////////////////////
  // Breakdown by OS and by device type

  /** The two `$group` keys the queries use: `$osType` and `$deviceType`. */
  datatype Dimension = Os | Device

  function Category(e: Event, dim: Dimension): string
  {
    match dim
    case Os => e.osType
    case Device => e.deviceType
  }

  /** One group of the breakdown: `{ _id, uniqueClicks: $sum 1, uniqueUsers: $addToSet ipAddress }`. */
  datatype GroupStat = GroupStat(name: string, uniqueClicks: nat, uniqueUsers: nat)

  predicate Distinct(ks: seq<string>)
  {
    forall i, j :: 0 <= i < j < |ks| ==> ks[i] != ks[j]
  }

  function InGroup(es: seq<Event>, dim: Dimension, k: string): seq<Event>
  {
    Filter(es, (e: Event) => Category(e, dim) == k)
  }

  /** The group keys that occur in the events, each once. */
  function Categories(es: seq<Event>, dim: Dimension): (ks: seq<string>)
    ensures Distinct(ks)
    ensures forall e :: e in es ==> Category(e, dim) in ks
    ensures forall k :: k in ks ==> exists e :: e in es && Category(e, dim) == k
  {
    if es == [] then []
    else
      var rest := Categories(es[1..], dim);
      if Category(es[0], dim) in rest then rest else [Category(es[0], dim)] + rest
  }

  function GroupOf(es: seq<Event>, dim: Dimension, k: string): GroupStat
  {
    var g := InGroup(es, dim, k);
    GroupStat(k, |g|, |Ips(g)|)
  }

  function Groups(es: seq<Event>, dim: Dimension, ks: seq<string>): (r: seq<GroupStat>)
    ensures |r| == |ks|
    ensures forall i :: 0 <= i < |ks| ==> r[i] == GroupOf(es, dim, ks[i])
  {
    if ks == [] then [] else [GroupOf(es, dim, ks[0])] + Groups(es, dim, ks[1..])
  }

  /**
   * The breakdown along one dimension over all the given events, one group per
   * key that occurs. The database returns groups in no fixed order; this model
   * lists them by the last occurrence of their key, and nothing proved depends on the order.
   */
  function Breakdown(es: seq<Event>, dim: Dimension): (r: seq<GroupStat>)
    ensures |r| == |Categories(es, dim)|
    ensures SumGroupClicks(r) == |es|
  {
    GroupClicksCover(es, dim, Categories(es, dim));
    Groups(es, dim, Categories(es, dim))
  }

  function SumGroupClicks(gs: seq<GroupStat>): nat
  {
    if gs == [] then 0 else gs[0].uniqueClicks + SumGroupClicks(gs[1..])
  }

  lemma {:induction false} OccursOnce(k: string, ks: seq<string>)
    requires Distinct(ks) && k in ks
    ensures Count(ks, k) == 1
  {
    if ks[0] == k {
      OccursNot(k, ks[1..]);
    } else {
      OccursOnce(k, ks[1..]);
    }
  }

  lemma {:induction false} OccursNot(k: string, ks: seq<string>)
    requires k !in ks
    ensures Count(ks, k) == 0
  {
    if ks != [] {
      OccursNot(k, ks[1..]);
    }
  }

  /** Peeling the first event off the log removes it from exactly the groups named by its key. */
  lemma {:induction false} GroupClicksSplit(es: seq<Event>, dim: Dimension, ks: seq<string>)
    requires es != []
    ensures SumGroupClicks(Groups(es, dim, ks))
         == Count(ks, Category(es[0], dim)) + SumGroupClicks(Groups(es[1..], dim, ks))
  {
    if ks != [] {
      var k := ks[0];
      assert |InGroup(es, dim, k)| == (if Category(es[0], dim) == k then 1 else 0) + |InGroup(es[1..], dim, k)|;
      assert Groups(es, dim, ks)[1..] == Groups(es, dim, ks[1..]);
      assert Groups(es[1..], dim, ks)[1..] == Groups(es[1..], dim, ks[1..]);
      GroupClicksSplit(es, dim, ks[1..]);
    }
  }

  lemma {:induction false} GroupClicksEmpty(ks: seq<string>, dim: Dimension)
    ensures SumGroupClicks(Groups([], dim, ks)) == 0
  {
    if ks != [] {
      assert Groups([], dim, ks)[1..] == Groups([], dim, ks[1..]);
      GroupClicksEmpty(ks[1..], dim);
    }
  }

  /** Over distinct keys covering every event, the group sizes add up to the number of events. */
  lemma {:induction false} GroupClicksCover(es: seq<Event>, dim: Dimension, ks: seq<string>)
    requires Distinct(ks)
    requires forall e :: e in es ==> Category(e, dim) in ks
    ensures SumGroupClicks(Groups(es, dim, ks)) == |es|
  {
    if es == [] {
      GroupClicksEmpty(ks, dim);
    } else {
      GroupClicksSplit(es, dim, ks);
      OccursOnce(Category(es[0], dim), ks);
      GroupClicksCover(es[1..], dim, ks);
    }
  }

  /**
   * The OS / device breakdown: one group per key that occurs, no two groups
   * with the same key, so every event lands in exactly one group; each group
   * counts its events and their distinct addresses; the group sizes add up to
   * the number of events; and no group has more users than events or than the
   * whole event set has users.
   */
  lemma BreakdownSpec(es: seq<Event>, dim: Dimension)
    ensures var gs := Breakdown(es, dim);
      && (forall i, j :: 0 <= i < j < |gs| ==> gs[i].name != gs[j].name)
      && (forall e :: e in es ==> exists i :: 0 <= i < |gs| && gs[i].name == Category(e, dim))
      && (forall i :: 0 <= i < |gs| ==>
            && gs[i].uniqueClicks == |InGroup(es, dim, gs[i].name)| >= 1
            && gs[i].uniqueUsers == |Ips(InGroup(es, dim, gs[i].name))|
            && gs[i].uniqueUsers <= gs[i].uniqueClicks
            && gs[i].uniqueUsers <= |Ips(es)|)
      && SumGroupClicks(gs) == |es|
  {
    BreakdownCovers(es, dim);
    BreakdownGroupSizes(es, dim);
  }

  /** Every event's key names a group of the breakdown. */
  lemma BreakdownCovers(es: seq<Event>, dim: Dimension)
    ensures var gs := Breakdown(es, dim);
      forall e :: e in es ==> exists i :: 0 <= i < |gs| && gs[i].name == Category(e, dim)
  {
    var ks := Categories(es, dim);
    var gs := Breakdown(es, dim);
    forall e | e in es ensures exists i :: 0 <= i < |gs| && gs[i].name == Category(e, dim) {
      var i :| 0 <= i < |ks| && ks[i] == Category(e, dim);
      assert gs[i].name == ks[i];
    }
  }

  /** Each group is non-empty and has no more users than events or than the whole log. */
  lemma BreakdownGroupSizes(es: seq<Event>, dim: Dimension)
    ensures var gs := Breakdown(es, dim);
      forall i :: 0 <= i < |gs| ==>
        && |InGroup(es, dim, gs[i].name)| >= 1
        && gs[i].uniqueUsers <= gs[i].uniqueClicks && gs[i].uniqueUsers <= |Ips(es)|
  {
    var ks := Categories(es, dim);
    var gs := Breakdown(es, dim);
    forall i | 0 <= i < |gs|
      ensures |InGroup(es, dim, gs[i].name)| >= 1
      ensures gs[i].uniqueUsers <= gs[i].uniqueClicks && gs[i].uniqueUsers <= |Ips(es)|
    {
      assert ks[i] in ks;
      var e :| e in es && Category(e, dim) == ks[i];
      GroupBounds(es, dim, e);
      var g := InGroup(es, dim, ks[i]);
      assert gs[i] == GroupStat(ks[i], |g|, |Ips(g)|);
    }
  }

  /** The group of an event that occurs is not empty, and has no more users than events or than the whole log. */
  lemma GroupBounds(es: seq<Event>, dim: Dimension, e: Event)
    requires e in es
    ensures var g := InGroup(es, dim, Category(e, dim));
      |g| >= 1 && |Ips(g)| <= |g| && |Ips(g)| <= |Ips(es)|
  {
    var g := InGroup(es, dim, Category(e, dim));
    assert e in g;
    IpsAtMostEvents(g);
    IpsMonotone(g, es);
  }
}
