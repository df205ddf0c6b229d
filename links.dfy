/**
 * The short-link record (`Url` in src/models/Url.ts) and the facts its schema
 * enforces: required non-empty strings, a unique alias, a closed topic enum,
 * a click counter that starts at zero and a creation time.
 */
module Links {
  import opened Optional

  /** Opaque, comparable owner identity (the authenticated user's id). */
  type OwnerId = nat
  /** Record id; the store hands out ids by insertion position. */
  type LinkId = nat

  /** The schema's topic enum; "no topic" (null) is `None` in `Link.topic`. */
  datatype Topic = Acquisition | Activation | Retention

  function TopicName(t: Topic): string
  {
    match t
    case Acquisition => "acquisition"
    case Activation => "activation"
    case Retention => "retention"
  }

  /** The enum validator: a topic string is accepted only if it names one of the three topics. */
  function ParseTopic(s: string): (r: Option<Topic>)
    ensures r.Some? <==> s in {"acquisition", "activation", "retention"}
    ensures r.Some? ==> TopicName(r.value) == s
  {
    if s == "acquisition" then Some(Acquisition)
    else if s == "activation" then Some(Activation)
    else if s == "retention" then Some(Retention)
    else None
  }

  lemma {:induction false} TopicNameRoundTrip(t: Topic)
    ensures ParseTopic(TopicName(t)) == Some(t)
  {
    match t
    case Acquisition =>
    case Activation =>
      assert TopicName(t) != "acquisition" by { assert TopicName(t)[2] != "acquisition"[2]; }
    case Retention =>
      assert TopicName(t) != "acquisition" by { assert TopicName(t)[0] != "acquisition"[0]; }
      assert TopicName(t) != "activation" by { assert TopicName(t)[0] != "activation"[0]; }
  }

  datatype Link = Link(
    id: LinkId,
    userId: OwnerId,
    longUrl: string,
    shortUrl: string,
    alias: string,
    topic: Option<Topic>,
    clicks: nat,
    createdAt: int)

  /** `required: true` on a String path rejects a missing or empty string. */
  predicate WellFormed(l: Link)
  {
    l.longUrl != "" && l.shortUrl != "" && l.alias != ""
  }

  /** A freshly inserted record: counter at its default 0, `createdAt` the insertion time. */
  function NewLink(id: LinkId, owner: OwnerId, longUrl: string, shortUrl: string,
                   alias: string, topic: Option<Topic>, now: int): (l: Link)
    ensures l.clicks == 0 && l.createdAt == now
    ensures l.alias == alias && l.longUrl == longUrl && l.shortUrl == shortUrl
    ensures l.userId == owner && l.topic == topic && l.id == id
  {
    Link(id, owner, longUrl, shortUrl, alias, topic, 0, now)
  }

  /** The unique index on `alias`. */
  predicate AliasesUnique(links: seq<Link>)
  {
    forall i, j :: 0 <= i < j < |links| ==> links[i].alias != links[j].alias
  }

  /** `Url.findOne({ alias })`: the position of the record with this alias. */
  function FindAlias(links: seq<Link>, alias: string): (r: Option<nat>)
    ensures r.Some? ==> r.value < |links| && links[r.value].alias == alias
    ensures r.Some? ==> forall j :: 0 <= j < r.value ==> links[j].alias != alias
    ensures r.None? <==> forall j :: 0 <= j < |links| ==> links[j].alias != alias
  {
    if links == [] then None
    else if links[0].alias == alias then Some(0)
    else match FindAlias(links[1..], alias)
      case None => None
      case Some(j) => Some(j + 1)
  }

  /** Under the unique index, the record found is the only one with that alias. */
  lemma FindAliasUnique(links: seq<Link>, alias: string, i: nat)
    requires AliasesUnique(links)
    requires i < |links| && links[i].alias == alias
    ensures FindAlias(links, alias) == Some(i)
  {
  }

  /** The destination recorded for an alias, if any record has it. */
  function Destination(links: seq<Link>, alias: string): (r: Option<string>)
    ensures r.Some? <==> exists i :: 0 <= i < |links| && links[i].alias == alias
    ensures r.Some? ==> r.value == links[FindAlias(links, alias).value].longUrl
  {
    match FindAlias(links, alias)
    case None => None
    case Some(i) => Some(links[i].longUrl)
  }

  /** Appending a record with a new alias keeps every old lookup and adds one for the new alias. */
  lemma {:induction false} FindAliasAppend(links: seq<Link>, l: Link, alias: string)
    requires forall j :: 0 <= j < |links| ==> links[j].alias != l.alias
    ensures FindAlias(links + [l], alias) ==
            if alias == l.alias then Some(|links|) else FindAlias(links, alias)
  {
    if links == [] {
    } else {
      assert (links + [l])[1..] == links[1..] + [l];
      if links[0].alias != alias {
        FindAliasAppend(links[1..], l, alias);
      }
    }
  }

  /** The record at `i` with its counter incremented by one (`url.clicks += 1; save()`). */
  function Bump(links: seq<Link>, i: nat): (r: seq<Link>)
    requires i < |links|
    ensures |r| == |links|
    ensures r[i].clicks == links[i].clicks + 1
    ensures r[i] == links[i].(clicks := r[i].clicks)
    ensures forall j :: 0 <= j < |links| && j != i ==> r[j] == links[j]
  {
    links[i := links[i].(clicks := links[i].clicks + 1)]
  }

  /** Bumping a later record commutes with dropping the first one. */
  lemma BumpTail(links: seq<Link>, i: nat)
    requires 0 < i < |links|
    ensures Bump(links, i)[1..] == Bump(links[1..], i - 1)
  {
    var a, b := Bump(links, i)[1..], Bump(links[1..], i - 1);
    assert |a| == |b|;
    forall k | 0 <= k < |a| ensures a[k] == b[k] {
      assert a[k] == Bump(links, i)[k + 1];
    }
  }

  /** Sum of the stored counters (`urls.reduce((sum, url) => sum + url.clicks, 0)`). */
  function SumClicks(links: seq<Link>): (n: nat)
    ensures forall i :: 0 <= i < |links| ==> links[i].clicks <= n
    ensures n == 0 <==> forall i :: 0 <= i < |links| ==> links[i].clicks == 0
  {
    if links == [] then 0 else links[0].clicks + SumClicks(links[1..])
  }

  /** Bumping one record raises the total of all counters by exactly one. */
  lemma {:induction false} BumpAddsOneClick(links: seq<Link>, i: nat)
    requires i < |links|
    ensures SumClicks(Bump(links, i)) == SumClicks(links) + 1
  {
    if i == 0 {
      assert Bump(links, i)[1..] == links[1..];
    } else {
      assert Bump(links, i)[1..] == Bump(links[1..], i - 1);
      BumpAddsOneClick(links[1..], i - 1);
    }
  }

  /** Bumping changes no alias or destination, so every lookup is as before. */
  lemma {:induction false} BumpKeepsLookups(links: seq<Link>, i: nat, alias: string)
    requires i < |links|
    ensures FindAlias(Bump(links, i), alias) == FindAlias(links, alias)
    ensures Destination(Bump(links, i), alias) == Destination(links, alias)
    ensures AliasesUnique(links) ==> AliasesUnique(Bump(links, i))
  {
    if links[0].alias != alias {
      if i == 0 {
        assert Bump(links, i)[1..] == links[1..];
      } else {
        assert Bump(links, i)[1..] == Bump(links[1..], i - 1);
        BumpKeepsLookups(links[1..], i - 1, alias);
      }
    }
  }
}
