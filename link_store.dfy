/**
 * The link store behind `createUrl` and `redirectUrl`
 * (src/controllers/urlController.ts): the `Url` collection in insertion order
 * plus the read-through cache that maps "url:" + alias to a destination.
 */
module LinkStore {
  import opened Optional
  import opened Links

  const CachePrefix: string := "url:"

  function CacheKey(alias: string): (k: string)
    ensures |k| == |CachePrefix| + |alias|
    ensures k[..|CachePrefix|] == CachePrefix && k[|CachePrefix|..] == alias
  {
    CachePrefix + alias
  }

  predicate IsCacheKey(k: string)
  {
    |k| >= |CachePrefix| && k[..|CachePrefix|] == CachePrefix
  }

  /** The alias a cache key stands for. */
  function AliasOfKey(k: string): (a: string)
    requires IsCacheKey(k)
    ensures CacheKey(a) == k
  {
    k[|CachePrefix|..]
  }

  /** Distinct aliases never share a cache key. */
  lemma {:induction false} CacheKeyInjective(a: string, b: string)
    requires CacheKey(a) == CacheKey(b)
    ensures a == b
  {
    assert a == CacheKey(a)[|CachePrefix|..];
  }

  /** The characters `nanoid` draws from (URL-safe base64). */
  predicate IsNanoIdChar(c: char)
  {
    ('A' <= c <= 'Z') || ('a' <= c <= 'z') || ('0' <= c <= '9') || c == '_' || c == '-'
  }

  /** What `nanoid(8)` returns: eight URL-safe characters. */
  predicate IsNanoId(s: string)
  {
    |s| == 8 && forall i :: 0 <= i < |s| ==> IsNanoIdChar(s[i])
  }

  /** `customAlias || nanoid(8)`: the custom alias when it is a non-empty string, else the token. */
  function ChooseAlias(customAlias: Option<string>, token: string): (a: string)
    ensures customAlias.Some? && customAlias.value != "" ==> a == customAlias.value
    ensures customAlias.None? || customAlias.value == "" ==> a == token
  {
    if customAlias.Some? && customAlias.value != "" then customAlias.value else token
  }

  /** `${BASE_URL}/api/${alias}` */
  function ShortUrl(baseUrl: string, alias: string): (s: string)
    ensures |s| == |baseUrl| + 5 + |alias|
    ensures s[..|baseUrl|] == baseUrl && s[|baseUrl| + 5..] == alias
    ensures s[|baseUrl|..|baseUrl| + 5] == "/api/"
  {
    baseUrl + "/api/" + alias
  }

  /** `longUrl` is falsy when it is missing or the empty string. */
  predicate MissingUrl(longUrl: Option<string>)
  {
    longUrl.None? || longUrl.value == ""
  }

  /** The request's topic is accepted when absent (defaults to null) or one of the enum's names. */
  predicate TopicAccepted(topic: Option<string>)
  {
    topic.None? || ParseTopic(topic.value).Some?
  }

  function StoredTopic(topic: Option<string>): Option<Topic>
    requires TopicAccepted(topic)
  {
    if topic.None? then None else ParseTopic(topic.value)
  }

  /** The outcome of `createUrl`: HTTP 201, 400, or one of the two failures of `Url.create` (500). */
  datatype CreateOutcome =
    | Created(shortUrl: string, createdAt: int)
    | ValidationError      // 400: long URL is required
    | InvalidTopic         // the schema's enum validator rejects the topic
    | AliasTaken           // the unique index rejects a duplicate alias

  /** The outcome of `redirectUrl`: a 302 to the destination, or 404. */
  datatype RedirectOutcome = Redirect(destination: string) | NotFound

  /** Every cache entry is under a "url:" key whose alias's record has exactly that destination. */
  ghost predicate CacheAgrees(links: seq<Link>, cache: map<string, string>)
  {
    forall k :: k in cache ==> IsCacheKey(k) && Destination(links, AliasOfKey(k)) == Some(cache[k])
  }

  /** The store's invariant: unique aliases, ids by position, well-formed records, a consistent cache. */
  ghost predicate StoreInvariant(links: seq<Link>, cache: map<string, string>)
  {
    && AliasesUnique(links)
    && (forall i :: 0 <= i < |links| ==> links[i].id == i && WellFormed(links[i]))
    && CacheAgrees(links, cache)
  }

  /**
   * Inserting a well-formed record under an alias not yet taken, and caching
   * its destination, keeps the invariant; the new alias then resolves to it.
   */
  lemma InsertKeepsInvariant(links: seq<Link>, cache: map<string, string>, l: Link)
    requires StoreInvariant(links, cache)
    requires Destination(links, l.alias).None? && l.id == |links| && WellFormed(l)
    ensures StoreInvariant(links + [l], cache[CacheKey(l.alias) := l.longUrl])
    ensures Destination(links + [l], l.alias) == Some(l.longUrl)
  {
    var links', cache' := links + [l], cache[CacheKey(l.alias) := l.longUrl];
    forall k | k in cache'
      ensures IsCacheKey(k) && Destination(links', AliasOfKey(k)) == Some(cache'[k])
    {
      FindAliasAppend(links, l, AliasOfKey(k));
      if k != CacheKey(l.alias) {
        assert AliasOfKey(k) != l.alias;
      }
    }
    FindAliasAppend(links, l, l.alias);
  }

  /**
   * Incrementing one record's counter and re-caching its destination keeps
   * the invariant.
   */
  lemma BumpKeepsInvariant(links: seq<Link>, cache: map<string, string>, i: nat)
    requires StoreInvariant(links, cache) && i < |links|
    ensures StoreInvariant(Bump(links, i), cache[CacheKey(links[i].alias) := links[i].longUrl])
  {
    var links', cache' := Bump(links, i), cache[CacheKey(links[i].alias) := links[i].longUrl];
    forall k | k in cache'
      ensures IsCacheKey(k) && Destination(links', AliasOfKey(k)) == Some(cache'[k])
    {
      BumpKeepsLookups(links, i, AliasOfKey(k));
      if k == CacheKey(links[i].alias) {
        FindAliasUnique(links, links[i].alias, i);
      }
    }
    BumpKeepsLookups(links, i, "");
  }

  class Store {
    /** The `Url` collection, in insertion order. */
    var links: seq<Link>
    /** The Redis cache. */
    var cache: map<string, string>
    /** `process.env.BASE_URL` */
    const baseUrl: string

    ghost predicate Valid()
      reads this
    {
      StoreInvariant(links, cache)
    }

    constructor (baseUrl: string)
      ensures Valid()
      ensures links == [] && cache == map[] && this.baseUrl == baseUrl
    {
      this.baseUrl := baseUrl;
      links := [];
      cache := map[];
    }

    /**
     * `createUrl`: validate, pick the alias, insert the record (the unique
     * index rejects a taken alias; nothing is retried), then prime the cache.
     * `token` is what `nanoid(8)` returned and `now` the clock at insertion.
     */
    method Create(owner: OwnerId, longUrl: Option<string>, customAlias: Option<string>,
                  topic: Option<string>, token: string, now: int) returns (r: CreateOutcome)
      requires Valid()
      requires IsNanoId(token)
      modifies this
      ensures Valid()
      ensures r.ValidationError? <==> MissingUrl(longUrl)
      ensures r.InvalidTopic? <==> !MissingUrl(longUrl) && !TopicAccepted(topic)
      ensures r.AliasTaken? <==>
                !MissingUrl(longUrl) && TopicAccepted(topic)
                && Destination(old(links), ChooseAlias(customAlias, token)).Some?
      ensures !r.Created? ==> links == old(links) && cache == old(cache)
      ensures r.Created? ==>
                var alias := ChooseAlias(customAlias, token);
                && r.shortUrl == ShortUrl(baseUrl, alias)
                && r.createdAt == now
                && links == old(links) + [NewLink(|old(links)|, owner, longUrl.value, r.shortUrl,
                                                  alias, StoredTopic(topic), now)]
                && cache == old(cache)[CacheKey(alias) := longUrl.value]
    {
      if longUrl.None? || longUrl.value == "" {
        return ValidationError;
      }
      var alias := if customAlias.Some? && customAlias.value != "" then customAlias.value else token;
      var shortUrl := baseUrl + "/api/" + alias;
      if topic.Some? && ParseTopic(topic.value).None? {
        return InvalidTopic;
      }
      if FindAlias(links, alias).Some? {
        return AliasTaken;
      }
      var stored := if topic.None? then None else ParseTopic(topic.value);
      var link := NewLink(|links|, owner, longUrl.value, shortUrl, alias, stored, now);
      InsertKeepsInvariant(links, cache, link);
      links := links + [link];
      cache := cache[CacheKey(alias) := longUrl.value];
      r := Created(shortUrl, now);
    }

    /**
     * `redirectUrl`: a cached, non-empty destination is returned at once and
     * nothing is counted; on a miss the record is looked up, its counter is
     * incremented by one, the destination is cached again and returned.
     */
    method Resolve(alias: string) returns (r: RedirectOutcome)
      requires Valid()
      modifies this
      ensures Valid()
      ensures r == if Destination(old(links), alias).Some?
                   then Redirect(Destination(old(links), alias).value) else NotFound
      ensures CacheKey(alias) in old(cache) ==> links == old(links) && cache == old(cache)
      ensures CacheKey(alias) !in old(cache) && r.NotFound? ==>
                links == old(links) && cache == old(cache)
      ensures CacheKey(alias) !in old(cache) && r.Redirect? ==>
                var i := FindAlias(old(links), alias).value;
                && links == Bump(old(links), i)
                && cache == old(cache)[CacheKey(alias) := old(links)[i].longUrl]
    {
      var key := CacheKey(alias);
      if key in cache {
        // A cached destination is some record's `longUrl`, which the schema keeps non-empty.
        assert AliasOfKey(key) == alias by { CacheKeyInjective(AliasOfKey(key), alias); }
        assert cache[key] == links[FindAlias(links, alias).value].longUrl != "";
      }
      if key in cache && cache[key] != "" {
        return Redirect(cache[key]);
      }
      var found := FindAlias(links, alias);
      if found.None? {
        return NotFound;
      }
      var i := found.value;
      var destination := links[i].longUrl;
      assert Destination(links, alias) == Some(destination);
      BumpKeepsInvariant(links, cache, i);
      links := Bump(links, i);
      cache := cache[key := destination];
      return Redirect(destination);
    }

    /** The cache entry's 24-hour expiry, as an explicit eviction. */
    method Evict(alias: string)
      requires Valid()
      modifies this
      ensures Valid()
      ensures links == old(links) && cache == old(cache) - {CacheKey(alias)}
    {
      cache := cache - {CacheKey(alias)};
    }
  }
}
