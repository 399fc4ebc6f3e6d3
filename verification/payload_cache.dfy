/** The render payload and its cache: `buildPayload`, `cachedPayload`,
    `forgetCache`, and the `saved` / `deleted` hooks that call it. The cache is
    a map from keys to entries; its time-to-live is not modelled. */
module PayloadCache {
  import opened Wrappers
  import opened Schema
  import opened Decimal
  import opened InvitationModel
  import opened TemplateRenderer

  /** What the view receives. */
  datatype Payload = Payload(invitation: Loaded, bride: Option<Person>, groom: Option<Person>, dto: Dto, fields: Fields)

  /** What the cache stores: the DTO and the field map only. */
  datatype CacheEntry = CacheEntry(dto: Dto, fields: Fields)

  type Cache = map<string, CacheEntry>

  const KEY_PREFIX: string := "invitation:"
  const KEY_SUFFIX: string := ":payload:v1"

  /** `"invitation:{$invitation->id}:payload:v1"`. */
  function CacheKey(id: nat): (k: string)
    ensures |k| == |KEY_PREFIX| + |NatToString(id)| + |KEY_SUFFIX|
    ensures k[..|KEY_PREFIX|] == KEY_PREFIX && k[|k| - |KEY_SUFFIX|..] == KEY_SUFFIX
  {
    KEY_PREFIX + NatToString(id) + KEY_SUFFIX
  }

  /** The id a cache key was made from. */
  function IdText(k: string): string
    requires |k| >= |KEY_PREFIX| + |KEY_SUFFIX|
  {
    k[|KEY_PREFIX|..|k| - |KEY_SUFFIX|]
  }

  lemma IdTextOfCacheKey(id: nat)
    ensures IdText(CacheKey(id)) == NatToString(id)
  {
    var k := CacheKey(id);
    assert k == KEY_PREFIX + NatToString(id) + KEY_SUFFIX;
    assert k[|KEY_PREFIX|..|k| - |KEY_SUFFIX|] == NatToString(id);
  }

  /** Different invitations never share a cache entry. */
  lemma CacheKeyInjective(a: nat, b: nat)
    requires CacheKey(a) == CacheKey(b)
    ensures a == b
  {
    IdTextOfCacheKey(a);
    IdTextOfCacheKey(b);
    NatToStringInjective(a, b);
  }

  /** `buildPayload`: the bride and groom are looked up once and handed to both builders. */
  function BuildPayload(agg: Loaded, diskUrl: (string, string) -> string): (r: Payload)
    ensures r.invitation == agg && r.bride == BrideOf(agg) && r.groom == GroomOf(agg)
    ensures r.dto == BuildDto(agg, None, None, diskUrl) && r.fields == BuildFieldMap(agg, None, None, diskUrl)
  {
    var b := BrideOf(agg);
    var g := GroomOf(agg);
    Payload(agg, b, g, BuildDto(agg, b, g, diskUrl), BuildFieldMap(agg, b, g, diskUrl))
  }

  /** `cachedPayload`: `Cache::remember` computes the entry only when the key is
      absent; the invitation, bride and groom are always the current ones. */
  function CachedPayload(cache: Cache, agg: Loaded, diskUrl: (string, string) -> string): (r: (Cache, Payload))
    ensures r.0.Keys == cache.Keys + {CacheKey(agg.id)}
    ensures forall k :: k in cache ==> r.0[k] == cache[k]
    ensures r.1.invitation == agg && r.1.bride == BrideOf(agg) && r.1.groom == GroomOf(agg)
    ensures CacheKey(agg.id) in cache ==>
              r.0 == cache && r.1.dto == cache[CacheKey(agg.id)].dto && r.1.fields == cache[CacheKey(agg.id)].fields
    ensures CacheKey(agg.id) !in cache ==>
              r.1 == BuildPayload(agg, diskUrl) && r.0[CacheKey(agg.id)] == CacheEntry(r.1.dto, r.1.fields)
  {
    var key := CacheKey(agg.id);
    var e := if key in cache then cache[key]
             else CacheEntry(BuildDto(agg, None, None, diskUrl), BuildFieldMap(agg, None, None, diskUrl));
    (cache[key := e], Payload(agg, BrideOf(agg), GroomOf(agg), e.dto, e.fields))
  }

  /** Once remembered, an entry is served unchanged, even for a changed
      aggregate, until it is forgotten. */
  lemma RememberedUntilForgotten(cache: Cache, agg: Loaded, later: Loaded, diskUrl: (string, string) -> string)
    requires later.id == agg.id
    ensures var (c1, p1) := CachedPayload(cache, agg, diskUrl);
            var (c2, p2) := CachedPayload(c1, later, diskUrl);
            c2 == c1 && p2.dto == p1.dto && p2.fields == p1.fields
  {
  }

  /** `forgetCache`: removes the invitation's entry and nothing else. */
  function ForgetCache(cache: Cache, id: nat): (r: Cache)
    ensures CacheKey(id) !in r
    ensures forall k :: k in r <==> k in cache && k != CacheKey(id)
    ensures forall k :: k in r ==> r[k] == cache[k]
  {
    cache - {CacheKey(id)}
  }

  /** After a forget, the next `cachedPayload` recomputes from the aggregate it is given. */
  lemma ForgetThenRecompute(cache: Cache, agg: Loaded, diskUrl: (string, string) -> string)
    ensures CachedPayload(ForgetCache(cache, agg.id), agg, diskUrl).1 == BuildPayload(agg, diskUrl)
  {
  }

  /** Forgetting one invitation keeps every other invitation's entry. */
  lemma ForgetKeepsOthers(cache: Cache, id: nat, other: nat)
    requires other != id && CacheKey(other) in cache
    ensures CacheKey(other) in ForgetCache(cache, id)
    ensures ForgetCache(cache, id)[CacheKey(other)] == cache[CacheKey(other)]
  {
    if CacheKey(other) == CacheKey(id) {
      CacheKeyInjective(other, id);
    }
  }

  /** The model events that reach the renderer. */
  datatype ModelEvent = Saved | Deleted

  /** The `saved` and `deleted` hooks: both forget the invitation's payload. */
  function OnModelEvent(cache: Cache, id: nat, ev: ModelEvent): (r: Cache)
    ensures CacheKey(id) !in r
    ensures forall other :: other != id && CacheKey(other) in cache ==>
              CacheKey(other) in r && r[CacheKey(other)] == cache[CacheKey(other)]
  {
    var r := ForgetCache(cache, id);
    assert forall other :: other != id && CacheKey(other) in cache ==>
             CacheKey(other) in r && r[CacheKey(other)] == cache[CacheKey(other)] by {
      forall other | other != id && CacheKey(other) in cache
        ensures CacheKey(other) in r && r[CacheKey(other)] == cache[CacheKey(other)]
      {
        ForgetKeepsOthers(cache, id, other);
      }
    }
    r
  }

  /** A render after a save or a delete is built from the aggregate it loads. */
  lemma EventThenRenderRecomputes(cache: Cache, agg: Loaded, ev: ModelEvent, diskUrl: (string, string) -> string)
    ensures CachedPayload(OnModelEvent(cache, agg.id, ev), agg, diskUrl).1 == BuildPayload(agg, diskUrl)
  {
  }
}
