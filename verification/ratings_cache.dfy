/**
 * `RatingsCache` of the ratings add-on: a key/value store in `localStorage`
 * whose entries carry the time they were written, expire lazily on read,
 * and are evicted oldest-first when the browser's storage quota is full.
 *
 * `localStorage` is a map from full storage keys to what the cache reads back
 * there; keys without the cache prefix belong to other scripts and hold
 * whatever they hold. The clock is an explicit `now` in milliseconds.
 */
module RatingsCache {
  import opened Common
  import StableSort

  const Prefix: string := "emby_ratings_"
  const TtlHours: nat := 24
  const TtlMs: nat := TtlHours * 60 * 60 * 1000

  /**
   * A stored value as the cache sees it after `JSON.parse`. A missing or falsy
   * `timestamp` reads as 0, a missing or falsy `data` as None; the JSON text
   * `null` behaves exactly like `Parsed(0, None)`.
   */
  datatype Raw<D> =
    | Blank                                  // the empty string
    | Malformed                              // text that JSON.parse rejects
    | Parsed(timestamp: int, data: Option<D>)

  type Store<D> = map<string, Raw<D>>

  /** `keys` is an enumeration of the store in `localStorage.key(i)` order. */
  predicate IsEnumeration<D>(keys: seq<string>, s: Store<D>) {
    Distinct(keys) && Elems(keys) == s.Keys
  }

  /** The storage keys that belong to the cache. */
  function CacheKeys<D>(s: Store<D>): set<string> {
    set k | k in s && Prefix <= k
  }

  // ---------------------------------------------------------------- get

  /** An entry older than the time to live; an entry aged exactly `TtlMs` is still fresh. */
  predicate Expired(timestamp: int, now: int) {
    now - timestamp > TtlMs
  }

  datatype Read<D> = Read(value: Option<D>, store: Store<D>)

  /** `RatingsCache.get`: the payload of a fresh entry; an expired entry is deleted. */
  function Get<D>(s: Store<D>, key: string, now: int): (r: Read<D>)
    ensures r.value.Some? <==>
              && Prefix + key in s && s[Prefix + key].Parsed?
              && s[Prefix + key].timestamp != 0 && s[Prefix + key].data.Some?
              && !Expired(s[Prefix + key].timestamp, now)
    ensures r.value.Some? ==> r.value == s[Prefix + key].data
    ensures r.store.Keys <= s.Keys && forall k :: k in r.store ==> r.store[k] == s[k]
    ensures r.store != s <==>
              && Prefix + key in s && s[Prefix + key].Parsed?
              && s[Prefix + key].timestamp != 0 && s[Prefix + key].data.Some?
              && Expired(s[Prefix + key].timestamp, now)
    ensures r.store != s ==> r.store == s - {Prefix + key}
  {
    var full := Prefix + key;
    if full !in s then Read(None, s)
    else match s[full]
      case Blank => Read(None, s)
      case Malformed => Read(None, s)
      case Parsed(timestamp, data) =>
        if timestamp == 0 || data.None? then Read(None, s)
        else if Expired(timestamp, now) then
          assert full in s && full !in s - {full};
          Read(None, s - {full})
        else Read(data, s)
  }

  // ---------------------------------------------------------------- cleanup

  /** The entries a regular cleanup deletes: unparsable, without timestamp, or expired. */
  predicate Stale<D>(raw: Raw<D>, now: int) {
    match raw
    case Blank => false
    case Malformed => true
    case Parsed(timestamp, _) => timestamp == 0 || Expired(timestamp, now)
  }

  /** `cleanup()` without force: deletes exactly the stale cache entries. */
  function Cleanup<D>(s: Store<D>, now: int): (r: Store<D>)
    ensures forall k :: k in r <==> k in s && !(Prefix <= k && Stale(s[k], now))
    ensures forall k :: k in r ==> r[k] == s[k]
  {
    map k | k in s && !(Prefix <= k && Stale(s[k], now)) :: s[k]
  }

  /** A regular cleanup never changes what `get` answers at the same instant. */
  lemma CleanupInvisibleToGet<D>(s: Store<D>, key: string, now: int)
    ensures Get(Cleanup(s, now), key, now).value == Get(s, key, now).value
  {
  }

  /** A second regular cleanup at the same instant finds nothing to delete. */
  lemma CleanupIdempotent<D>(s: Store<D>, now: int)
    ensures Cleanup(Cleanup(s, now), now) == Cleanup(s, now)
  {
  }

  /** `parsed?.timestamp || 0`: the age key of forced cleanup; unreadable entries count as 0. */
  function StoredTimestamp<D>(s: Store<D>, k: string): int {
    if k in s && s[k].Parsed? then s[k].timestamp else 0
  }

  function AgeKey<D>(s: Store<D>): string -> StableSort.Key {
    k => StableSort.Key(StoredTimestamp(s, k), 0)
  }

  /** The cache keys among `keys`, in enumeration order. */
  function PrefixedKeys(keys: seq<string>): (r: seq<string>)
    ensures forall k :: k in r <==> k in keys && Prefix <= k
    ensures Distinct(keys) ==> Distinct(r)
  {
    if keys == [] then []
    else
      var rest := PrefixedKeys(keys[1..]);
      if Prefix <= keys[0] then
        assert Distinct(keys) ==> keys[0] !in keys[1..];
        [keys[0]] + rest
      else rest
  }

  /** `Math.max(1, Math.floor(n / 2))`. */
  function EvictionCount(n: nat): nat {
    if n / 2 > 1 then n / 2 else 1
  }

  /** The cache keys sorted by age with a stable sort, oldest first. */
  function OldestFirst<D>(s: Store<D>, keys: seq<string>): seq<string> {
    StableSort.Sort(PrefixedKeys(keys), AgeKey(s))
  }

  lemma PrefixedKeysOfEnumeration<D>(s: Store<D>, keys: seq<string>)
    requires IsEnumeration(keys, s)
    ensures Distinct(PrefixedKeys(keys)) && Elems(PrefixedKeys(keys)) == CacheKeys(s)
    ensures |PrefixedKeys(keys)| == |CacheKeys(s)|
  {
    DistinctCard(PrefixedKeys(keys));
  }

  /** The facts about the age order that forced cleanup relies on. */
  lemma OldestFirstFacts<D>(s: Store<D>, keys: seq<string>)
    requires IsEnumeration(keys, s)
    ensures Distinct(OldestFirst(s, keys))
    ensures Elems(OldestFirst(s, keys)) == CacheKeys(s)
    ensures |OldestFirst(s, keys)| == |CacheKeys(s)|
    ensures StableSort.SortedBy(OldestFirst(s, keys), AgeKey(s))
  {
    PrefixedKeysOfEnumeration(s, keys);
    var candidates := PrefixedKeys(keys);
    var order := OldestFirst(s, keys);
    PermutationKeepsDistinct(candidates, order);
    PermutationKeepsElems(candidates, order);
    assert |multiset(order)| == |multiset(candidates)|;
  }

  lemma EvictedPrefix(order: seq<string>, d: nat)
    requires Distinct(order) && d <= |order|
    ensures |Elems(order[..d])| == d
    ensures Elems(order[..d]) <= Elems(order)
  {
    assert Distinct(order[..d]);
    DistinctCard(order[..d]);
  }

  lemma EvictedAreOldest<D>(s: Store<D>, order: seq<string>, d: nat, gone: string, kept: string)
    requires StableSort.SortedBy(order, AgeKey(s))
    requires d <= |order|
    requires gone in Elems(order[..d])
    requires kept in Elems(order) && kept !in Elems(order[..d])
    ensures StoredTimestamp(s, gone) <= StoredTimestamp(s, kept)
  {
    var i :| 0 <= i < d && order[i] == gone;
    var j :| 0 <= j < |order| && order[j] == kept;
    assert StableSort.KeyLe(AgeKey(s)(order[i]), AgeKey(s)(order[j]));
  }

  /**
   * `cleanup(true)` over at least one cache entry: deletes `max(1, floor(n/2))`
   * of the n cache entries, none younger than an entry it keeps, and nothing
   * outside the cache.
   */
  function ForcedCleanup<D>(s: Store<D>, keys: seq<string>): (r: Store<D>)
    requires IsEnumeration(keys, s)
    requires |CacheKeys(s)| >= 1
    ensures r.Keys <= s.Keys && forall k :: k in r ==> r[k] == s[k]
    ensures s.Keys - r.Keys <= CacheKeys(s)
    ensures |s.Keys - r.Keys| == EvictionCount(|CacheKeys(s)|)
    ensures forall gone, kept :: gone in s.Keys - r.Keys && kept in CacheKeys(r) ==>
              StoredTimestamp(s, gone) <= StoredTimestamp(s, kept)
  {
    var order := OldestFirst(s, keys);
    OldestFirstFacts(s, keys);
    var d := EvictionCount(|order|);
    EvictedPrefix(order, d);
    var evicted := Elems(order[..d]);
    var r := s - evicted;
    assert s.Keys - r.Keys == evicted;
    forall gone, kept | gone in s.Keys - r.Keys && kept in CacheKeys(r)
      ensures StoredTimestamp(s, gone) <= StoredTimestamp(s, kept)
    {
      EvictedAreOldest(s, order, d, gone, kept);
    }
    r
  }

  /** `cleanup(true)` as written: with no cache entry, `entries[0].key` throws a TypeError. */
  function ForcedCleanupAsWritten<D>(s: Store<D>, keys: seq<string>): (r: Option<Store<D>>)
    requires IsEnumeration(keys, s)
    ensures r.None? <==> CacheKeys(s) == {}
    ensures r.Some? ==> r.value == ForcedCleanup(s, keys)
  {
    if |PrefixedKeys(keys)| == 0 then
      PrefixedKeysOfEnumeration(s, keys);
      None
    else
      PrefixedKeysOfEnumeration(s, keys);
      Some(ForcedCleanup(s, keys))
  }

  /** Quota recovery as intended: evict the oldest half, or nothing when the cache holds no entry. */
  function EvictOldest<D>(s: Store<D>, keys: seq<string>): (r: Store<D>)
    requires IsEnumeration(keys, s)
    ensures r.Keys <= s.Keys && forall k :: k in r ==> r[k] == s[k]
    ensures s.Keys - r.Keys <= CacheKeys(s)
    ensures |s.Keys - r.Keys| == if CacheKeys(s) == {} then 0 else EvictionCount(|CacheKeys(s)|)
  {
    if CacheKeys(s) == {} then s else ForcedCleanup(s, keys)
  }

  // ---------------------------------------------------------------- set

  /** The outcome of one `localStorage.setItem` call, decided by the browser. */
  datatype WriteAttempt = Ok | Quota | Failed

  /** A stored entry written at `now` holding `d`. */
  function Entry<D>(d: D, now: nat): Raw<D> {
    Parsed(now, Some(d))
  }

  /**
   * `RatingsCache.set`: writes `{timestamp, data}` under the prefixed key.
   * `first` is how the first `setItem` (stamped `now`) went. On a quota
   * failure the oldest entries are evicted and the write is tried once more,
   * stamped with the clock read again (`retryNow`); `retryOk` is how that
   * second `setItem` went. No failure escapes.
   */
  function Set<D>(s: Store<D>, keys: seq<string>, key: string, d: D, now: nat, retryNow: nat,
                  first: WriteAttempt, retryOk: bool): (r: Store<D>)
    requires IsEnumeration(keys, s)
    ensures first == Ok ==> r == s[Prefix + key := Entry(d, now)]
    ensures first == Failed ==> r == s
    ensures first == Quota ==>
              r == if retryOk then EvictOldest(s, keys)[Prefix + key := Entry(d, retryNow)] else EvictOldest(s, keys)
    ensures forall k :: k in s && k !in CacheKeys(s) ==> k in r && r[k] == s[k]
    ensures forall k :: k in r && k != Prefix + key ==> k in s && r[k] == s[k]
  {
    var full := Prefix + key;
    match first
    case Ok => s[full := Entry(d, now)]
    case Failed => s
    case Quota =>
      var evicted := EvictOldest(s, keys);
      if retryOk then evicted[full := Entry(d, retryNow)] else evicted
  }

  datatype SetOutcome<D> = Returned(store: Store<D>) | Threw

  /** `RatingsCache.set` as written, where the forced cleanup can throw out of the catch block. */
  function SetAsWritten<D>(s: Store<D>, keys: seq<string>, key: string, d: D, now: nat, retryNow: nat,
                           first: WriteAttempt, retryOk: bool): (r: SetOutcome<D>)
    requires IsEnumeration(keys, s)
    ensures r.Threw? <==> first == Quota && CacheKeys(s) == {}
    ensures r.Returned? ==> r.store == Set(s, keys, key, d, now, retryNow, first, retryOk)
  {
    var full := Prefix + key;
    match first
    case Ok => Returned(s[full := Entry(d, now)])
    case Failed => Returned(s)
    case Quota =>
      match ForcedCleanupAsWritten(s, keys)
      case None => Threw
      case Some(evicted) =>
        Returned(if retryOk then evicted[full := Entry(d, retryNow)] else evicted)
  }

  /**
   * A quota failure while no cache entry exists (all of `localStorage` is used
   * by other keys) makes the source's `set` throw instead of swallowing it.
   */
  lemma SetAsWrittenThrowsWithoutEntries()
    ensures SetAsWritten(map["streaming-settings" := Blank], ["streaming-settings"],
                         "mdblist_movie_550", 7, 1700000000000, 1700000000001, Quota, false).Threw?
  {
    var s: Store<int> := map["streaming-settings" := Blank];
    assert "streaming-settings" !in CacheKeys(s) by {
      assert Prefix[0] == 'e' && "streaming-settings"[0] == 's';
    }
    assert CacheKeys(s) == {};
  }

  /** After a successful write, `get` at the instant it was stamped returns the payload (the clock is never 0 in practice). */
  lemma GetAfterSet<D>(s: Store<D>, keys: seq<string>, key: string, d: D, now: nat, retryNow: nat,
                       first: WriteAttempt, retryOk: bool)
    requires IsEnumeration(keys, s)
    requires first == Ok || (first == Quota && retryOk)
    ensures var at := if first == Ok then now else retryNow;
            Get(Set(s, keys, key, d, now, retryNow, first, retryOk), key, at).value
            == if at == 0 then None else Some(d)
  {
  }

  /** After a first write that succeeds, `get` returns the entry through exactly the time-to-live and not a millisecond longer. */
  lemma GetAfterSetLater<D>(s: Store<D>, keys: seq<string>, key: string, d: D, now: nat, retryNow: nat, later: int)
    requires IsEnumeration(keys, s)
    requires 0 < now <= later <= now + TtlMs
    ensures Get(Set(s, keys, key, d, now, retryNow, Ok, false), key, later).value == Some(d)
    ensures Get(Set(s, keys, key, d, now, retryNow, Ok, false), key, later + 1).value
            == if later == now + TtlMs then None else Some(d)
  {
  }
}
