/**
 * The Arr add-on's lookups (`lookupRadarr`, `lookupSonarr`) and their
 * caches. What Radarr and Sonarr answer is a parameter: a reply records
 * which requests came back with a success status and what they held, or
 * that a request threw. A cached key is answered without asking again;
 * a definitive answer is cached; a thrown request is reported with
 * `error` set and is not cached, so the next visit asks again.
 */
module ArrsLookup {
  import opened Common
  import opened ArrsUrl

  // ------------------------------------------------ Radarr

  /**
   * Radarr's answers for one TMDb id: whether the library request
   * succeeded and the slugs of the movies it listed, then whether the
   * lookup request succeeded and the slug it gave. `RadarrThrew` is a
   * request or a JSON body that threw.
   */
  datatype RadarrReply =
    | RadarrThrew
    | RadarrReply(libraryOk: bool, movies: seq<Option<string>>, lookupOk: bool, lookupSlug: Option<string>)

  /** What one uncached Radarr lookup yields. */
  function RadarrAnswer(tmdbId: string, reply: RadarrReply): (r: Lookup)
    ensures r.tmdbId == tmdbId
    ensures r.error <==> reply.RadarrThrew?
    ensures r.found <==> reply.RadarrReply? && reply.libraryOk && reply.movies != []
    ensures r.found ==> r.slug == reply.movies[0]
    ensures !r.found ==> r.slug.None? || (reply.RadarrReply? && !reply.libraryOk && reply.lookupOk && r.slug == reply.lookupSlug)
  {
    match reply
    case RadarrThrew => Lookup(false, None, tmdbId, true)
    case RadarrReply(libraryOk, movies, lookupOk, lookupSlug) =>
      if !libraryOk then
        Lookup(false, if lookupOk && Truthy(lookupSlug) then lookupSlug else None, tmdbId, false)
      else if movies != [] then Lookup(true, movies[0], tmdbId, false)
      else Lookup(false, None, tmdbId, false)
  }

  /** Every cached Radarr result is a definitive answer for the id it is stored under. */
  predicate RadarrCacheOk(cache: map<string, Lookup>) {
    forall k :: k in cache ==> cache[k].tmdbId == k && !cache[k].error
  }

  /** `lookupRadarr`: the result and the cache afterwards. */
  function LookupRadarr(cache: map<string, Lookup>, tmdbId: string, reply: RadarrReply): (r: (Lookup, map<string, Lookup>))
    requires RadarrCacheOk(cache)
    ensures RadarrCacheOk(r.1)
    ensures r.0.tmdbId == tmdbId
    ensures tmdbId in cache ==> r == (cache[tmdbId], cache)
    ensures tmdbId !in cache ==> r.0 == RadarrAnswer(tmdbId, reply)
    ensures tmdbId !in cache && r.0.error ==> r.1 == cache
    ensures tmdbId !in cache && !r.0.error ==> r.1 == cache[tmdbId := r.0]
  {
    if tmdbId in cache then (cache[tmdbId], cache)
    else
      var res := RadarrAnswer(tmdbId, reply);
      if res.error then (res, cache) else (res, cache[tmdbId := res])
  }

  /** A cached id is answered the same whatever Radarr would say: no request is made. */
  lemma RadarrHitAsksNothing(cache: map<string, Lookup>, tmdbId: string, r1: RadarrReply, r2: RadarrReply)
    requires RadarrCacheOk(cache) && tmdbId in cache
    ensures LookupRadarr(cache, tmdbId, r1) == LookupRadarr(cache, tmdbId, r2)
  {
  }

  /** After a definitive answer, asking again gives the same result without a request. */
  lemma RadarrRepeatStable(cache: map<string, Lookup>, tmdbId: string, r1: RadarrReply, r2: RadarrReply)
    requires RadarrCacheOk(cache) && !r1.RadarrThrew?
    ensures var (res, c) := LookupRadarr(cache, tmdbId, r1);
            LookupRadarr(c, tmdbId, r2) == (res, c)
  {
  }

  /** After a thrown request, asking again is a fresh lookup. */
  lemma RadarrErrorRetried(cache: map<string, Lookup>, tmdbId: string, r2: RadarrReply)
    requires RadarrCacheOk(cache) && tmdbId !in cache
    ensures LookupRadarr(cache, tmdbId, RadarrThrew).0.error
    ensures var c := LookupRadarr(cache, tmdbId, RadarrThrew).1;
            LookupRadarr(c, tmdbId, r2) == LookupRadarr(cache, tmdbId, r2)
  {
  }

  /** A failed lookup still links to Radarr's add page for the id. */
  lemma RadarrErrorAddsByTmdb(cache: map<string, Lookup>, tmdbId: string)
    requires RadarrCacheOk(cache) && tmdbId !in cache
    ensures RadarrTarget(RadarrUrl(LookupRadarr(cache, tmdbId, RadarrThrew).0)) == Some(AddByTmdb(tmdbId))
  {
    RadarrUrlRoundTrip(LookupRadarr(cache, tmdbId, RadarrThrew).0);
  }

  // ------------------------------------------------ Sonarr

  /** A series as a Sonarr response lists it: its library id, if any, and its slug. */
  datatype Series = Series(id: Option<int>, slug: Option<string>)

  /**
   * Sonarr's answers: the library request by TVDB id, the lookup by TVDB
   * id and the lookup by name, each `None` when the response status was
   * not a success. A request that was never made is ignored.
   */
  datatype SonarrReply =
    | SonarrThrew
    | SonarrReply(byTvdb: Option<seq<Series>>, tvdbLookup: Option<seq<Series>>, nameLookup: Option<seq<Series>>)

  /** `tvdbId || seriesName`: the cache key. */
  function SonarrKey(tvdbId: Option<string>, name: Option<string>): Option<string> {
    if Truthy(tvdbId) then tvdbId else name
  }

  /** `data.find(s => s.id && s.id > 0)`: the first series the library holds. */
  function FirstInLibrary(series: seq<Series>): (r: Option<Series>)
    ensures r.Some? ==> r.value in series && InLibrary(r.value)
    ensures r.Some? ==> exists i :: 0 <= i < |series| && series[i] == r.value
                                    && forall j :: 0 <= j < i ==> !InLibrary(series[j])
    ensures r.None? <==> forall i :: 0 <= i < |series| ==> !InLibrary(series[i])
  {
    if series == [] then None
    else if InLibrary(series[0]) then Some(series[0])
    else
      var r := FirstInLibrary(series[1..]);
      assert forall i :: 0 <= i < |series[1..]| ==> series[1..][i] == series[i + 1];
      assert r.Some? ==> exists i :: 0 <= i < |series| && series[i] == r.value
                                     && forall j :: 0 <= j < i ==> !InLibrary(series[j]) by {
        if r.Some? {
          var i :| 0 <= i < |series[1..]| && series[1..][i] == r.value
                   && forall j :: 0 <= j < i ==> !InLibrary(series[1..][j]);
          assert series[i + 1] == r.value && forall j :: 0 <= j < i + 1 ==> !InLibrary(series[j]);
        }
      }
      r
  }

  /** `s.id && s.id > 0`: the library holds the series. */
  predicate InLibrary(s: Series) {
    s.id.Some? && s.id.value > 0
  }

  predicate NonEmpty(o: Option<seq<Series>>) {
    o.Some? && o.value != []
  }

  /** The Sonarr answer when the TVDB id settles it: the library's series, else the first lookup hit. */
  function ByTvdb(reply: SonarrReply): Option<Lookup>
    requires reply.SonarrReply?
  {
    if NonEmpty(reply.byTvdb) then Some(Lookup(true, reply.byTvdb.value[0].slug, "", false))
    else if NonEmpty(reply.tvdbLookup) then Some(Lookup(false, reply.tvdbLookup.value[0].slug, "", false))
    else None
  }

  /** The Sonarr answer when the name settles it: the first hit the library holds, else the first hit. */
  function ByName(reply: SonarrReply): (r: Option<Lookup>)
    requires reply.SonarrReply?
    ensures r.Some? <==> NonEmpty(reply.nameLookup)
    ensures r.Some? ==> NameAnswer(reply.nameLookup.value, r.value)
  {
    if !NonEmpty(reply.nameLookup) then None
    else match FirstInLibrary(reply.nameLookup.value)
      case Some(s) => Some(Lookup(true, s.slug, "", false))
      case None => Some(Lookup(false, reply.nameLookup.value[0].slug, "", false))
  }

  /**
   * An answer read off the name lookup's hits: found exactly when some hit is
   * in the library, then with the slug of the first such hit; otherwise the
   * first hit's slug.
   */
  predicate NameAnswer(hits: seq<Series>, r: Lookup)
    requires hits != []
  {
    !r.error
    && (r.found <==> exists i :: 0 <= i < |hits| && InLibrary(hits[i]))
    && (r.found ==> exists i :: 0 <= i < |hits| && InLibrary(hits[i]) && r.slug == hits[i].slug
                                && forall j :: 0 <= j < i ==> !InLibrary(hits[j]))
    && (!r.found ==> r.slug == hits[0].slug)
  }

  /** The library request by TVDB id was made and its first series gave the slug. */
  predicate FoundByTvdb(tvdbId: Option<string>, reply: SonarrReply, r: Lookup)
    requires reply.SonarrReply?
  {
    Truthy(tvdbId) && NonEmpty(reply.byTvdb) && r.slug == reply.byTvdb.value[0].slug
  }

  /** The name lookup was made and a series of it that the library holds gave the slug. */
  predicate FoundByName(name: Option<string>, reply: SonarrReply, r: Lookup)
    requires reply.SonarrReply?
  {
    Truthy(name) && NonEmpty(reply.nameLookup)
    && exists s :: s in reply.nameLookup.value && InLibrary(s) && r.slug == s.slug
  }

  /** A truthy TVDB id whose library request or lookup listed a series: the name is then never asked about. */
  predicate TvdbSettles(tvdbId: Option<string>, reply: SonarrReply)
    requires reply.SonarrReply?
  {
    Truthy(tvdbId) && (NonEmpty(reply.byTvdb) || NonEmpty(reply.tvdbLookup))
  }

  /**
   * What one uncached Sonarr lookup yields: the library's series under the
   * TVDB id, else the TVDB lookup's first hit, else (only then) a series of
   * the name lookup the library holds, else its first hit, else nothing found.
   */
  function SonarrAnswer(tvdbId: Option<string>, name: Option<string>, reply: SonarrReply): (r: Lookup)
    ensures r.error <==> reply.SonarrThrew?
    ensures r.found ==> reply.SonarrReply? && (FoundByTvdb(tvdbId, reply, r) || FoundByName(name, reply, r))
    ensures reply.SonarrReply? && !Truthy(tvdbId) && !Truthy(name) ==> r == Lookup(false, None, "", false)
    ensures reply.SonarrReply? && Truthy(tvdbId) && NonEmpty(reply.byTvdb) ==>
              r == Lookup(true, reply.byTvdb.value[0].slug, "", false)
    ensures reply.SonarrReply? && Truthy(tvdbId) && !NonEmpty(reply.byTvdb) && NonEmpty(reply.tvdbLookup) ==>
              r == Lookup(false, reply.tvdbLookup.value[0].slug, "", false)
    ensures reply.SonarrReply? && !TvdbSettles(tvdbId, reply) && Truthy(name) && NonEmpty(reply.nameLookup) ==>
              NameAnswer(reply.nameLookup.value, r)
    ensures reply.SonarrReply? && !TvdbSettles(tvdbId, reply) && !(Truthy(name) && NonEmpty(reply.nameLookup)) ==>
              r == Lookup(false, None, "", false)
  {
    match reply
    case SonarrThrew => Lookup(false, None, "", true)
    case SonarrReply(_, _, _) =>
      if Truthy(tvdbId) && ByTvdb(reply).Some? then ByTvdb(reply).value
      else if Truthy(name) && ByName(reply).Some? then ByName(reply).value
      else Lookup(false, None, "", false)
  }

  /** Once the TVDB id settles the answer, neither the name nor what the name lookup would say plays any part. */
  lemma SonarrTvdbBeforeName(tvdbId: Option<string>, n1: Option<string>, n2: Option<string>,
                             reply: SonarrReply, byName: Option<seq<Series>>)
    requires reply.SonarrReply? && TvdbSettles(tvdbId, reply)
    ensures SonarrAnswer(tvdbId, n1, reply) == SonarrAnswer(tvdbId, n2, reply.(nameLookup := byName))
  {
  }

  predicate SonarrCacheOk(cache: map<Option<string>, Lookup>) {
    forall k :: k in cache ==> !cache[k].error
  }

  /** `lookupSonarr`: the result and the cache afterwards. */
  function LookupSonarr(cache: map<Option<string>, Lookup>, tvdbId: Option<string>, name: Option<string>,
                        reply: SonarrReply): (r: (Lookup, map<Option<string>, Lookup>))
    requires SonarrCacheOk(cache)
    ensures SonarrCacheOk(r.1)
    ensures SonarrKey(tvdbId, name) in cache ==> r == (cache[SonarrKey(tvdbId, name)], cache)
    ensures SonarrKey(tvdbId, name) !in cache ==> r.0 == SonarrAnswer(tvdbId, name, reply)
    ensures SonarrKey(tvdbId, name) !in cache && r.0.error ==> r.1 == cache
    ensures SonarrKey(tvdbId, name) !in cache && !r.0.error ==> r.1 == cache[SonarrKey(tvdbId, name) := r.0]
  {
    var key := SonarrKey(tvdbId, name);
    if key in cache then (cache[key], cache)
    else
      var res := SonarrAnswer(tvdbId, name, reply);
      if res.error then (res, cache) else (res, cache[key := res])
  }

  /** With a TVDB id the name is not part of the key: a renamed show reuses the cached answer. */
  lemma SonarrKeyedByTvdb(cache: map<Option<string>, Lookup>, tvdbId: Option<string>, n1: Option<string>,
                          n2: Option<string>, r1: SonarrReply, r2: SonarrReply)
    requires SonarrCacheOk(cache) && Truthy(tvdbId) && !r1.SonarrThrew?
    ensures var (res, c) := LookupSonarr(cache, tvdbId, n1, r1);
            LookupSonarr(c, tvdbId, n2, r2) == (res, c)
  {
  }

  /** A thrown Sonarr request links to Sonarr's start page and is asked again next time. */
  lemma SonarrErrorRetried(cache: map<Option<string>, Lookup>, tvdbId: Option<string>, name: Option<string>,
                           r2: SonarrReply)
    requires SonarrCacheOk(cache) && SonarrKey(tvdbId, name) !in cache
    ensures SonarrTarget(SonarrUrl(LookupSonarr(cache, tvdbId, name, SonarrThrew).0)) == Some(StartPage)
    ensures var c := LookupSonarr(cache, tvdbId, name, SonarrThrew).1;
            LookupSonarr(c, tvdbId, name, r2) == LookupSonarr(cache, tvdbId, name, r2)
  {
    SonarrUrlRoundTrip(LookupSonarr(cache, tvdbId, name, SonarrThrew).0);
  }

  /** A series the library holds is linked to its page when Sonarr gives a slug for it. */
  lemma SonarrLibraryLinksPage(tvdbId: string, name: Option<string>, s: Series, rest: seq<Series>,
                               other: Option<seq<Series>>, byName: Option<seq<Series>>)
    requires tvdbId != [] && Truthy(s.slug)
    ensures SonarrTarget(SonarrUrl(SonarrAnswer(Some(tvdbId), name, SonarrReply(Some([s] + rest), other, byName))))
            == Some(TitlePage(s.slug.value))
  {
    SonarrUrlRoundTrip(SonarrAnswer(Some(tvdbId), name, SonarrReply(Some([s] + rest), other, byName)));
  }
}
