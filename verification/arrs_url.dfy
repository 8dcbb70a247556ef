/**
 * The strings the Arr add-on reads and writes: the item id in the address
 * of an Emby detail page (`getItemIdFromUrl`), the TMDb and TVDB ids of an
 * item (`getTmdbId`, `getTvdbId`), and the Radarr and Sonarr links it
 * builds from a lookup result (`buildRadarrUrl`, `buildSonarrUrl`).
 */
module ArrsUrl {
  import opened Common
  import opened Text
  import opened TmdbUrl

  /** A JavaScript value in a condition: `null` and the empty string are false. */
  predicate Truthy(o: Option<string>) {
    o.Some? && o.value != []
  }

  // ------------------------------------------------ URLSearchParams

  /** The constructor drops one leading `?`. */
  function StripQuestion(init: string): (r: string)
    ensures init != [] && init[0] == '?' ==> r == init[1..]
    ensures init == [] || init[0] != '?' ==> r == init
  {
    if init != [] && init[0] == '?' then init[1..] else init
  }

  /** One `name=value` segment; without `=` the whole segment is the name and the value is empty. */
  function ParsePair(seg: string): (r: (string, string))
    ensures '=' !in seg ==> r == (seg, [])
    ensures '=' in seg ==> '=' !in r.0 && seg == r.0 + "=" + r.1
  {
    match IndexOfChar(seg, '=')
    case None => (seg, [])
    case Some(i) =>
      assert seg == seg[..i] + "=" + seg[i + 1..];
      (seg[..i], seg[i + 1..])
  }

  /** The value of the first non-empty segment named `name`. */
  function SegmentValue(segs: seq<string>, name: string): (r: Option<string>)
    ensures r.Some? ==> exists k :: 0 <= k < |segs| && segs[k] != [] && ParsePair(segs[k]) == (name, r.value)
    ensures r.None? <==> forall k :: 0 <= k < |segs| && segs[k] != [] ==> ParsePair(segs[k]).0 != name
  {
    if segs == [] then None
    else if segs[0] != [] && ParsePair(segs[0]).0 == name then Some(ParsePair(segs[0]).1)
    else
      var r := SegmentValue(segs[1..], name);
      assert forall k :: 0 <= k < |segs[1..]| ==> segs[1..][k] == segs[k + 1];
      r
  }

  /** `new URLSearchParams(init).get(name)`, without percent-decoding. */
  function QueryGet(init: string, name: string): Option<string> {
    SegmentValue(Split(StripQuestion(init), '&'), name)
  }

  /** A query string written from name/value pairs. */
  function Encode(pairs: seq<(string, string)>): (r: string) {
    Join(Pieces(pairs), "&")
  }

  function Pieces(pairs: seq<(string, string)>): (r: seq<string>)
    ensures |r| == |pairs|
    ensures forall i :: 0 <= i < |r| ==> r[i] == pairs[i].0 + "=" + pairs[i].1
  {
    seq(|pairs|, i requires 0 <= i < |pairs| => pairs[i].0 + "=" + pairs[i].1)
  }

  /** The value of the first pair named `name`: the independent reading of a query. */
  function FirstValue(pairs: seq<(string, string)>, name: string): Option<string> {
    if pairs == [] then None
    else if pairs[0].0 == name then Some(pairs[0].1)
    else FirstValue(pairs[1..], name)
  }

  /** Names and values free of the characters that delimit them. */
  predicate PlainPairs(pairs: seq<(string, string)>) {
    forall i :: 0 <= i < |pairs| ==>
      '&' !in pairs[i].0 && '=' !in pairs[i].0 && '&' !in pairs[i].1 && '?' !in pairs[i].0 && '?' !in pairs[i].1
  }

  lemma ParsePiece(n: string, v: string)
    requires '=' !in n
    ensures ParsePair(n + "=" + v) == (n, v)
  {
    IndexOfCharAfter(n, '=', v);
    assert n + "=" + v == n + ['='] + v;
  }

  lemma {:induction false} SegmentValuePieces(pairs: seq<(string, string)>, name: string)
    requires PlainPairs(pairs)
    ensures SegmentValue(Pieces(pairs), name) == FirstValue(pairs, name)
  {
    if pairs != [] {
      var ps := Pieces(pairs);
      ParsePiece(pairs[0].0, pairs[0].1);
      assert ps[0] != [] by { assert ps[0][|pairs[0].0|] == '='; }
      assert ps[1..] == Pieces(pairs[1..]);
      SegmentValuePieces(pairs[1..], name);
    }
  }

  /** No piece of plain pairs holds an `&` or a `?`. */
  lemma PiecesAvoid(pairs: seq<(string, string)>)
    requires PlainPairs(pairs)
    ensures forall i :: 0 <= i < |pairs| ==> '&' !in Pieces(pairs)[i] && '?' !in Pieces(pairs)[i]
  {
  }

  /** Reading a query written from plain pairs gives the first value of the name asked for. */
  lemma QueryRoundTrip(pairs: seq<(string, string)>, name: string)
    requires pairs != [] && PlainPairs(pairs)
    ensures QueryGet(Encode(pairs), name) == FirstValue(pairs, name)
  {
    var ps := Pieces(pairs);
    PiecesAvoid(pairs);
    if |ps| > 1 {
      assert Encode(pairs) == ps[0] + "&" + Join(ps[1..], "&");
    }
    assert Encode(pairs)[0] == ps[0][0] && ps[0][0] != '?' by {
      assert ps[0] == pairs[0].0 + "=" + pairs[0].1;
      assert ps[0][0] in ps[0];
    }
    SplitJoin(ps, '&');
    SegmentValuePieces(pairs, name);
  }

  // ------------------------------------------------ getItemIdFromUrl

  /** `[?&]id=(\d+)` anchored at `i`: the captured digits. */
  function IdAt(s: string, i: nat): (r: Option<string>)
    ensures r.Some? ==> i < |s| && s[i] in "?&" && OccursAt(s, i + 1, "id=") && DigitsAt(s, i + 4) == r
  {
    if i < |s| && s[i] in "?&" && OccursAt(s, i + 1, "id=") then DigitsAt(s, i + 4) else None
  }

  /** The leftmost match of `[?&]id=(\d+)` in the whole address. */
  function HrefId(href: string): Option<string> {
    Find(|href|, 0, i => IdAt(href, i))
  }

  /** The id in the query part of the hash: the text between its first and second `?`. */
  function HashId(hash: string): Option<string> {
    var parts := Split(hash, '?');
    if |parts| > 1 then QueryGet(parts[1], "id") else None
  }

  /**
   * `getItemIdFromUrl`: the `id` of the search part, else the `id` of the
   * query in the hash, else the digits after the first `?id=` or `&id=` of
   * the address. An empty `id` counts as missing but is what is returned
   * when nothing later is found.
   */
  function ItemIdFromUrl(search: string, hash: string, href: string): (r: Option<string>)
    ensures Truthy(QueryGet(search, "id")) ==> r == QueryGet(search, "id")
    ensures !Truthy(QueryGet(search, "id")) && Truthy(HashId(hash)) ==> r == HashId(hash)
    ensures !Truthy(QueryGet(search, "id")) && !Truthy(HashId(hash)) && HrefId(href).Some? ==> r == HrefId(href)
    ensures Truthy(r) ==> r in {QueryGet(search, "id"), HashId(hash), HrefId(href)}
  {
    var fromSearch := QueryGet(search, "id");
    var parts := Split(hash, '?');
    var fromHash := if Truthy(fromSearch) || |parts| <= 1 then fromSearch else QueryGet(parts[1], "id");
    if Truthy(fromHash) then fromHash
    else match HrefId(href)
      case Some(d) => Some(d)
      case None => fromHash
  }

  /** An empty search part has no `id`. */
  lemma EmptySearch()
    ensures QueryGet("", "id") == None
  {
    assert Split("", '&') == [""];
  }

  /**
   * Emby's own addresses put the route and its query in the hash
   * (`#!/item?id=…&serverId=…`): the id is read from there.
   */
  lemma HashRouteId(route: string, pairs: seq<(string, string)>, href: string)
    requires '?' !in route && pairs != [] && PlainPairs(pairs)
    requires Truthy(FirstValue(pairs, "id"))
    ensures ItemIdFromUrl("", route + "?" + Encode(pairs), href) == FirstValue(pairs, "id")
  {
    EmptySearch();
    PiecesAvoid(pairs);
    JoinAvoids(Pieces(pairs), "&", '?');
    SplitJoin([route, Encode(pairs)], '?');
    assert Join([route, Encode(pairs)], "?") == route + "?" + Encode(pairs);
    QueryRoundTrip(pairs, "id");
  }

  /** The address fallback finds the digits after the first `?id=` of an address that has no `?` or `&` before it. */
  lemma HrefIdRoundTrip(prefix: string, d: string, rest: string)
    requires '?' !in prefix && '&' !in prefix
    requires d != [] && AllDigits(d) && (rest == [] || !IsDigit(rest[0]))
    ensures HrefId(prefix + "?id=" + d + rest) == Some(d)
  {
    var s := prefix + "?id=" + d + rest;
    var n := |prefix|;
    NoIdInPrefix(prefix, "?id=" + d + rest);
    assert s == prefix + ("?id=" + d + rest);
    IdAfterPrefix(s, n, d, rest);
    FindAt(|s|, 0, n, i => IdAt(s, i));
  }

  lemma NoIdInPrefix(prefix: string, t: string)
    requires '?' !in prefix && '&' !in prefix
    ensures forall j :: 0 <= j < |prefix| ==> IdAt(prefix + t, j).None?
  {
    forall j | 0 <= j < |prefix| ensures IdAt(prefix + t, j).None? {
      assert (prefix + t)[j] == prefix[j];
    }
  }

  lemma IdAfterPrefix(s: string, n: nat, d: string, rest: string)
    requires d != [] && AllDigits(d) && (rest == [] || !IsDigit(rest[0]))
    requires n + 4 + |d| + |rest| == |s| && s[n..] == "?id=" + d + rest
    ensures IdAt(s, n) == Some(d)
  {
    var u := "?id=" + d + rest;
    assert u[0] == '?' && u[1..4] == "id=" && u[4..4 + |d|] == d;
    SliceOfSuffix(s, n, u, 0, 1);
    SliceOfSuffix(s, n, u, 1, 4);
    SliceOfSuffix(s, n, u, 4, 4 + |d|);
    if n + 4 + |d| < |s| {
      assert u[4 + |d|] == rest[0];
      SliceOfSuffix(s, n, u, 4 + |d|, 4 + |d| + 1);
    }
    DigitsExact(s, n + 4, d);
  }

  lemma SliceOfSuffix(s: string, n: nat, u: string, i: nat, j: nat)
    requires n <= |s| && s[n..] == u && i <= j <= |u|
    ensures s[n + i..n + j] == u[i..j]
    ensures i < j ==> s[n + i] == u[i]
  {
    forall k | 0 <= k < j - i
      ensures s[n + i..n + j][k] == u[i..j][k]
    {
      assert s[n..][i + k] == u[i + k];
    }
  }

  /** Whatever the address fallback returns is a non-empty run of digits. */
  lemma HrefIdDigits(href: string)
    requires HrefId(href).Some?
    ensures HrefId(href).value != [] && AllDigits(HrefId(href).value)
  {
    var i := FindWitness(|href|, 0, i => IdAt(href, i));
  }

  // ------------------------------------------------ provider ids

  /** An Emby item as the add-on reads it: its type, its name and its `ProviderIds`, if present. */
  datatype Item = Item(kind: string, name: Option<string>, providerIds: Option<map<string, string>>)

  /** `ProviderIds[key]` when present and non-empty. */
  function IdUnder(ids: Option<map<string, string>>, key: string): Option<string> {
    if ids.Some? && key in ids.value && ids.value[key] != [] then Some(ids.value[key]) else None
  }

  /**
   * `ProviderIds[upper] || ProviderIds[lower]` as the two `if`s read it: the
   * capitalised key's value exactly when it is present and non-empty, the
   * lower-case key's exactly when that one is not and the lower-case value is
   * present and non-empty, else nothing.
   */
  function ProviderId(item: Item, upper: string, lower: string): (r: Option<string>)
    ensures var ids := item.providerIds;
            ids.Some? && upper in ids.value && ids.value[upper] != [] ==> r == Some(ids.value[upper])
    ensures var ids := item.providerIds;
            (!(ids.Some? && upper in ids.value && ids.value[upper] != [])
             && ids.Some? && lower in ids.value && ids.value[lower] != []) ==> r == Some(ids.value[lower])
    ensures var ids := item.providerIds;
            r.None? <==> ids.None? || ((upper !in ids.value || ids.value[upper] == [])
                                       && (lower !in ids.value || ids.value[lower] == []))
  {
    if IdUnder(item.providerIds, upper).Some? then IdUnder(item.providerIds, upper)
    else IdUnder(item.providerIds, lower)
  }

  /** `getTmdbId`. */
  function TmdbId(item: Item): Option<string> {
    ProviderId(item, "Tmdb", "tmdb")
  }

  /** `getTvdbId`. */
  function TvdbId(item: Item): Option<string> {
    ProviderId(item, "Tvdb", "tvdb")
  }

  /** An absent or empty capitalised id does not hide a lower-case one, for either provider. */
  lemma EmptyIdFallsThrough(item: Item, upper: string, lower: string)
    requires (upper, lower) in {("Tmdb", "tmdb"), ("Tvdb", "tvdb")}
    requires item.providerIds.Some? && (upper !in item.providerIds.value || item.providerIds.value[upper] == [])
    requires lower in item.providerIds.value && item.providerIds.value[lower] != []
    ensures (if upper == "Tmdb" then TmdbId(item) else TvdbId(item)) == Some(item.providerIds.value[lower])
  {
  }

  // ------------------------------------------------ the links

  const RadarrBase: string := "https://radarr.mydomain.com"
  const SonarrBase: string := "https://sonarr.mydomain.com"

  const MoviePrefix: string := RadarrBase + "/movie/"
  const AddMoviePrefix: string := RadarrBase + "/add/new?term=tmdb:"
  const SeriesPrefix: string := SonarrBase + "/series/"
  const AddSeriesPrefix: string := SonarrBase + "/add/new?term="

  /**
   * A lookup result: whether the library has the title, its slug (`null`
   * when absent), the TMDb id asked for (Radarr results only; empty for
   * Sonarr) and whether the lookup failed.
   */
  datatype Lookup = Lookup(found: bool, slug: Option<string>, tmdbId: string, error: bool)

  /** `buildRadarrUrl`: the movie page when the library has it under a slug, else the add page for the TMDb id. */
  function RadarrUrl(r: Lookup): string {
    if r.found && Truthy(r.slug) then MoviePrefix + r.slug.value
    else AddMoviePrefix + r.tmdbId
  }

  /** `buildSonarrUrl`: the series page, else a search for the slug, else Sonarr's start page. */
  function SonarrUrl(r: Lookup): string {
    if r.found && Truthy(r.slug) then SeriesPrefix + r.slug.value
    else if Truthy(r.slug) then AddSeriesPrefix + r.slug.value
    else SonarrBase
  }

  /** What a Radarr or Sonarr link opens. */
  datatype Target = TitlePage(slug: string) | AddByTmdb(id: string) | AddBySlug(slug: string) | StartPage

  predicate StartsWith(s: string, p: string) {
    |p| <= |s| && s[..|p|] == p
  }

  /** Reading a Radarr link back. */
  function RadarrTarget(url: string): Option<Target> {
    if StartsWith(url, MoviePrefix) then Some(TitlePage(url[|MoviePrefix|..]))
    else if StartsWith(url, AddMoviePrefix) then Some(AddByTmdb(url[|AddMoviePrefix|..]))
    else None
  }

  /** Reading a Sonarr link back. */
  function SonarrTarget(url: string): Option<Target> {
    if StartsWith(url, SeriesPrefix) then Some(TitlePage(url[|SeriesPrefix|..]))
    else if StartsWith(url, AddSeriesPrefix) then Some(AddBySlug(url[|AddSeriesPrefix|..]))
    else if url == SonarrBase then Some(StartPage)
    else None
  }

  lemma StartsWithConcat(p: string, x: string)
    ensures StartsWith(p + x, p) && (p + x)[|p|..] == x
  {
    assert (p + x)[..|p|] == p;
  }

  /** Two prefixes that differ at some index cannot both start a string. */
  lemma PrefixesDiffer(s: string, p: string, q: string, k: nat)
    requires k < |p| && k < |q| && p[k] != q[k]
    requires StartsWith(s, q)
    ensures !StartsWith(s, p)
  {
    assert s[k] == s[..|q|][k];
  }

  /** The movie page is built exactly for a found result with a slug; every other result adds by TMDb id. */
  lemma RadarrUrlRoundTrip(r: Lookup)
    ensures RadarrTarget(RadarrUrl(r)) ==
              if r.found && Truthy(r.slug) then Some(TitlePage(r.slug.value))
              else Some(AddByTmdb(r.tmdbId))
  {
    var k := |RadarrBase| + 1;
    assert MoviePrefix[k] == 'm' && AddMoviePrefix[k] == 'a';
    if r.found && Truthy(r.slug) {
      StartsWithConcat(MoviePrefix, r.slug.value);
    } else {
      var id := r.tmdbId;
      StartsWithConcat(AddMoviePrefix, id);
      PrefixesDiffer(AddMoviePrefix + id, MoviePrefix, AddMoviePrefix, k);
    }
  }

  /** The series page for a found result with a slug, a slug search for one not in the library, the start page without a slug. */
  lemma SonarrUrlRoundTrip(r: Lookup)
    ensures SonarrTarget(SonarrUrl(r)) ==
              if r.found && Truthy(r.slug) then Some(TitlePage(r.slug.value))
              else if Truthy(r.slug) then Some(AddBySlug(r.slug.value))
              else Some(StartPage)
  {
    var k := |SonarrBase| + 1;
    assert SeriesPrefix[k] == 's' && AddSeriesPrefix[k] == 'a';
    if r.found && Truthy(r.slug) {
      StartsWithConcat(SeriesPrefix, r.slug.value);
    } else if Truthy(r.slug) {
      StartsWithConcat(AddSeriesPrefix, r.slug.value);
      PrefixesDiffer(AddSeriesPrefix + r.slug.value, SeriesPrefix, AddSeriesPrefix, k);
    } else {
      assert !StartsWith(SonarrBase, SeriesPrefix) && !StartsWith(SonarrBase, AddSeriesPrefix);
    }
  }
}
