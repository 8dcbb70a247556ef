/**
 * The TMDb link patterns the ratings and streaming add-ons match against an
 * anchor's `href`: `themoviedb\.org\/(movie|tv)\/(\d+)`, the episode pattern
 * and the season pattern with its `(?!\/episode)` look-ahead. `String.match`
 * without the `g` flag reports the leftmost match, so each pattern is a
 * matcher at one position plus a left-to-right search.
 */
module TmdbUrl {
  import opened Common
  import opened Text

  const Host: string := "themoviedb.org/"

  // ------------------------------------------------ leftmost search

  /** The leftmost position in `from..n` where `at` matches, and what it captured. */
  function Find<R>(n: nat, from: nat, at: nat -> Option<R>): (r: Option<R>)
    ensures r.None? <==> forall i :: from <= i <= n ==> at(i).None?
    ensures r.Some? ==> exists i :: from <= i <= n && at(i) == r && forall j :: from <= j < i ==> at(j).None?
    decreases n + 1 - from
  {
    if from > n then None
    else if at(from).Some? then at(from)
    else Find(n, from + 1, at)
  }

  /** A leftmost search that finds a match at `i` after failing everywhere before it returns that match. */
  lemma {:induction false} FindAt<R>(n: nat, from: nat, i: nat, at: nat -> Option<R>)
    requires from <= i <= n && at(i).Some?
    requires forall j :: from <= j < i ==> at(j).None?
    ensures Find(n, from, at) == at(i)
    decreases i - from
  {
    if from < i {
      FindAt(n, from + 1, i, at);
    }
  }

  /** A search that covers a position where the pattern matches finds some match. */
  lemma FindSome<R>(n: nat, from: nat, i: nat, at: nat -> Option<R>)
    requires from <= i <= n && at(i).Some?
    ensures Find(n, from, at).Some?
  {
  }

  lemma FindWitness<R>(n: nat, from: nat, at: nat -> Option<R>) returns (i: nat)
    requires Find(n, from, at).Some?
    ensures from <= i <= n && at(i) == Find(n, from, at)
  {
    i :| from <= i <= n && at(i) == Find(n, from, at) && forall j :: from <= j < i ==> at(j).None?;
  }

  // ------------------------------------------------ digit runs and occurrences

  /** `\d+` at position `k`: greedy, and never shortened here, since every pattern continues with `/` or ends. */
  function DigitsAt(s: string, k: nat): (r: Option<string>)
    requires k <= |s|
    ensures r.Some? ==> r.value != [] && AllDigits(r.value) && OccursAt(s, k, r.value)
                        && (k + |r.value| == |s| || !IsDigit(s[k + |r.value|]))
    ensures r.None? <==> k == |s| || !IsDigit(s[k])
  {
    var n := DigitRun(s, k);
    if n == 0 then None else Some(s[k..k + n])
  }

  lemma AllDigitsPrefix(d: string, m: nat)
    requires AllDigits(d) && m <= |d|
    ensures AllDigits(d[..m])
  {
    assert forall q :: 0 <= q < m ==> d[..m][q] == d[q];
  }

  /** `DigitRun` counts exactly the digits up to the first non-digit. */
  lemma {:induction false} DigitRunExact(s: string, i: nat, n: nat)
    requires i + n <= |s| && AllDigits(s[i..i + n])
    requires i + n == |s| || !IsDigit(s[i + n])
    ensures DigitRun(s, i) == n
    decreases n
  {
    if n > 0 {
      assert IsDigit(s[i..i + n][0]);
      assert s[i + 1..i + 1 + (n - 1)] == s[i..i + n][1..];
      DigitRunExact(s, i + 1, n - 1);
    }
  }

  /** A run of digits is read whole when the next character is not a digit or there is none. */
  lemma DigitsExact(s: string, k: nat, d: string)
    requires OccursAt(s, k, d) && d != [] && AllDigits(d)
    requires k + |d| == |s| || !IsDigit(s[k + |d|])
    ensures DigitsAt(s, k) == Some(d)
  {
    DigitRunExact(s, k, |d|);
  }

  /** The first part of a concatenation occurs at its start. */
  lemma OccursStart(x: string, y: string)
    ensures OccursAt(x + y, 0, x)
  {
    assert (x + y)[..|x|] == x;
  }

  /** The second part of a concatenation occurs where the first ends. */
  lemma OccursEnd(x: string, y: string)
    ensures OccursAt(x + y, |x|, y)
  {
    assert (x + y)[|x|..|x| + |y|] == y;
  }

  /** An occurrence moves right by the length of text put in front, and only then. */
  lemma OccursShift(a: string, t: string, j: nat, w: string)
    ensures OccursAt(a + t, |a| + j, w) <==> OccursAt(t, j, w)
  {
    if |a| + j + |w| <= |a + t| {
      assert (a + t)[|a| + j..|a| + j + |w|] == t[j..j + |w|];
    }
  }

  /** The first character of an occurrence. */
  lemma OccursHead(s: string, k: nat, w: string)
    requires OccursAt(s, k, w) && w != []
    ensures s[k] == w[0]
  {
    assert s[k..k + |w|][0] == s[k];
  }

  // ------------------------------------------------ the patterns

  /** The captures of the media pattern: `movie` or `tv`, and the id. */
  datatype MediaMatch = MediaMatch(kind: string, id: string)

  /** `themoviedb\.org\/(movie|tv)\/(\d+)` anchored at `i`. */
  function MediaAt(s: string, i: nat): (r: Option<MediaMatch>)
    ensures r.Some? ==> OccursAt(s, i, Host) && r.value.kind in {"movie", "tv"}
                        && OccursAt(s, i + |Host|, r.value.kind + "/")
                        && DigitsAt(s, i + |Host| + |r.value.kind| + 1) == Some(r.value.id)
  {
    if !OccursAt(s, i, Host) then None
    else
      var j := i + |Host|;
      var kind := if OccursAt(s, j, "movie/") then "movie" else "tv";
      if !OccursAt(s, j, kind + "/") then None
      else match DigitsAt(s, j + |kind| + 1)
        case None => None
        case Some(id) => Some(MediaMatch(kind, id))
  }

  function MatchMedia(s: string): Option<MediaMatch> {
    Find(|s|, 0, i => MediaAt(s, i))
  }

  /** The captures of the episode pattern. */
  datatype EpisodeMatch = EpisodeMatch(tvId: string, season: string, episode: string)

  /** The common prefix of the season and episode patterns: host, `tv/`, the show id, `/season/`; yields the id and where the season digits start. */
  function SeasonStart(s: string, i: nat): (r: Option<(string, nat)>)
    ensures r.Some? ==> r.value.1 <= |s| && OccursAt(s, i, Host) && OccursAt(s, i + |Host|, "tv/")
                        && DigitsAt(s, i + |Host| + 3) == Some(r.value.0)
  {
    if !OccursAt(s, i, Host) || !OccursAt(s, i + |Host|, "tv/") then None
    else
      var a := i + |Host| + 3;
      match DigitsAt(s, a)
      case None => None
      case Some(tv) =>
        var b := a + |tv|;
        if !OccursAt(s, b, "/season/") then None else Some((tv, b + 8))
  }

  /** `themoviedb\.org\/tv\/(\d+)\/season\/(\d+)\/episode\/(\d+)` anchored at `i`. */
  function EpisodeAt(s: string, i: nat): (r: Option<EpisodeMatch>)
    ensures r.Some? ==> SeasonStart(s, i).Some? && SeasonStart(s, i).value.0 == r.value.tvId
    ensures r.Some? ==> AllDigits(r.value.season) && AllDigits(r.value.episode)
  {
    match SeasonStart(s, i)
    case None => None
    case Some((tv, p)) => EpisodeAfter(s, tv, p)
  }

  /** The episode pattern past its season prefix: the season digits, `/episode/` and the episode digits from `p` on. */
  function EpisodeAfter(s: string, tv: string, p: nat): (r: Option<EpisodeMatch>)
    requires p <= |s|
    ensures r.Some? ==> r.value.tvId == tv && DigitsAt(s, p) == Some(r.value.season)
                        && OccursAt(s, p + |r.value.season|, "/episode/")
                        && AllDigits(r.value.season) && AllDigits(r.value.episode)
  {
    match DigitsAt(s, p)
    case None => None
    case Some(season) =>
      var c := p + |season|;
      if !OccursAt(s, c, "/episode/") then None
      else match DigitsAt(s, c + 9)
        case None => None
        case Some(episode) => Some(EpisodeMatch(tv, season, episode))
  }

  function MatchEpisode(s: string): Option<EpisodeMatch> {
    Find(|s|, 0, i => EpisodeAt(s, i))
  }

  /** The captures of the season pattern. */
  datatype SeasonMatch = SeasonMatch(tvId: string, season: string)

  /**
   * `themoviedb\.org\/tv\/(\d+)\/season\/(\d+)(?!\/episode)` anchored at `i`, as written:
   * when the full digit run is followed by `/episode` the engine backtracks
   * one digit, and a digit is never `/`, so a season of two or more digits
   * matches without its last digit.
   */
  function SeasonAtAsWritten(s: string, i: nat): (r: Option<SeasonMatch>)
    ensures r.Some? ==> SeasonStart(s, i).Some? && r.value.season != [] && AllDigits(r.value.season)
  {
    match SeasonStart(s, i)
    case None => None
    case Some((tv, p)) =>
      var k := DigitRun(s, p);
      if k == 0 then None
      else if !OccursAt(s, p + k, "/episode") then Some(SeasonMatch(tv, s[p..p + k]))
      else if k >= 2 then
        assert AllDigits(s[p..p + k - 1]) by {
          assert s[p..p + k - 1] == s[p..p + k][..k - 1];
          AllDigitsPrefix(s[p..p + k], k - 1);
        }
        Some(SeasonMatch(tv, s[p..p + k - 1]))
      else None
  }

  /** The season pattern as evidently intended: the whole season number, and no match on an episode path. */
  function SeasonAt(s: string, i: nat): (r: Option<SeasonMatch>)
    ensures r.Some? ==> SeasonStart(s, i).Some? && SeasonStart(s, i).value.0 == r.value.tvId
                        && DigitsAt(s, SeasonStart(s, i).value.1) == Some(r.value.season)
                        && !OccursAt(s, SeasonStart(s, i).value.1 + |r.value.season|, "/episode")
  {
    match SeasonStart(s, i)
    case None => None
    case Some((tv, p)) =>
      match DigitsAt(s, p)
      case None => None
      case Some(season) =>
        if OccursAt(s, p + |season|, "/episode") then None else Some(SeasonMatch(tv, season))
  }

  function MatchSeasonAsWritten(s: string): Option<SeasonMatch> {
    Find(|s|, 0, i => SeasonAtAsWritten(s, i))
  }

  function MatchSeason(s: string): Option<SeasonMatch> {
    Find(|s|, 0, i => SeasonAt(s, i))
  }

  // ------------------------------------------------ relations between the patterns

  /** Where the season prefix matches, the media pattern matches as `tv` with the same show id. */
  lemma SeasonStartIsTvMedia(s: string, i: nat)
    requires SeasonStart(s, i).Some?
    ensures MediaAt(s, i) == Some(MediaMatch("tv", SeasonStart(s, i).value.0))
  {
    OccursHead(s, i + |Host|, "tv/");
    if OccursAt(s, i + |Host|, "movie/") {
      OccursHead(s, i + |Host|, "movie/");
    }
  }

  /** Whenever the episode pattern matches, so does the media pattern: an episode link never hits the early return. */
  lemma EpisodeImpliesMedia(s: string)
    requires MatchEpisode(s).Some?
    ensures MatchMedia(s).Some?
  {
    var i := FindWitness(|s|, 0, i => EpisodeAt(s, i));
    SeasonStartIsTvMedia(s, i);
    FindSome(|s|, 0, i, i => MediaAt(s, i));
  }

  /** The corrected season pattern never matches where the as-written one does not, and then agrees with it. */
  lemma SeasonAtNarrowsAsWritten(s: string, i: nat)
    requires SeasonAt(s, i).Some?
    ensures SeasonAtAsWritten(s, i) == SeasonAt(s, i)
  {
    var p := SeasonStart(s, i).value.1;
    assert DigitsAt(s, p) == Some(s[p..p + DigitRun(s, p)]);
  }

  /** Every capture of the episode pattern is a run of digits, and the link names both path markers. */
  lemma MatchEpisodeFacts(s: string)
    ensures MatchEpisode(s).Some? ==> AllDigits(MatchEpisode(s).value.season) && AllDigits(MatchEpisode(s).value.episode)
    ensures MatchEpisode(s).Some? ==> Includes(s, "/season/") && Includes(s, "/episode/")
  {
    if MatchEpisode(s).Some? {
      var i := FindWitness(|s|, 0, i => EpisodeAt(s, i));
      assert EpisodeAt(s, i) == MatchEpisode(s);
      EpisodeAtMarkers(s, i);
    }
  }

  lemma EpisodeAtMarkers(s: string, i: nat)
    requires EpisodeAt(s, i).Some?
    ensures Includes(s, "/season/") && Includes(s, "/episode/")
  {
    var q := SeasonStart(s, i).value.1;
    var season := EpisodeAt(s, i).value.season;
    assert OccursAt(s, q - 8, "/season/");
    assert OccursAt(s, q + |season|, "/episode/");
  }

  /** Every season captured by the corrected season pattern is a run of digits, and the link names the season marker. */
  lemma MatchSeasonFacts(s: string)
    ensures MatchSeason(s).Some? ==> MatchSeason(s).value.season != [] && AllDigits(MatchSeason(s).value.season)
    ensures MatchSeason(s).Some? ==> Includes(s, "/season/")
  {
    if MatchSeason(s).Some? {
      var i := FindWitness(|s|, 0, i => SeasonAt(s, i));
      assert SeasonAt(s, i) == MatchSeason(s);
      SeasonAtMarker(s, i);
    }
  }

  lemma SeasonAtMarker(s: string, i: nat)
    requires SeasonAt(s, i).Some?
    ensures SeasonAt(s, i).value.season != [] && AllDigits(SeasonAt(s, i).value.season)
    ensures Includes(s, "/season/")
  {
    var q := SeasonStart(s, i).value.1;
    assert OccursAt(s, q - 8, "/season/");
  }

  // ------------------------------------------------ links that name the host once

  /** The host occurs in `s` at `p` and nowhere else. */
  predicate HostOnlyAt(s: string, p: nat) {
    forall i :: 0 <= i <= |s| && i != p ==> !OccursAt(s, i, Host)
  }

  /** In such a link every pattern that starts with the host can only match at `p`. */
  lemma OnlyAt<R>(s: string, p: nat, at: nat -> Option<R>)
    requires p <= |s| && HostOnlyAt(s, p)
    requires forall i: nat :: at(i).Some? ==> OccursAt(s, i, Host)
    ensures Find(|s|, 0, at) == at(p)
  {
    forall i: nat | i != p && i <= |s| ensures at(i).None? {
      assert !OccursAt(s, i, Host);
    }
    if at(p).Some? {
      FindAt(|s|, 0, p, at);
    }
  }

  lemma MediaOnlyAt(s: string, p: nat)
    requires p <= |s| && HostOnlyAt(s, p)
    ensures MatchMedia(s) == MediaAt(s, p)
  {
    OnlyAt(s, p, i => MediaAt(s, i));
  }

  lemma EpisodeOnlyAt(s: string, p: nat)
    requires p <= |s| && HostOnlyAt(s, p)
    ensures MatchEpisode(s) == EpisodeAt(s, p)
  {
    OnlyAt(s, p, i => EpisodeAt(s, i));
  }

  lemma SeasonOnlyAt(s: string, p: nat)
    requires p <= |s| && HostOnlyAt(s, p)
    ensures MatchSeason(s) == SeasonAt(s, p)
    ensures MatchSeasonAsWritten(s) == SeasonAtAsWritten(s, p)
  {
    OnlyAt(s, p, i => SeasonAt(s, i));
    OnlyAt(s, p, i => SeasonAtAsWritten(s, i));
  }

  /** The part of a link that names the show and the season. */
  predicate SeasonLinkAt(s: string, p: nat, tv: string, season: string) {
    && OccursAt(s, p, Host) && OccursAt(s, p + |Host|, "tv/")
    && DigitsAt(s, p + |Host| + 3) == Some(tv)
    && OccursAt(s, p + |Host| + 3 + |tv|, "/season/")
    && DigitsAt(s, p + |Host| + 3 + |tv| + 8) == Some(season)
  }

  /** Host, `tv/`, show id, `/season/` and season number following each other, the season number ending the link or followed by `/`. */
  lemma SeasonLinkOf(s: string, p: nat, tv: string, season: string)
    requires tv != [] && AllDigits(tv) && season != [] && AllDigits(season)
    requires OccursAt(s, p, Host) && OccursAt(s, p + |Host|, "tv/") && OccursAt(s, p + |Host| + 3, tv)
    requires OccursAt(s, p + |Host| + 3 + |tv|, "/season/")
    requires OccursAt(s, p + |Host| + 3 + |tv| + 8, season)
    requires var e := p + |Host| + 3 + |tv| + 8 + |season|; e == |s| || s[e] == '/'
    ensures SeasonLinkAt(s, p, tv, season)
  {
    OccursHead(s, p + |Host| + 3 + |tv|, "/season/");
    DigitsExact(s, p + |Host| + 3, tv);
    DigitsExact(s, p + |Host| + 3 + |tv| + 8, season);
  }

  /** The season prefix matches at `p` when host, `tv/`, show id and `/season/` follow each other there. */
  lemma SeasonStartOf(s: string, p: nat, tv: string, season: string)
    requires SeasonLinkAt(s, p, tv, season)
    ensures SeasonStart(s, p) == Some((tv, p + |Host| + 3 + |tv| + 8))
  {
  }

  /** The corrected season pattern at `i`, once its prefix and the season digits are known. */
  lemma SeasonAtOf(s: string, i: nat, tv: string, q: nat, season: string)
    requires SeasonStart(s, i) == Some((tv, q)) && DigitsAt(s, q) == Some(season)
    ensures SeasonAt(s, i) == if OccursAt(s, q + |season|, "/episode") then None else Some(SeasonMatch(tv, season))
  {
  }

  /** The episode pattern fails at `i` when `/episode/` does not follow the season digits. */
  lemma EpisodeAtNone(s: string, i: nat, tv: string, q: nat, season: string)
    requires SeasonStart(s, i) == Some((tv, q)) && DigitsAt(s, q) == Some(season)
    requires !OccursAt(s, q + |season|, "/episode/")
    ensures EpisodeAt(s, i).None?
  {
  }

  /** At its own position a page link matches the media pattern and has no season part. */
  lemma PageLinkAt(s: string, p: nat, kind: string, id: string)
    requires kind in {"movie", "tv"} && id != [] && AllDigits(id)
    requires OccursAt(s, p, Host) && OccursAt(s, p + |Host|, kind + "/")
    requires OccursAt(s, p + |Host| + |kind| + 1, id) && |s| == p + |Host| + |kind| + 1 + |id|
    ensures MediaAt(s, p) == Some(MediaMatch(kind, id))
    ensures SeasonStart(s, p).None?
  {
    var j := p + |Host|;
    DigitsExact(s, j + |kind| + 1, id);
    OccursHead(s, j, kind + "/");
    if OccursAt(s, j, "movie/") {
      OccursHead(s, j, "movie/");
    }
    if OccursAt(s, j, "tv/") {
      OccursHead(s, j, "tv/");
    }
  }

  /** A movie or show page link matches the media pattern and neither the season nor the episode pattern. */
  lemma PageLinkMatches(s: string, p: nat, kind: string, id: string)
    requires kind in {"movie", "tv"} && id != [] && AllDigits(id) && HostOnlyAt(s, p)
    requires OccursAt(s, p, Host) && OccursAt(s, p + |Host|, kind + "/")
    requires OccursAt(s, p + |Host| + |kind| + 1, id) && |s| == p + |Host| + |kind| + 1 + |id|
    ensures MatchMedia(s) == Some(MediaMatch(kind, id))
    ensures MatchEpisode(s).None? && MatchSeason(s).None? && MatchSeasonAsWritten(s).None?
  {
    PageLinkAt(s, p, kind, id);
    MediaOnlyAt(s, p);
    EpisodeOnlyAt(s, p);
    SeasonOnlyAt(s, p);
  }

  /** A season link matches the media pattern as its show and the season pattern as its season, and no episode. */
  lemma SeasonLinkMatches(s: string, p: nat, tv: string, season: string)
    requires SeasonLinkAt(s, p, tv, season) && HostOnlyAt(s, p)
    requires |s| == p + |Host| + 3 + |tv| + 8 + |season|
    ensures MatchMedia(s) == Some(MediaMatch("tv", tv))
    ensures MatchEpisode(s).None?
    ensures MatchSeason(s) == Some(SeasonMatch(tv, season))
  {
    SeasonLinkAtFacts(s, p, tv, season);
    MediaOnlyAt(s, p);
    EpisodeOnlyAt(s, p);
    SeasonOnlyAt(s, p);
  }

  /** At its own position a season link matches the media and season patterns and not the episode pattern. */
  lemma SeasonLinkAtFacts(s: string, p: nat, tv: string, season: string)
    requires SeasonLinkAt(s, p, tv, season)
    requires |s| == p + |Host| + 3 + |tv| + 8 + |season|
    ensures p <= |s| && MediaAt(s, p) == Some(MediaMatch("tv", tv))
    ensures EpisodeAt(s, p).None? && SeasonAt(s, p) == Some(SeasonMatch(tv, season))
  {
    var q := p + |Host| + 3 + |tv| + 8;
    SeasonStartOf(s, p, tv, season);
    SeasonStartIsTvMedia(s, p);
    assert DigitsAt(s, q) == Some(season);
    assert !OccursAt(s, q + |season|, "/episode") && !OccursAt(s, q + |season|, "/episode/");
    SeasonAtOf(s, p, tv, q, season);
    EpisodeAtNone(s, p, tv, q, season);
  }

  /** An occurrence of a word is an occurrence of each of its prefixes. */
  lemma OccursPrefix(s: string, k: nat, w: string, m: nat)
    requires OccursAt(s, k, w) && m <= |w|
    ensures OccursAt(s, k, w[..m])
  {
    assert s[k..k + m] == s[k..k + |w|][..m];
  }

  /** At its own position an episode link matches the episode pattern. */
  lemma EpisodeLinkAt(s: string, p: nat, tv: string, season: string, episode: string)
    requires SeasonLinkAt(s, p, tv, season) && episode != [] && AllDigits(episode)
    requires OccursAt(s, p + |Host| + 3 + |tv| + 8 + |season|, "/episode/")
    requires OccursAt(s, p + |Host| + 3 + |tv| + 8 + |season| + 9, episode)
    requires |s| == p + |Host| + 3 + |tv| + 8 + |season| + 9 + |episode|
    ensures EpisodeAt(s, p) == Some(EpisodeMatch(tv, season, episode))
  {
    var q := p + |Host| + 3 + |tv| + 8;
    EpisodeDigits(s, q + |season| + 9, episode);
    SeasonStartOf(s, p, tv, season);
    EpisodeAtOf(s, p, tv, q, season, episode);
  }

  /** An episode number that ends the link is read whole. */
  lemma EpisodeDigits(s: string, c: nat, episode: string)
    requires episode != [] && AllDigits(episode) && OccursAt(s, c, episode) && |s| == c + |episode|
    ensures DigitsAt(s, c) == Some(episode)
  {
    DigitsExact(s, c, episode);
  }

  /** The episode pattern at `i`, once its prefix and each of its runs of digits are known. */
  lemma EpisodeAtOf(s: string, i: nat, tv: string, q: nat, season: string, episode: string)
    requires SeasonStart(s, i) == Some((tv, q)) && DigitsAt(s, q) == Some(season)
    requires OccursAt(s, q + |season|, "/episode/") && DigitsAt(s, q + |season| + 9) == Some(episode)
    ensures EpisodeAt(s, i) == Some(EpisodeMatch(tv, season, episode))
  {
    EpisodeAfterOf(s, tv, q, season, episode);
  }

  lemma EpisodeAfterOf(s: string, tv: string, q: nat, season: string, episode: string)
    requires q <= |s| && DigitsAt(s, q) == Some(season)
    requires OccursAt(s, q + |season|, "/episode/") && DigitsAt(s, q + |season| + 9) == Some(episode)
    ensures EpisodeAfter(s, tv, q) == Some(EpisodeMatch(tv, season, episode))
  {
  }

  /** Nor does the corrected season pattern match where the season number is followed by `/episode`. */
  lemma SeasonAtBeforeEpisode(s: string, p: nat, tv: string, season: string)
    requires SeasonLinkAt(s, p, tv, season)
    requires OccursAt(s, p + |Host| + 3 + |tv| + 8 + |season|, "/episode")
    ensures SeasonAt(s, p).None?
  {
    var q := p + |Host| + 3 + |tv| + 8;
    SeasonStartOf(s, p, tv, season);
    assert DigitsAt(s, q) == Some(season);
    SeasonAtOf(s, p, tv, q, season);
  }

  /** The whole of `s` from `p` on is an episode link: the season part, `/episode/` and the episode number. */
  predicate EpisodeLinkShape(s: string, p: nat, tv: string, season: string, episode: string) {
    && SeasonLinkAt(s, p, tv, season) && episode != [] && AllDigits(episode)
    && OccursAt(s, p + |Host| + 3 + |tv| + 8 + |season|, "/episode/")
    && OccursAt(s, p + |Host| + 3 + |tv| + 8 + |season| + 9, episode)
    && |s| == p + |Host| + 3 + |tv| + 8 + |season| + 9 + |episode|
  }

  /** An episode link matches the media pattern as its show and the episode pattern as its parts; the corrected season pattern does not match it. */
  lemma EpisodeLinkMatches(s: string, p: nat, tv: string, season: string, episode: string)
    requires EpisodeLinkShape(s, p, tv, season, episode) && HostOnlyAt(s, p)
    ensures MatchMedia(s) == Some(MediaMatch("tv", tv))
    ensures MatchEpisode(s) == Some(EpisodeMatch(tv, season, episode))
    ensures MatchSeason(s).None?
  {
    var c := p + |Host| + 3 + |tv| + 8 + |season|;
    SeasonStartOf(s, p, tv, season);
    SeasonStartIsTvMedia(s, p);
    EpisodeLinkAt(s, p, tv, season, episode);
    OccursPrefix(s, c, "/episode/", 8);
    assert "/episode/"[..8] == "/episode";
    SeasonAtBeforeEpisode(s, p, tv, season);
    MediaOnlyAt(s, p);
    EpisodeOnlyAt(s, p);
    SeasonOnlyAt(s, p);
  }

  /** Season 12 followed by `/episode`: the as-written pattern reads season 1, the corrected one nothing. */
  lemma LookAheadLinkMatches(s: string, p: nat, tv: string)
    requires SeasonLinkAt(s, p, tv, "12") && HostOnlyAt(s, p)
    requires OccursAt(s, p + |Host| + 3 + |tv| + 8 + 2, "/episode")
    ensures MatchSeasonAsWritten(s) == Some(SeasonMatch(tv, "1"))
    ensures MatchSeason(s).None?
  {
    var q := p + |Host| + 3 + |tv| + 8;
    SeasonStartOf(s, p, tv, "12");
    assert DigitsAt(s, q) == Some("12");
    assert DigitRun(s, q) == 2;
    OccursHead(s, q, "12");
    assert s[q..q + 1] == [s[q]] == "1";
    SeasonAtAsWrittenBacktracks(s, p, tv, q);
    SeasonAtBeforeEpisode(s, p, tv, "12");
    SeasonOnlyAt(s, p);
  }

  /** The as-written season pattern at `i` when the season digits are two and `/episode` follows them: one digit is given back. */
  lemma SeasonAtAsWrittenBacktracks(s: string, i: nat, tv: string, q: nat)
    requires SeasonStart(s, i) == Some((tv, q)) && DigitRun(s, q) == 2 && OccursAt(s, q + 2, "/episode")
    ensures SeasonAtAsWritten(s, i) == Some(SeasonMatch(tv, s[q..q + 1]))
  {
  }

  // ------------------------------------------------ links built from their parts

  /** The path after the host of a movie or show page. */
  function PagePath(kind: string, id: string): string {
    (kind + "/") + id
  }

  /** A show path continuing with a season number and then `rest`. */
  function SeasonPathThen(tv: string, season: string, rest: string): string {
    "tv/" + (tv + ("/season/" + (season + rest)))
  }

  function SeasonPath(tv: string, season: string): string {
    SeasonPathThen(tv, season, [])
  }

  function EpisodePath(tv: string, season: string, episode: string): string {
    SeasonPathThen(tv, season, "/episode/" + episode)
  }

  /** A link: anything in front, then the host, then a path. */
  function Url(prefix: string, path: string): string {
    prefix + (Host + path)
  }

  /** What a path shows at some position, the link shows after its prefix and the host. */
  lemma UrlOccurs(prefix: string, path: string, j: nat, w: string)
    ensures OccursAt(Url(prefix, path), |prefix| + |Host| + j, w) <==> OccursAt(path, j, w)
  {
    OccursShift(Host, path, j, w);
    OccursShift(prefix, Host + path, |Host| + j, w);
  }

  /** The host of a link sits right after its prefix. */
  lemma UrlHost(prefix: string, path: string)
    ensures OccursAt(Url(prefix, path), |prefix|, Host)
  {
    OccursStart(Host, path);
    OccursShift(prefix, Host + path, 0, Host);
  }

  /** In `a + (b + (c + (d + t)))` each of the four pieces sits where the lengths before it put it. */
  lemma FourPieces(a: string, b: string, c: string, d: string, t: string)
    ensures OccursAt(a + (b + (c + (d + t))), 0, a)
    ensures OccursAt(a + (b + (c + (d + t))), |a|, b)
    ensures OccursAt(a + (b + (c + (d + t))), |a| + |b|, c)
    ensures OccursAt(a + (b + (c + (d + t))), |a| + |b| + |c|, d)
  {
    var x3 := d + t;
    var x2 := c + x3;
    var x1 := b + x2;
    OccursStart(a, x1);
    OccursStart(b, x2);
    OccursShift(a, x1, 0, b);
    OccursStart(c, x3);
    OccursShift(b, x2, 0, c);
    OccursShift(a, x1, |b|, c);
    OccursStart(d, t);
    OccursShift(c, x3, 0, d);
    OccursShift(b, x2, |c|, d);
    OccursShift(a, x1, |b| + |c|, d);
  }

  /** ... and what follows the four pieces is `t`. */
  lemma FourPiecesRest(a: string, b: string, c: string, d: string, t: string, j: nat, w: string)
    ensures OccursAt(a + (b + (c + (d + t))), |a| + |b| + |c| + |d| + j, w) <==> OccursAt(t, j, w)
  {
    var x3 := d + t;
    var x2 := c + x3;
    var x1 := b + x2;
    OccursShift(d, t, j, w);
    OccursShift(c, x3, |d| + j, w);
    OccursShift(b, x2, |c| + |d| + j, w);
    OccursShift(a, x1, |b| + |c| + |d| + j, w);
  }

  /** What follows the season number in a link to a season path is `rest`. */
  lemma SeasonUrlRest(prefix: string, tv: string, season: string, rest: string, j: nat, w: string)
    ensures var s := Url(prefix, SeasonPathThen(tv, season, rest));
            OccursAt(s, |prefix| + |Host| + 3 + |tv| + 8 + |season| + j, w) <==> OccursAt(rest, j, w)
  {
    FourPiecesRest("tv/", tv, "/season/", season, rest, j, w);
    UrlOccurs(prefix, SeasonPathThen(tv, season, rest), 3 + |tv| + 8 + |season| + j, w);
  }

  /** The pieces of a link to a season path, each right where the one before it ends. */
  lemma SeasonUrlPieces(prefix: string, tv: string, season: string, rest: string)
    ensures var s := Url(prefix, SeasonPathThen(tv, season, rest));
            var p := |prefix| + |Host|;
            && OccursAt(s, |prefix|, Host) && OccursAt(s, p, "tv/") && OccursAt(s, p + 3, tv)
            && OccursAt(s, p + 3 + |tv|, "/season/") && OccursAt(s, p + 3 + |tv| + 8, season)
  {
    var path := SeasonPathThen(tv, season, rest);
    FourPieces("tv/", tv, "/season/", season, rest);
    UrlHost(prefix, path);
    UrlOccurs(prefix, path, 0, "tv/");
    UrlOccurs(prefix, path, 3, tv);
    UrlOccurs(prefix, path, 3 + |tv|, "/season/");
    UrlOccurs(prefix, path, 3 + |tv| + 8, season);
  }

  /** A link to a season path has its season part right after the prefix. */
  lemma SeasonUrlFacts(prefix: string, tv: string, season: string, rest: string)
    requires tv != [] && AllDigits(tv) && season != [] && AllDigits(season)
    requires rest == [] || rest[0] == '/'
    ensures SeasonLinkAt(Url(prefix, SeasonPathThen(tv, season, rest)), |prefix|, tv, season)
  {
    SeasonUrlPieces(prefix, tv, season, rest);
    SeasonUrlEnd(prefix, tv, season, rest);
    SeasonLinkOf(Url(prefix, SeasonPathThen(tv, season, rest)), |prefix|, tv, season);
  }

  /** In a link to a season path the season number ends the link or is followed by `/`. */
  lemma SeasonUrlEnd(prefix: string, tv: string, season: string, rest: string)
    requires rest == [] || rest[0] == '/'
    ensures var s := Url(prefix, SeasonPathThen(tv, season, rest));
            var e := |prefix| + |Host| + 3 + |tv| + 8 + |season|;
            e == |s| || (e < |s| && s[e] == '/')
  {
    var s := Url(prefix, SeasonPathThen(tv, season, rest));
    var e := |prefix| + |Host| + 3 + |tv| + 8 + |season|;
    if rest != [] {
      assert OccursAt(rest, 0, rest);
      SeasonUrlRest(prefix, tv, season, rest, 0, rest);
      OccursHead(s, e, rest);
    }
  }

  lemma DigitsLackH(d: string)
    requires AllDigits(d)
    ensures 'h' !in d
  {
    forall q | 0 <= q < |d| ensures d[q] != 'h' {
      assert IsDigit(d[q]);
    }
  }

  /** A season path has no `h` when what follows the season number has none. */
  lemma SeasonPathLacksH(tv: string, season: string, rest: string)
    requires AllDigits(tv) && AllDigits(season) && 'h' !in rest
    ensures 'h' !in SeasonPathThen(tv, season, rest)
  {
    DigitsLackH(tv);
    DigitsLackH(season);
  }

  lemma EpisodePathLacksH(tv: string, season: string, episode: string)
    requires AllDigits(tv) && AllDigits(season) && AllDigits(episode)
    ensures 'h' !in EpisodePath(tv, season, episode)
  {
    DigitsLackH(episode);
    SeasonPathLacksH(tv, season, "/episode/" + episode);
  }

  /** The host does not start inside the prefix: the prefix does not name it, and the host's own `t` comes only first. */
  lemma HostNotInPrefix(prefix: string, path: string, i: nat)
    requires !Includes(prefix, Host) && i < |prefix|
    ensures !OccursAt(Url(prefix, path), i, Host)
  {
    var s := Url(prefix, path);
    var t := Host + path;
    if i + |Host| <= |prefix| {
      assert !OccursAt(prefix, i, Host);
      assert s[i..i + |Host|] == prefix[i..i + |Host|];
    } else if i + |Host| <= |s| {
      var k := |prefix| - i;
      assert s[i..i + |Host|][k] == t[0] == 't';
      assert 't' !in Host[1..];
      assert Host[k] == Host[1..][k - 1];
    }
  }

  /** Nor after the prefix: its second character `h` occurs in the host only second, and the path has none. */
  lemma HostNotAfterPrefix(prefix: string, path: string, i: nat)
    requires 'h' !in path && i > |prefix|
    ensures !OccursAt(Url(prefix, path), i, Host)
  {
    var s := Url(prefix, path);
    var t := Host + path;
    if i + |Host| <= |s| {
      var k := i + 1 - |prefix|;
      assert s[i..i + |Host|][1] == s[i + 1] == t[k];
      if k < |Host| {
        assert 'h' !in Host[2..];
        assert t[k] == Host[2..][k - 2];
      } else {
        assert t[k] == path[k - |Host|];
      }
    }
  }

  /** The host occurs in a link only where the prefix ends: the prefix does not name it and the path has no `h`. */
  lemma HostOnlyOnce(prefix: string, path: string)
    requires !Includes(prefix, Host) && 'h' !in path
    ensures HostOnlyAt(Url(prefix, path), |prefix|)
  {
    forall i | 0 <= i <= |Url(prefix, path)| && i != |prefix| ensures !OccursAt(Url(prefix, path), i, Host) {
      if i < |prefix| {
        HostNotInPrefix(prefix, path, i);
      } else {
        HostNotAfterPrefix(prefix, path, i);
      }
    }
  }

  // ------------------------------------------------ round trips

  /** A movie or show page link is read back as its kind and id, and matches neither season nor episode. */
  lemma PageUrlRoundTrip(prefix: string, kind: string, id: string)
    requires !Includes(prefix, Host)
    requires kind in {"movie", "tv"} && id != [] && AllDigits(id)
    ensures MatchMedia(Url(prefix, PagePath(kind, id))) == Some(MediaMatch(kind, id))
    ensures MatchEpisode(Url(prefix, PagePath(kind, id))).None?
    ensures MatchSeason(Url(prefix, PagePath(kind, id))).None?
    ensures MatchSeasonAsWritten(Url(prefix, PagePath(kind, id))).None?
  {
    var path := PagePath(kind, id);
    DigitsLackH(id);
    HostOnlyOnce(prefix, path);
    UrlHost(prefix, path);
    OccursStart(kind + "/", id);
    UrlOccurs(prefix, path, 0, kind + "/");
    OccursEnd(kind + "/", id);
    UrlOccurs(prefix, path, |kind| + 1, id);
    PageLinkMatches(Url(prefix, path), |prefix|, kind, id);
  }

  /** A season link is read back as its show and whole season number, and matches no episode. */
  lemma SeasonUrlRoundTrip(prefix: string, tv: string, season: string)
    requires !Includes(prefix, Host)
    requires tv != [] && AllDigits(tv) && season != [] && AllDigits(season)
    ensures MatchMedia(Url(prefix, SeasonPath(tv, season))) == Some(MediaMatch("tv", tv))
    ensures MatchEpisode(Url(prefix, SeasonPath(tv, season))).None?
    ensures MatchSeason(Url(prefix, SeasonPath(tv, season))) == Some(SeasonMatch(tv, season))
  {
    var path := SeasonPath(tv, season);
    SeasonPathLacksH(tv, season, []);
    HostOnlyOnce(prefix, path);
    SeasonUrlFacts(prefix, tv, season, []);
    SeasonLinkMatches(Url(prefix, path), |prefix|, tv, season);
  }

  /** A link to an episode path has its episode part after the season number. */
  lemma EpisodeUrlFacts(prefix: string, tv: string, season: string, episode: string)
    requires !Includes(prefix, Host)
    requires tv != [] && AllDigits(tv) && season != [] && AllDigits(season) && episode != [] && AllDigits(episode)
    ensures EpisodeLinkShape(Url(prefix, EpisodePath(tv, season, episode)), |prefix|, tv, season, episode)
    ensures HostOnlyAt(Url(prefix, EpisodePath(tv, season, episode)), |prefix|)
  {
    var rest := "/episode/" + episode;
    SeasonUrlFacts(prefix, tv, season, rest);
    EpisodeUrlPieces(prefix, tv, season, episode);
    EpisodePathLacksH(tv, season, episode);
    HostOnlyOnce(prefix, EpisodePath(tv, season, episode));
  }

  /** The two pieces after the season number of an episode link. */
  lemma EpisodeUrlPieces(prefix: string, tv: string, season: string, episode: string)
    ensures var s := Url(prefix, EpisodePath(tv, season, episode));
            var c := |prefix| + |Host| + 3 + |tv| + 8 + |season|;
            OccursAt(s, c, "/episode/") && OccursAt(s, c + 9, episode)
  {
    var rest := "/episode/" + episode;
    OccursStart("/episode/", episode);
    SeasonUrlRest(prefix, tv, season, rest, 0, "/episode/");
    OccursEnd("/episode/", episode);
    SeasonUrlRest(prefix, tv, season, rest, 9, episode);
  }

  /** An episode link is read back as its show, season and episode, and the corrected season pattern does not match it. */
  lemma EpisodeUrlRoundTrip(prefix: string, tv: string, season: string, episode: string)
    requires !Includes(prefix, Host)
    requires tv != [] && AllDigits(tv) && season != [] && AllDigits(season)
    requires episode != [] && AllDigits(episode)
    ensures MatchMedia(Url(prefix, EpisodePath(tv, season, episode))) == Some(MediaMatch("tv", tv))
    ensures MatchEpisode(Url(prefix, EpisodePath(tv, season, episode))) == Some(EpisodeMatch(tv, season, episode))
    ensures MatchSeason(Url(prefix, EpisodePath(tv, season, episode))).None?
  {
    EpisodeUrlFacts(prefix, tv, season, episode);
    EpisodeLinkMatches(Url(prefix, EpisodePath(tv, season, episode)), |prefix|, tv, season, episode);
  }

  /**
   * The as-written season pattern reads season 1 from a link to season 12
   * whose path continues with `/episode` without being an episode link;
   * the corrected pattern does not match that link at all.
   */
  lemma SeasonLookAheadTruncates(prefix: string, tv: string)
    requires !Includes(prefix, Host) && tv != [] && AllDigits(tv)
    ensures MatchSeasonAsWritten(Url(prefix, SeasonPathThen(tv, "12", "/episode"))) == Some(SeasonMatch(tv, "1"))
    ensures MatchSeason(Url(prefix, SeasonPathThen(tv, "12", "/episode"))).None?
  {
    var path := SeasonPathThen(tv, "12", "/episode");
    SeasonPathLacksH(tv, "12", "/episode");
    HostOnlyOnce(prefix, path);
    SeasonUrlFacts(prefix, tv, "12", "/episode");
    assert OccursAt("/episode", 0, "/episode");
    SeasonUrlRest(prefix, tv, "12", "/episode", 0, "/episode");
    LookAheadLinkMatches(Url(prefix, path), |prefix|, tv);
  }
}
