/**
 * The badge classification inside `fetchMDBList`: each MDBList rating with a
 * value becomes a logo badge whose key is chosen by score thresholds (rotten,
 * certified fresh, verified hot, must-see), and the badge list that is cached
 * is the list that is rendered.
 */
module RatingsBadges {
  import opened Common
  import opened Text

  /** One element of the MDBList `ratings` array; `None` stands for `null` or a missing field. */
  datatype Rating = Rating(source: string, value: Option<real>, votes: Option<real>)

  /** A rendered and cached badge: logo key, alt text (the source name) and score. */
  datatype Badge = Badge(logoKey: string, alt: string, value: real)

  /** The keys of the `LOGO` table; a badge is only drawn for one of these. */
  const LogoKeys: set<string> := {
    "imdb", "tmdb", "tomatoes", "tomatoes_rotten", "tomatoes_certified", "audience",
    "audience_rotten", "rotten_ver", "metacritic", "metacriticms", "metacriticus", "trakt",
    "letterboxd", "myanimelist", "anilist", "kinopoisk", "rogerebert", "allocine_critics",
    "allocine_audience"
  }

  /** TMDb ids forced to the certified-fresh badge (the shipped list is empty). */
  const CertifiedFreshOverrides: seq<string> := []

  /** TMDb ids forced to the verified-hot audience badge. */
  const VerifiedHotOverrides: seq<string> := [
    "812583", "1272837", "1054867", "1088166", "1007734", "1078605", "1100988", "1022787",
    "575265", "574475", "1197306", "784524", "1084199", "1280672", "1082195", "845781",
    "1064213", "1034541", "1112426", "1079091", "956842", "823464", "768362", "614939",
    "335787", "576845", "568124", "340558", "1259102"
  ]

  /** `x >= t` where `null`/`undefined` compare as 0 or NaN; every threshold here is positive. */
  predicate AtLeast(x: Option<real>, t: real)
    requires t > 0.0
  {
    x.Some? && x.value >= t
  }

  /** `x > t`, with the same reading of a missing value. */
  predicate Above(x: Option<real>, t: real)
    requires t > 0.0
  {
    x.Some? && x.value > t
  }

  // ------------------------------------------------ first pass: the deciding scores

  /** The family a rating belongs to in the first pass, on `source.toLowerCase()`. */
  datatype Family = MetacriticFamily | TomatoesFamily | AudienceFamily | OtherFamily

  function FamilyOf(source: string): Family {
    var key := Lower(source);
    if key == "metacritic" then MetacriticFamily
    else if key == "tomatoes" then TomatoesFamily
    else if Includes(key, "popcorn") || Includes(key, "audience") then AudienceFamily
    else OtherFamily
  }

  predicate Counts(r: Rating, f: Family) {
    r.value.Some? && FamilyOf(r.source) == f
  }

  /** The last rating with a value in family `f`: the first pass overwrites its score on every match. */
  function LastOf(ratings: seq<Rating>, f: Family): (r: Option<Rating>)
    ensures r.None? <==> forall i :: 0 <= i < |ratings| ==> !Counts(ratings[i], f)
    ensures r.Some? ==> exists i :: 0 <= i < |ratings| && ratings[i] == r.value && Counts(r.value, f)
                                    && forall j :: i < j < |ratings| ==> !Counts(ratings[j], f)
  {
    if ratings == [] then None
    else
      var n := |ratings| - 1;
      if Counts(ratings[n], f) then Some(ratings[n])
      else
        var r := LastOf(ratings[..n], f);
        LastOfSkipsLast(ratings, f, r);
        r
  }

  /** When the last rating does not count, the last counting one of the rest is the last counting one of all. */
  lemma LastOfSkipsLast(ratings: seq<Rating>, f: Family, r: Option<Rating>)
    requires ratings != [] && !Counts(ratings[|ratings| - 1], f)
    requires var front := ratings[..|ratings| - 1];
             && (r.None? <==> forall i :: 0 <= i < |front| ==> !Counts(front[i], f))
             && (r.Some? ==> exists i :: 0 <= i < |front| && front[i] == r.value && Counts(r.value, f)
                                         && forall j :: i < j < |front| ==> !Counts(front[j], f))
    ensures r.None? <==> forall i :: 0 <= i < |ratings| ==> !Counts(ratings[i], f)
    ensures r.Some? ==> exists i :: 0 <= i < |ratings| && ratings[i] == r.value && Counts(r.value, f)
                                    && forall j :: i < j < |ratings| ==> !Counts(ratings[j], f)
  {
    var front := ratings[..|ratings| - 1];
    if r.None? {
      forall i | 0 <= i < |ratings| ensures !Counts(ratings[i], f) {
        if i < |front| { assert front[i] == ratings[i]; }
      }
    } else {
      var i :| 0 <= i < |front| && front[i] == r.value && Counts(r.value, f)
               && forall j :: i < j < |front| ==> !Counts(front[j], f);
      assert ratings[i] == front[i];
      forall j | i < j < |ratings| ensures !Counts(ratings[j], f) {
        if j < |front| { assert front[j] == ratings[j]; }
      }
    }
  }

  /** The score and vote count a family's threshold rule is decided on. */
  datatype Deciding = Deciding(score: Option<real>, votes: Option<real>)

  function DecidingOf(ratings: seq<Rating>, f: Family): Deciding {
    match LastOf(ratings, f)
    case None => Deciding(None, None)
    case Some(r) => Deciding(r.value, r.votes)
  }

  /** What the first pass collects, plus the two override flags for the item. */
  datatype Context = Context(metacritic: Deciding, tomatoes: Deciding, audience: Deciding,
                             certifiedOverride: bool, verifiedHotOverride: bool)

  function ContextOf(ratings: seq<Rating>, tmdbId: string): Context {
    Context(DecidingOf(ratings, MetacriticFamily), DecidingOf(ratings, TomatoesFamily),
            DecidingOf(ratings, AudienceFamily),
            tmdbId in CertifiedFreshOverrides, tmdbId in VerifiedHotOverrides)
  }

  // ------------------------------------------------ second pass: the badge key

  /** `source.toLowerCase().replace(/\s+/g, '_')`. */
  function SourceKey(source: string): string {
    UnderscoreSpaces(Lower(source))
  }

  predicate CertifiedFresh(c: Context) {
    c.certifiedOverride || (AtLeast(c.tomatoes.score, 75.0) && AtLeast(c.tomatoes.votes, 80.0))
  }

  predicate VerifiedHot(c: Context) {
    c.verifiedHotOverride || (AtLeast(c.audience.score, 90.0) && AtLeast(c.audience.votes, 500.0))
  }

  predicate MustSee(c: Context) {
    Above(c.metacritic.score, 81.0) && Above(c.metacritic.votes, 14.0)
  }

  predicate IsAudienceKey(key: string) {
    Includes(key, "popcorn") || Includes(key, "audience")
  }

  /** The logo key chosen for a rating with value `v`. */
  function BadgeKey(source: string, v: real, c: Context): string {
    var key := SourceKey(source);
    if key == "tomatoes" then
      if v < 60.0 then "tomatoes_rotten"
      else if CertifiedFresh(c) then "tomatoes_certified"
      else "tomatoes"
    else if IsAudienceKey(key) then
      if v < 60.0 then "audience_rotten"
      else if VerifiedHot(c) then "rotten_ver"
      else "audience"
    else if key == "metacritic" then
      if MustSee(c) then "metacriticms" else "metacritic"
    else if Includes(key, "metacritic") && Includes(key, "user") then "metacriticus"
    else if Includes(key, "trakt") then "trakt"
    else if Includes(key, "letterboxd") then "letterboxd"
    else if Includes(key, "roger") || Includes(key, "ebert") then "rogerebert"
    else if Includes(key, "myanimelist") then "myanimelist"
    else key
  }

  /** The badges drawn for `ratings`, in order: ratings without a value or without a logo are skipped. */
  function Badges(ratings: seq<Rating>, c: Context): (r: seq<Badge>)
    ensures |r| <= |ratings|
    ensures forall b :: b in r ==> b.logoKey in LogoKeys
    ensures forall b :: b in r ==> exists x :: x in ratings && x.value == Some(b.value) && x.source == b.alt
  {
    if ratings == [] then []
    else
      var x := ratings[0];
      var rest := Badges(ratings[1..], c);
      if x.value.None? then rest
      else
        var key := BadgeKey(x.source, x.value.value, c);
        if key !in LogoKeys then rest else [Badge(key, x.source, x.value.value)] + rest
  }

  /** The badge list `fetchMDBList` renders and caches for an item. */
  function ClassifyRatings(ratings: seq<Rating>, tmdbId: string): seq<Badge> {
    Badges(ratings, ContextOf(ratings, tmdbId))
  }

  /** Badge lists concatenate: the badges keep the order of their ratings. */
  lemma {:induction false} BadgesAppend(a: seq<Rating>, b: seq<Rating>, c: Context)
    ensures Badges(a + b, c) == Badges(a, c) + Badges(b, c)
  {
    if a == [] {
      assert a + b == b;
    } else {
      assert (a + b)[0] == a[0];
      assert (a + b)[1..] == a[1..] + b;
      BadgesAppend(a[1..], b, c);
    }
  }

  /** A rating whose value is `null` contributes no badge. */
  lemma NullRatingSkipped(r: Rating, c: Context)
    requires r.value.None?
    ensures Badges([r], c) == []
  {
  }

  /** A rating with a value contributes its badge exactly when the chosen key has a logo. */
  lemma RatedBadge(r: Rating, c: Context)
    requires r.value.Some?
    ensures Badges([r], c) == if BadgeKey(r.source, r.value.value, c) in LogoKeys
                              then [Badge(BadgeKey(r.source, r.value.value, c), r.source, r.value.value)]
                              else []
  {
    assert [r][1..] == [];
  }

  // ------------------------------------------------ threshold rules

  /** Tomatometer: rotten below 60; otherwise certified fresh by override or 75 % with 80 reviews. */
  lemma TomatoesThresholds(source: string, v: real, c: Context)
    requires SourceKey(source) == "tomatoes"
    ensures BadgeKey(source, v, c) == "tomatoes_rotten" <==> v < 60.0
    ensures BadgeKey(source, v, c) == "tomatoes_certified" <==>
              v >= 60.0 && (c.certifiedOverride || (c.tomatoes.score.Some? && c.tomatoes.score.value >= 75.0
                                                    && c.tomatoes.votes.Some? && c.tomatoes.votes.value >= 80.0))
    ensures BadgeKey(source, v, c) in {"tomatoes_rotten", "tomatoes_certified", "tomatoes"}
  {
  }

  /** Audience score: rotten below 60; otherwise verified hot by override or 90 % with 500 votes. */
  lemma AudienceThresholds(source: string, v: real, c: Context)
    requires SourceKey(source) != "tomatoes"
    requires Includes(SourceKey(source), "audience") || Includes(SourceKey(source), "popcorn")
    ensures BadgeKey(source, v, c) == "audience_rotten" <==> v < 60.0
    ensures BadgeKey(source, v, c) == "rotten_ver" <==>
              v >= 60.0 && (c.verifiedHotOverride || (c.audience.score.Some? && c.audience.score.value >= 90.0
                                                      && c.audience.votes.Some? && c.audience.votes.value >= 500.0))
    ensures BadgeKey(source, v, c) in {"audience_rotten", "rotten_ver", "audience"}
  {
  }

  /** Metacritic: the must-see badge iff the deciding score is above 81 with more than 14 reviews. */
  lemma MetacriticMustSee(source: string, v: real, c: Context)
    requires SourceKey(source) == "metacritic"
    ensures BadgeKey(source, v, c) == "metacriticms" <==>
              c.metacritic.score.Some? && c.metacritic.score.value > 81.0
              && c.metacritic.votes.Some? && c.metacritic.votes.value > 14.0
    ensures BadgeKey(source, v, c) in {"metacriticms", "metacritic"}
  {
    NotIncludes("metacritic", "popcorn", 0);
    NotIncludes("metacritic", "audience", 1);
  }

  /** The first pass keeps the score of the last rated entry of a family: a later entry overrides earlier ones. */
  lemma LastRatingDecides(ratings: seq<Rating>, r: Rating, f: Family)
    requires Counts(r, f)
    ensures DecidingOf(ratings + [r], f) == Deciding(r.value, r.votes)
  {
    assert (ratings + [r])[|ratings|] == r;
  }

  /** Entries outside a family, or without a value, do not change its deciding score. */
  lemma OtherRatingIgnored(ratings: seq<Rating>, r: Rating, f: Family)
    requires !Counts(r, f)
    ensures DecidingOf(ratings + [r], f) == DecidingOf(ratings, f)
  {
    assert (ratings + [r])[..|ratings|] == ratings;
  }

  // ------------------------------------------------ cache and render agree

  /** `renderCachedRatings`: every cached badge is drawn if its logo key has a logo, in cache order. */
  function RenderCached(badges: seq<Badge>): (r: seq<Badge>)
    ensures |r| <= |badges|
    ensures forall b :: b in r <==> b in badges && b.logoKey in LogoKeys
    ensures (forall i :: 0 <= i < |badges| ==> badges[i].logoKey in LogoKeys) ==> r == badges
  {
    if badges == [] then []
    else (if badges[0].logoKey in LogoKeys then [badges[0]] else []) + RenderCached(badges[1..])
  }

  /** Rendering from the cache draws exactly the badges the fresh fetch drew, in the same order. */
  lemma {:induction false} CachedRenderMatchesFresh(ratings: seq<Rating>, c: Context)
    ensures RenderCached(Badges(ratings, c)) == Badges(ratings, c)
  {
    if ratings != [] {
      CachedRenderMatchesFresh(ratings[1..], c);
      var rest := Badges(ratings[1..], c);
      var b := Badges(ratings, c);
      if b != rest {
        assert b == [b[0]] + rest;
        assert b[1..] == rest;
      }
    }
  }
}
