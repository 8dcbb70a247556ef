/**
 * What the ratings add-on does with the TMDb links on a detail page:
 * `processLink` reads a link as a movie, a show, a season or an episode and
 * decides whether a rating row has to be (re)built, and `scanLinks` hands
 * the page's fresh links to it in the order plain < season < episode, so
 * that the most specific link is processed last. That does not make its row
 * the one that stays: a show's row is stamped with the show's id, which the
 * season and episode links of the show share, so they are skipped
 * (ShowRowBlocksDetailRow).
 */
module RatingsLinks {
  import opened Common
  import opened Text
  import opened StableSort
  import opened TmdbUrl

  /** The `type` string of the add-on: `'movie'` or `'show'`. */
  datatype MediaType = Movie | Show

  /** The `episodeInfo` of a link: none, a season, or an episode, with the numbers read by `parseInt`. */
  datatype Detail = Whole | SeasonOf(tvId: string, season: nat) | EpisodeOf(tvId: string, season: nat, episode: nat)

  /** The `currentTmdbData` a link yields. */
  datatype Target = Target(kind: MediaType, tmdbId: string, detail: Detail)

  /**
   * `processLink`'s reading of an `href`: the episode pattern first, the
   * season pattern only when that fails, and nothing at all unless the media
   * pattern matches.
   */
  function ParseLink(href: string): (r: Option<Target>)
    ensures r.None? <==> MatchMedia(href).None?
    ensures r.Some? ==> r.value.tmdbId == MatchMedia(href).value.id
                        && (r.value.kind == Show <==> MatchMedia(href).value.kind == "tv")
    ensures r.Some? ==> (r.value.detail.EpisodeOf? <==> MatchEpisode(href).Some?)
    ensures r.Some? ==> (r.value.detail.SeasonOf? <==> MatchEpisode(href).None? && MatchSeason(href).Some?)
  {
    MatchEpisodeFacts(href);
    MatchSeasonFacts(href);
    var ep := MatchEpisode(href);
    var sn := if ep.Some? then None else MatchSeason(href);
    match MatchMedia(href)
    case None => None
    case Some(m) =>
      var detail :=
        if ep.Some? then EpisodeOf(ep.value.tvId, DecimalValue(ep.value.season), DecimalValue(ep.value.episode))
        else if sn.Some? then SeasonOf(sn.value.tvId, DecimalValue(sn.value.season))
        else Whole;
      Some(Target(if m.kind == "tv" then Show else Movie, m.id, detail))
  }

  /** An episode link is read as an episode, never as a season: the episode pattern takes precedence. */
  lemma EpisodeTakesPrecedence(href: string)
    requires MatchEpisode(href).Some?
    ensures ParseLink(href).Some? && ParseLink(href).value.detail.EpisodeOf?
  {
    EpisodeImpliesMedia(href);
  }

  /** A movie or show page link reads back as its type and id. */
  lemma ParsePageLink(prefix: string, kind: string, id: string)
    requires !Includes(prefix, Host)
    requires kind in {"movie", "tv"} && id != [] && AllDigits(id)
    ensures ParseLink(Url(prefix, PagePath(kind, id))) == Some(Target(if kind == "tv" then Show else Movie, id, Whole))
  {
    PageUrlRoundTrip(prefix, kind, id);
  }

  /** A season link reads back as its show and season number. */
  lemma ParseSeasonLink(prefix: string, tv: string, season: string)
    requires !Includes(prefix, Host)
    requires tv != [] && AllDigits(tv) && season != [] && AllDigits(season)
    ensures ParseLink(Url(prefix, SeasonPath(tv, season))) == Some(Target(Show, tv, SeasonOf(tv, DecimalValue(season))))
  {
    SeasonUrlRoundTrip(prefix, tv, season);
  }

  /** An episode link reads back as its show, season and episode numbers. */
  lemma ParseEpisodeLink(prefix: string, tv: string, season: string, episode: string)
    requires !Includes(prefix, Host)
    requires tv != [] && AllDigits(tv) && season != [] && AllDigits(season)
    requires episode != [] && AllDigits(episode)
    ensures ParseLink(Url(prefix, EpisodePath(tv, season, episode)))
            == Some(Target(Show, tv, EpisodeOf(tv, DecimalValue(season), DecimalValue(episode))))
  {
    EpisodeUrlRoundTrip(prefix, tv, season, episode);
  }

  // ------------------------------------------------ rebuilding the rating row

  /** The `tmdbId`/`type` stamped on an existing rating container, as far as `processLink` compares them. */
  datatype Stamp = Stamp(tmdbId: string, kind: MediaType)

  /** The ratings request `insertRatingRow` issues for a target. */
  datatype Request =
    | EpisodeRating(tvId: string, season: nat, episode: nat)
    | SeasonRating(tvId: string, season: nat)
    | MdbListRating(kind: MediaType, tmdbId: string)

  /** Only `fetchMDBList` stamps the container; season and episode rows stay unstamped. */
  function StampOf(t: Target): (r: Option<Stamp>)
    ensures r.Some? <==> t.detail.Whole?
    ensures r.Some? ==> r.value == Stamp(t.tmdbId, t.kind)
  {
    if t.detail.Whole? then Some(Stamp(t.tmdbId, t.kind)) else None
  }

  /** An episode asks TMDb for the episode, a season for the season, anything else asks MDBList for the item. */
  function RequestFor(t: Target): (r: Request)
    ensures r.MdbListRating? <==> t.detail.Whole?
    ensures r.MdbListRating? ==> r.kind == t.kind && r.tmdbId == t.tmdbId
    ensures t.detail.EpisodeOf? ==> r == EpisodeRating(t.detail.tvId, t.detail.season, t.detail.episode)
    ensures t.detail.SeasonOf? ==> r == SeasonRating(t.detail.tvId, t.detail.season)
  {
    match t.detail
    case EpisodeOf(tv, s, e) => EpisodeRating(tv, s, e)
    case SeasonOf(tv, s) => SeasonRating(tv, s)
    case Whole => MdbListRating(t.kind, t.tmdbId)
  }

  /** A `.mdblist-rating-row`: the stamp on its container, if `fetchMDBList` put one there. */
  datatype Row = Row(stamp: Option<Stamp>)

  /**
   * The page around a link: absent when `closest` finds no visible view;
   * otherwise its rating row, if any, and whether `findDetailAnchors` finds
   * the title's anchors in it.
   */
  datatype View = NoView | View(row: Option<Row>, anchors: bool)

  /** The view already shows a row stamped with the target's id and type: the early return of `processLink`. */
  predicate Stamped(view: View, t: Target) {
    view.View? && view.row == Some(Row(Some(Stamp(t.tmdbId, t.kind))))
  }

  /**
   * What processing one link leaves behind: the new `currentTmdbData`, the
   * target a rating row was built for, if any, and the view afterwards.
   */
  datatype Processed = Processed(current: Option<Target>, built: Option<Target>, view: View)

  /** The view after a row for `t` has been built in it. */
  function AfterBuild(t: Target): (r: View)
    ensures r.View? && r.anchors && r.row.Some?
    ensures r.row.value.stamp.Some? <==> t.detail.Whole?
  {
    View(Some(Row(StampOf(t))), true)
  }

  /**
   * `processLink` with `insertRatingRow`: an unreadable link changes nothing;
   * a readable one becomes the current item; without a view, or with a row
   * stamped for the same item, nothing else happens; otherwise the old row is
   * removed, and a new one is built only when the title's anchors are found.
   */
  function ProcessLink(href: string, current: Option<Target>, view: View): (r: Processed)
    ensures ParseLink(href).None? ==> r == Processed(current, None, view)
    ensures ParseLink(href).Some? ==> r.current == ParseLink(href)
    ensures r.built.Some? ==> r.built == ParseLink(href) && r.view == AfterBuild(r.built.value)
    ensures r.built.Some? <==> (ParseLink(href).Some? && view.View? && view.anchors
                                && !Stamped(view, ParseLink(href).value))
    ensures ParseLink(href).Some? && view.View? && !view.anchors && !Stamped(view, ParseLink(href).value) ==>
              r.view == View(None, false)
    ensures r.built.None? ==> r.view == view || r.view == View(None, false)
    ensures ParseLink(href).Some? && (view.NoView? || Stamped(view, ParseLink(href).value)) ==> r.view == view
  {
    match ParseLink(href)
    case None => Processed(current, None, view)
    case Some(t) =>
      if view.NoView? || Stamped(view, t) then Processed(Some(t), None, view)
      else if !view.anchors then Processed(Some(t), None, View(None, false))
      else Processed(Some(t), Some(t), AfterBuild(t))
  }

  /** Processing a movie or show link again on the page it already rated builds nothing new and keeps the row. */
  lemma WholeRowNotRebuilt(href: string, current: Option<Target>)
    requires ParseLink(href).Some? && ParseLink(href).value.detail.Whole?
    ensures ProcessLink(href, current, AfterBuild(ParseLink(href).value)).built.None?
    ensures ProcessLink(href, current, AfterBuild(ParseLink(href).value)).view == AfterBuild(ParseLink(href).value)
  {
  }

  /** A season or episode row carries no stamp, so the same link rebuilds it. */
  lemma DetailRowRebuilt(href: string, current: Option<Target>)
    requires ParseLink(href).Some? && !ParseLink(href).value.detail.Whole?
    ensures ProcessLink(href, current, AfterBuild(ParseLink(href).value)).built == ParseLink(href)
  {
  }

  /**
   * A row built for a show is stamped with the show's id, which every season
   * and episode link of that show also carries: once the show link has built
   * its row, a later season or episode link of the same show is skipped and
   * the show's row stays, although the scan hands that link over last.
   */
  lemma ShowRowBlocksDetailRow(showHref: string, detailHref: string, current: Option<Target>)
    requires ParseLink(showHref).Some? && ParseLink(showHref).value.detail.Whole?
    requires ParseLink(detailHref).Some?
    requires ParseLink(detailHref).value.tmdbId == ParseLink(showHref).value.tmdbId
    requires ParseLink(detailHref).value.kind == ParseLink(showHref).value.kind
    ensures var first := ProcessLink(showHref, current, View(None, true));
            var second := ProcessLink(detailHref, first.current, first.view);
            first.built == ParseLink(showHref) && second.built.None?
            && second.view == AfterBuild(ParseLink(showHref).value)
  {
  }

  /** In particular, on a page with both, a show's page link keeps the row from its episode's link. */
  lemma EpisodeRowBlockedByShowRow(prefix: string, tv: string, season: string, episode: string, current: Option<Target>)
    requires !Includes(prefix, Host)
    requires tv != [] && AllDigits(tv) && season != [] && AllDigits(season)
    requires episode != [] && AllDigits(episode)
    ensures var show := Url(prefix, PagePath("tv", tv));
            var first := ProcessLink(show, current, View(None, true));
            var second := ProcessLink(Url(prefix, EpisodePath(tv, season, episode)), first.current, first.view);
            first.built == Some(Target(Show, tv, Whole)) && second.built.None?
            && second.view == AfterBuild(Target(Show, tv, Whole))
  {
    ParsePageLink(prefix, "tv", tv);
    ParseEpisodeLink(prefix, tv, season, episode);
    ShowRowBlocksDetailRow(Url(prefix, PagePath("tv", tv)), Url(prefix, EpisodePath(tv, season, episode)), current);
  }

  // ------------------------------------------------ the order of the scan

  /** A TMDb anchor as `scanLinks` sees it. */
  datatype Anchor = Anchor(href: string, processed: bool, inEpisodeList: bool)

  /** The sort key of `scanLinks`: 2 for an `/episode/` link, 1 for a `/season/` link, else 0. */
  function Rank(href: string): (r: nat)
    ensures r == 2 <==> Includes(href, "/episode/")
    ensures r == 1 <==> !Includes(href, "/episode/") && Includes(href, "/season/")
    ensures r <= 2
  {
    if Includes(href, "/episode/") then 2 else if Includes(href, "/season/") then 1 else 0
  }

  function RankKey(a: Anchor): Key {
    Key(Rank(a.href), 0)
  }

  /** An anchor is handed to `processLink` when it is fresh and not inside an episode list. */
  predicate Fresh(a: Anchor) {
    !a.processed && !a.inEpisodeList
  }

  /** The fresh anchors in document order. */
  function Candidates(anchors: seq<Anchor>): (r: seq<Anchor>)
    ensures forall a :: a in r <==> a in anchors && Fresh(a)
    ensures |r| <= |anchors|
  {
    if anchors == [] then []
    else (if Fresh(anchors[0]) then [anchors[0]] else []) + Candidates(anchors[1..])
  }

  /** The order in which `scanLinks` processes the page's anchors. */
  function ScanOrder(anchors: seq<Anchor>): (r: seq<Anchor>)
    ensures multiset(r) == multiset(Candidates(anchors))
    ensures forall i, j :: 0 <= i < j < |r| ==> Rank(r[i].href) <= Rank(r[j].href)
    ensures forall k :: WithKey(r, RankKey, k) == WithKey(Candidates(anchors), RankKey, k)
  {
    var r := Sort(Candidates(anchors), RankKey);
    assert forall i, j :: 0 <= i < j < |r| ==> KeyLe(RankKey(r[i]), RankKey(r[j]));
    r
  }

  /** Episode links come after season links, which come after all other links. */
  lemma ScanOrderPutsDetailLast(anchors: seq<Anchor>, i: nat, j: nat)
    requires i < j < |ScanOrder(anchors)|
    requires Includes(ScanOrder(anchors)[i].href, "/episode/")
    ensures Includes(ScanOrder(anchors)[j].href, "/episode/")
  {
  }

  /** The last link processed has the highest rank among the fresh ones (whether it builds a row is ProcessLink's business). */
  lemma LastProcessedIsMostSpecific(anchors: seq<Anchor>, a: Anchor)
    requires a in anchors && Fresh(a)
    ensures ScanOrder(anchors) != []
    ensures Rank(a.href) <= Rank(ScanOrder(anchors)[|ScanOrder(anchors)| - 1].href)
  {
    var r := ScanOrder(anchors);
    var c := Candidates(anchors);
    assert a in c;
    assert a in multiset(c);
    assert a in multiset(r);
    LastRankIsHighest(r, a);
  }

  lemma LastRankIsHighest(r: seq<Anchor>, a: Anchor)
    requires a in r
    requires forall i, j :: 0 <= i < j < |r| ==> Rank(r[i].href) <= Rank(r[j].href)
    ensures Rank(a.href) <= Rank(r[|r| - 1].href)
  {
    var i :| 0 <= i < |r| && r[i] == a;
    if i < |r| - 1 {
      assert Rank(r[i].href) <= Rank(r[|r| - 1].href);
    }
  }

  /** A link read as an episode sorts last, one read as a season no earlier than a plain link. */
  lemma RankFollowsDetail(href: string)
    requires ParseLink(href).Some?
    ensures ParseLink(href).value.detail.EpisodeOf? ==> Rank(href) == 2
    ensures ParseLink(href).value.detail.SeasonOf? ==> Rank(href) >= 1
  {
    MatchEpisodeFacts(href);
    MatchSeasonFacts(href);
  }

  /** `scanLinks` marks every anchor it hands over as processed. */
  function MarkScanned(anchors: seq<Anchor>): (r: seq<Anchor>)
    ensures |r| == |anchors|
    ensures forall i :: 0 <= i < |r| ==> r[i] == if Fresh(anchors[i]) then anchors[i].(processed := true) else anchors[i]
  {
    seq(|anchors|, i requires 0 <= i < |anchors| => if Fresh(anchors[i]) then anchors[i].(processed := true) else anchors[i])
  }

  /** A second scan of the same anchors finds nothing left to process. */
  lemma RescanFindsNothing(anchors: seq<Anchor>)
    ensures Candidates(MarkScanned(anchors)) == []
  {
    NoneFresh(MarkScanned(anchors));
  }

  lemma NoneFresh(anchors: seq<Anchor>)
    requires forall i :: 0 <= i < |anchors| ==> !Fresh(anchors[i])
    ensures Candidates(anchors) == []
  {
  }
}
