/**
 * One run of the Arr add-on's `processItemPage` on an Emby detail page:
 * the re-entry guard, the choice of the visible view, the skip when the
 * item's section is already shown, the Radarr or Sonarr button, and the
 * section `createArrSection` puts after the links. The page is a list of
 * detail views; what Emby and the Arr services answer, and the views as
 * they stand after those answers arrive, are parameters of the run.
 */
module ArrsPage {
  import opened Common
  import opened Text
  import opened ArrsUrl
  import opened ArrsLookup

  /** A child of the button container: a link button or the `", "` text between two. */
  datatype Node = Button(caption: string, url: string) | Separator

  /** A `.view-item-item` element: hidden or not, whether it has a `.linksSection`, and the button rows of its `.arrSection`s. */
  datatype View = View(hidden: bool, hasLinks: bool, sections: seq<seq<Node>>)

  /** `getVisibleDetailView`: the first view without the `hide` class. */
  function VisibleView(views: seq<View>): Option<nat> {
    FirstShown(Hidden(views))
  }

  /** Which views carry the `hide` class. */
  function Hidden(views: seq<View>): seq<bool> {
    seq(|views|, i requires 0 <= i < |views| => views[i].hidden)
  }

  /** The buttons with `", "` between each two: the children of the button container. */
  function ArrSection(buttons: seq<Node>): (r: seq<Node>)
    requires buttons != []
    ensures |r| == 2 * |buttons| - 1
  {
    if |buttons| == 1 then [buttons[0]] else [buttons[0], Separator] + ArrSection(buttons[1..])
  }

  /** The buttons of a row, separators dropped. */
  function ButtonsOf(row: seq<Node>): (r: seq<Node>)
    ensures forall n :: n in r ==> n.Button?
  {
    if row == [] then []
    else (if row[0].Button? then [row[0]] else []) + ButtonsOf(row[1..])
  }

  /** Laid out: buttons at the even places, a separator at each odd place. */
  lemma {:induction false} ArrSectionLayout(buttons: seq<Node>)
    requires buttons != []
    ensures forall i :: 0 <= i < |buttons| ==> ArrSection(buttons)[2 * i] == buttons[i]
    ensures forall i :: 0 <= i < |buttons| - 1 ==> ArrSection(buttons)[2 * i + 1] == Separator
  {
    if |buttons| > 1 {
      ArrSectionLayout(buttons[1..]);
      var r := ArrSection(buttons);
      forall i | 1 <= i < |buttons| ensures r[2 * i] == buttons[i] {
        assert r[2 * i] == ArrSection(buttons[1..])[2 * (i - 1)];
      }
      forall i | 1 <= i < |buttons| - 1 ensures r[2 * i + 1] == Separator {
        assert r[2 * i + 1] == ArrSection(buttons[1..])[2 * (i - 1) + 1];
      }
    }
  }

  /** Dropping the separators from a section gives back the buttons it was made of. */
  lemma {:induction false} ArrSectionButtons(buttons: seq<Node>)
    requires buttons != [] && forall n :: n in buttons ==> n.Button?
    ensures ButtonsOf(ArrSection(buttons)) == buttons
  {
    if |buttons| > 1 {
      var rest := ArrSection(buttons[1..]);
      ArrSectionButtons(buttons[1..]);
      assert ([buttons[0], Separator] + rest)[1..] == [Separator] + rest;
      assert ([Separator] + rest)[1..] == rest;
      assert buttons == [buttons[0]] + buttons[1..];
    } else {
      assert ArrSection(buttons)[1..] == [];
    }
  }

  /** `removeExistingSection(view)`. */
  function ClearSections(views: seq<View>, v: nat): (r: seq<View>)
    requires v < |views|
    ensures |r| == |views| && r[v].sections == [] && VisibleView(r) == VisibleView(views)
    ensures forall j :: 0 <= j < |views| && j != v ==> r[j] == views[j]
  {
    var r := views[v := views[v].(sections := [])];
    assert forall j :: 0 <= j < |views| ==> r[j].hidden == views[j].hidden;
    VisibleViewByHidden(views, r);
    r
  }

  lemma VisibleViewByHidden(a: seq<View>, b: seq<View>)
    requires |a| == |b| && forall j :: 0 <= j < |a| ==> a[j].hidden == b[j].hidden
    ensures VisibleView(a) == VisibleView(b)
  {
    assert Hidden(a) == Hidden(b);
  }

  /** `createArrSection`: without buttons or without a links section the view stays as it is; otherwise its one section holds the buttons. */
  function CreateArrSection(buttons: seq<Node>, view: View): (r: View)
    ensures r.hidden == view.hidden && r.hasLinks == view.hasLinks
    ensures buttons == [] || !view.hasLinks ==> r == view
    ensures buttons != [] && view.hasLinks ==> r.sections == [ArrSection(buttons)]
  {
    if buttons == [] || !view.hasLinks then view else view.(sections := [ArrSection(buttons)])
  }

  // ------------------------------------------------ the run

  const RadarrApiKey: string := "YOUR_API_KEY"
  const SonarrApiKey: string := "YOUR_API_KEY"

  /** A key counts as configured when it is set and not the German placeholder. */
  predicate Configured(key: string, placeholder: string) {
    key != [] && key != placeholder
  }

  /** The add-on's own state between runs. */
  datatype ArrState = ArrState(processing: bool, currentItemId: Option<string>,
                               radarrCache: map<string, Lookup>, sonarrCache: map<Option<string>, Lookup>)

  predicate CachesOk(s: ArrState) {
    RadarrCacheOk(s.radarrCache) && SonarrCacheOk(s.sonarrCache)
  }

  /**
   * The world one run sees: the location's search, hash and full address,
   * the item Emby returns (`None` when it could not be fetched), Radarr's
   * and Sonarr's replies, and the views as they stand once the answers are in:
   * after this run's `removeExistingSection` and whatever else changed the
   * page during the `await`s.
   */
  datatype World = World(search: string, hash: string, href: string, item: Option<Item>,
                         radarr: RadarrReply, sonarr: SonarrReply, later: seq<View>)

  /** Where a run stopped. */
  datatype Exit =
    | Busy | NoId | NoView | NoLinks | AlreadyShown
    | NoItem | Unsupported | NoButton | ViewGone | Done(buttons: seq<Node>)

  datatype Run = Run(state: ArrState, views: seq<View>, exit: Exit)

  /** The buttons for an item and the caches after the lookup they needed. */
  function ItemButtons(s: ArrState, item: Item, w: World): (r: (seq<Node>, ArrState))
    requires CachesOk(s) && item.kind in {"Movie", "Series"}
    ensures CachesOk(r.1) && r.1.processing == s.processing && r.1.currentItemId == s.currentItemId
    ensures |r.0| <= 1 && forall n :: n in r.0 ==> n.Button?
    ensures item.kind == "Movie" ==>
              (r.0 != [] <==> Configured(RadarrApiKey, "DEIN_RADARR_API_KEY") && TmdbId(item).Some?)
    ensures item.kind == "Movie" && r.0 != [] ==>
              r.0 == [Button("Radarr", RadarrUrl(LookupRadarr(s.radarrCache, TmdbId(item).value, w.radarr).0))]
    ensures item.kind == "Series" ==> (r.0 != [] <==> Configured(SonarrApiKey, "DEIN_SONARR_API_KEY"))
    ensures item.kind == "Series" && r.0 != [] ==>
              r.0 == [Button("Sonarr", SonarrUrl(LookupSonarr(s.sonarrCache, TvdbId(item), item.name, w.sonarr).0))]
  {
    if item.kind == "Movie" then
      if Configured(RadarrApiKey, "DEIN_RADARR_API_KEY") && TmdbId(item).Some? then
        var (res, cache) := LookupRadarr(s.radarrCache, TmdbId(item).value, w.radarr);
        ([Button("Radarr", RadarrUrl(res))], s.(radarrCache := cache))
      else ([], s)
    else
      if Configured(SonarrApiKey, "DEIN_SONARR_API_KEY") then
        var (res, cache) := LookupSonarr(s.sonarrCache, TvdbId(item), item.name, w.sonarr);
        ([Button("Sonarr", SonarrUrl(res))], s.(sonarrCache := cache))
      else ([], s)
  }

  /** The section is already shown for this item: the skip test. */
  predicate Shown(s: ArrState, id: Option<string>, view: View) {
    s.currentItemId == id && view.sections != []
  }

  /** `processItemPage`, from the guard to the `finally` that clears the flag. */
  function ProcessItemPage(s: ArrState, views: seq<View>, w: World): (r: Run)
    requires CachesOk(s)
    ensures CachesOk(r.state)
    ensures r.exit == Busy <==> s.processing
    ensures r.exit == Busy ==> r.state == s && r.views == views
    ensures !s.processing ==> !r.state.processing
    ensures r.exit in {NoId, NoView, NoLinks, AlreadyShown} ==> r.state == s && r.views == views
    ensures r.exit == NoId <==> !s.processing && !Truthy(ItemIdFromUrl(w.search, w.hash, w.href))
    ensures r.exit == AlreadyShown <==>
              !s.processing && Truthy(ItemIdFromUrl(w.search, w.hash, w.href)) && VisibleView(views).Some?
              && views[VisibleView(views).value].hasLinks
              && Shown(s, ItemIdFromUrl(w.search, w.hash, w.href), views[VisibleView(views).value])
    ensures r.exit !in {Busy, NoId, NoView, NoLinks, AlreadyShown} ==>
              r.state.currentItemId == ItemIdFromUrl(w.search, w.hash, w.href)
    ensures r.exit.Done? ==>
              |r.exit.buttons| == 1 && VisibleView(w.later).Some?
              && var v := VisibleView(w.later).value;
                 r.views == w.later[v := CreateArrSection(r.exit.buttons, w.later[v])]
  {
    if s.processing then Run(s, views, Busy)
    else
      var id := ItemIdFromUrl(w.search, w.hash, w.href);
      if !Truthy(id) then Run(s, views, NoId)
      else match VisibleView(views)
        case None => Run(s, views, NoView)
        case Some(v) =>
          if !views[v].hasLinks then Run(s, views, NoLinks)
          else if Shown(s, id, views[v]) then Run(s, views, AlreadyShown)
          else
            var s1 := s.(currentItemId := id);
            // `removeExistingSection` (ClearSections) runs here, before the first `await`;
            // every exit below sees the page only as `w.later`, after the awaits.
            match w.item
            case None => Run(s1, w.later, NoItem)
            case Some(item) =>
              if item.kind !in {"Movie", "Series"} then Run(s1, w.later, Unsupported)
              else
                var (buttons, s2) := ItemButtons(s1, item, w);
                if buttons == [] then Run(s2, w.later, NoButton)
                else match VisibleView(w.later)
                  case None => Run(s2, w.later, ViewGone)
                  case Some(u) => Run(s2, w.later[u := CreateArrSection(buttons, w.later[u])], Done(buttons))
  }

  /** The address poll: a changed address forgets which item was shown. */
  function OnUrlChange(s: ArrState): (r: ArrState)
    ensures r.currentItemId.None? && r.processing == s.processing
    ensures r.radarrCache == s.radarrCache && r.sonarrCache == s.sonarrCache
  {
    s.(currentItemId := None)
  }

  /**
   * A second run on the same address and the same page, once a run has put
   * the section in while nothing else touched the page, stops at the skip
   * test and changes nothing.
   */
  lemma SecondRunSkips(s: ArrState, views: seq<View>, w: World, w2: World)
    requires CachesOk(s) && !s.processing
    requires VisibleView(views).Some? && w.later == ClearSections(views, VisibleView(views).value)
    requires ProcessItemPage(s, views, w).exit.Done?
    requires (w2.search, w2.hash, w2.href) == (w.search, w.hash, w.href)
    ensures var r := ProcessItemPage(s, views, w);
            ProcessItemPage(r.state, r.views, w2) == Run(r.state, r.views, AlreadyShown)
  {
    var r := ProcessItemPage(s, views, w);
    var v := VisibleView(views).value;
    VisibleViewByHidden(w.later, r.views);
  }

  /** After the address changes, the next run is never skipped as already shown. */
  lemma UrlChangeReprocesses(s: ArrState, views: seq<View>, w: World)
    requires CachesOk(s)
    ensures ProcessItemPage(OnUrlChange(s), views, w).exit != AlreadyShown
  {
  }

  /** A run that puts a Radarr button in links to the movie page exactly when Radarr's library has the movie under a slug. */
  lemma MovieButtonTarget(s: ArrState, views: seq<View>, w: World)
    requires CachesOk(s) && ProcessItemPage(s, views, w).exit.Done?
    requires w.item.Some? && w.item.value.kind == "Movie"
    requires TmdbId(w.item.value).Some? && TmdbId(w.item.value).value !in s.radarrCache
    ensures var bs := ProcessItemPage(s, views, w).exit.buttons;
            var res := RadarrAnswer(TmdbId(w.item.value).value, w.radarr);
            |bs| == 1 && bs[0].Button? && bs[0].caption == "Radarr"
            && RadarrTarget(bs[0].url) == if res.found && Truthy(res.slug) then Some(TitlePage(res.slug.value))
                                          else Some(AddByTmdb(TmdbId(w.item.value).value))
  {
    DoneButtons(s, views, w);
    var item := w.item.value;
    var s1 := s.(currentItemId := ItemIdFromUrl(w.search, w.hash, w.href));
    var res := LookupRadarr(s1.radarrCache, TmdbId(item).value, w.radarr).0;
    assert res == RadarrAnswer(TmdbId(item).value, w.radarr);
    assert ItemButtons(s1, item, w).0 == [Button("Radarr", RadarrUrl(res))];
    RadarrUrlRoundTrip(res);
  }

  /** A run that ends with buttons took them from `ItemButtons` for the item Emby returned, after recording the item's id. */
  lemma DoneButtons(s: ArrState, views: seq<View>, w: World)
    requires CachesOk(s) && ProcessItemPage(s, views, w).exit.Done?
    ensures w.item.Some? && w.item.value.kind in {"Movie", "Series"}
    ensures ProcessItemPage(s, views, w).exit.buttons
            == ItemButtons(s.(currentItemId := ItemIdFromUrl(w.search, w.hash, w.href)), w.item.value, w).0
  {
  }
}
