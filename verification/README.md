# Emby add-ons: a Dafny model of their page logic

Five independent browser add-ons for the Emby web client. Each one wraps a small
piece of sequential decision logic in DOM and network plumbing. This project models
that logic as pure Dafny functions over strings, sequences and maps, and proves what
the code promises about it.

- **Ratings** (`emby-ratings.js`):
  - `RatingsCache`, a time-to-live store kept in `localStorage`. It has lazy expiry,
    a regular cleanup, and a forced eviction of the oldest half when the quota is
    exceeded.
  - The badge-key classification of MDBList ratings (rotten, certified fresh,
    verified hot, must-see).
  - Reading TMDb links as a movie, a show, a season or an episode.
  - The scan order of those links.
  - Hiding and restoring Emby's own star widgets.
- **Elsewhere** (`emby-elsewhere.js`):
  - Merging a region's streaming providers by id, with their categories and best
    priority, and sorting them.
  - The availability test and the title text.
  - The German list of region names ("A, B und C").
  - Finding the TMDb item on a page.
  - Choosing where the panel goes.
  - The autocomplete of the settings dialog.
- **Arrs** (`emby-arrs.js`):
  - Reading the item id from the address.
  - Choosing TMDb and TVDB ids.
  - Building the Radarr and Sonarr links.
  - The lookup caches.
  - `processItemPage`, with its re-entrancy guard and its "already shown" skip.
  - Laying out the button section.
- **Link logos** (`emby-linklogos.js`):
  - The readiness test.
  - Replacing external links by logos in declaration order.
  - The comma clean-up.
  - The bounded retry chain and its debounce.
  - The mutation-observer filter.
- **Media ratings** (`emby-media-ratings.js`):
  - The rating-to-colour-group table built from ordered groups, where later groups win.
  - The per-colour style rules.
  - The marking pass over rating elements.

Time (`Date.now()`), `localStorage`, the answers of Emby, Radarr, Sonarr and MDBList,
and the state of the page are all parameters. The add-ons' timers are modelled as
small state machines. Shared modules:

- `Common` holds options and sequence facts.
- `Text` holds JavaScript's `trim`, `includes`, `join` and a one-character
  `split`, and a case mapping that covers the ASCII letters only, where
  `toLowerCase` and `toUpperCase` cover all of Unicode.
- `StableSort` holds the stable sort `Array.prototype.sort` performs.
- `TmdbUrl` holds the three TMDb regular expressions, as leftmost anchored
  matches.

Four details of the code decide behaviour that a reader might expect otherwise:

- The expiry test in `RatingsCache.get` (emby-ratings.js line 69) is a strict `>`,
  so an entry aged exactly the time-to-live is still served.
- The forced cleanup (emby-ratings.js line 135) deletes `Math.max(1, Math.floor(n / 2))`
  entries, which is half rounded down, and never zero.
- `getAvailabilityText` (emby-elsewhere.js lines 562-581) does not consult the
  `ads` category, while `hasAnyServices` does (see Findings).
- Once `fetchMDBList` has stamped a show's row with the show's id
  (emby-ratings.js lines 560-561), the stamp test of `processLink` (lines 419-426)
  skips every season or episode link of the same show. So the scan order that
  puts episode links last does not let their row replace the show's row.

## Model

| member | source | states |
|---|---|---|
| RatingsCache.Get | Addons/emby-ratings.js:60-79 | the payload is returned exactly when an entry exists with a truthy timestamp and data and is at most the time-to-live old; an older entry is deleted and nothing else changes |
| RatingsCache.Cleanup | Addons/emby-ratings.js:143-158 | regular cleanup deletes exactly the cache entries that are expired, lack a timestamp or do not parse; every other key keeps its value |
| RatingsCache.CleanupInvisibleToGet | Addons/emby-ratings.js:60-79 | a regular cleanup never changes what `get` answers at the same instant |
| RatingsCache.CleanupIdempotent | Addons/emby-ratings.js:143-158 | a second regular cleanup at the same instant deletes nothing more |
| RatingsCache.PrefixedKeys | Addons/emby-ratings.js:115-121 | the collected keys are exactly the enumerated keys with the cache prefix, without repeats |
| RatingsCache.OldestFirstFacts | Addons/emby-ratings.js:125-133 | the age order lists every cache key once, sorted by stored timestamp, with an unparsable entry counting as 0 |
| RatingsCache.EvictedAreOldest | Addons/emby-ratings.js:133-138 | a key deleted from the front of the age order is no younger than any key kept |
| RatingsCache.ForcedCleanup | Addons/emby-ratings.js:123-140 | with at least one cache entry, forced cleanup deletes exactly `max(1, floor(n/2))` cache entries, none younger than one it keeps, and no key outside the cache |
| RatingsCache.ForcedCleanupAsWritten | Addons/emby-ratings.js:135-137 | forced cleanup throws exactly when there is no cache entry, and otherwise is the cleanup above |
| RatingsCache.EvictOldest | Addons/emby-ratings.js:123-140 | quota recovery as intended: deletes nothing without cache entries and the oldest `max(1, floor(n/2))` otherwise |
| RatingsCache.Set | Addons/emby-ratings.js:86-108 | a first write that succeeds stores `{timestamp: now, data}` under the prefixed key; any other failure than the quota leaves the store as it was; a quota failure leaves exactly the store `EvictOldest` makes, plus the entry stamped with the second clock reading when the retry succeeds; keys outside the cache are untouched |
| RatingsCache.SetAsWritten | Addons/emby-ratings.js:93-106 | `set` escapes with an exception exactly when the first write hits the quota and no cache entry exists; otherwise it agrees with `Set` |
| RatingsCache.SetAsWrittenThrowsWithoutEntries | Addons/emby-ratings.js:96-99 | a store holding only a foreign key makes a quota failure throw out of `set` |
| RatingsCache.GetAfterSet | Addons/emby-ratings.js:60-108 | after a successful write, `get` at the instant the entry was stamped returns the payload (for a non-zero clock) |
| RatingsCache.GetAfterSetLater | Addons/emby-ratings.js:69 | a written entry is returned up to and including the time-to-live, and not one millisecond later |
| RatingsBadges.LastOf | Addons/emby-ratings.js:620-635 | the first pass keeps the last rated entry of each family; none exactly when the family has no rated entry |
| RatingsBadges.LastRatingDecides | Addons/emby-ratings.js:620-635 | a later rated entry of a family overrides the scores of earlier ones |
| RatingsBadges.OtherRatingIgnored | Addons/emby-ratings.js:620-635 | entries of another family, or without a value, leave a family's deciding score unchanged |
| RatingsBadges.TomatoesThresholds | Addons/emby-ratings.js:643-651 | Tomatometer: rotten exactly below 60; otherwise certified fresh exactly by override or score ≥ 75 with ≥ 80 reviews; else plain |
| RatingsBadges.AudienceThresholds | Addons/emby-ratings.js:652-660 | audience score: rotten exactly below 60; otherwise verified hot exactly by override or score ≥ 90 with ≥ 500 votes; else plain |
| RatingsBadges.MetacriticMustSee | Addons/emby-ratings.js:661-664 | Metacritic: must-see exactly when the deciding score is above 81 with more than 14 reviews |
| RatingsBadges.Badges | Addons/emby-ratings.js:638-685 | every badge comes from a rated entry, keeps its source as alt text and its value, and has a logo key |
| RatingsBadges.BadgesAppend | Addons/emby-ratings.js:638-685 | badges come out in the order of their ratings |
| RatingsBadges.NullRatingSkipped | Addons/emby-ratings.js:639 | a rating whose value is `null` yields no badge |
| RatingsBadges.RatedBadge | Addons/emby-ratings.js:671-683 | a rated entry yields its badge exactly when its chosen key has a logo |
| RatingsBadges.RenderCached | Addons/emby-ratings.js:443-470 | the badges drawn are exactly the cached badges whose logo key has a logo; when every key has one, all are drawn in cache order |
| RatingsBadges.CachedRenderMatchesFresh | Addons/emby-ratings.js:465-470 | drawing from the cache gives exactly the badges the fresh fetch drew, in the same order |
| TmdbUrl.Find | Addons/emby-ratings.js:391-393 | a regular-expression search reports the leftmost position where the pattern matches, and nothing exactly when no position matches |
| TmdbUrl.MatchEpisodeFacts | Addons/emby-ratings.js:391 | each capture of the episode pattern is a run of digits, and the link names both `/season/` and `/episode/` |
| TmdbUrl.MatchSeasonFacts | Addons/emby-ratings.js:392 | the season captured by the corrected season pattern is a non-empty run of digits in a link naming `/season/` |
| TmdbUrl.EpisodeImpliesMedia | Addons/emby-ratings.js:391-395 | whenever the episode pattern matches, so does the media pattern, so an episode link never takes the early return |
| TmdbUrl.SeasonAtNarrowsAsWritten | Addons/emby-ratings.js:392 | where the corrected season pattern matches, the as-written one matches with the same captures |
| TmdbUrl.PageUrlRoundTrip | Addons/emby-ratings.js:393 | a movie or show page link is read back as its kind and id, and matches no season or episode pattern |
| TmdbUrl.SeasonUrlRoundTrip | Addons/emby-ratings.js:392-393 | a season link is read back as its show and its whole season number, and matches no episode |
| TmdbUrl.EpisodeUrlRoundTrip | Addons/emby-ratings.js:391-393 | an episode link is read back as its show, season and episode, and the corrected season pattern does not match it |
| TmdbUrl.SeasonLookAheadTruncates | Addons/emby-ratings.js:392 | the as-written season pattern reads season 1 from a season-12 link continuing with `/episode`; the corrected one does not match |
| RatingsLinks.ParseLink | Addons/emby-ratings.js:391-409 | nothing exactly when the media pattern fails; otherwise its id, an episode exactly when the episode pattern matches, a season exactly when only the season pattern does |
| RatingsLinks.EpisodeTakesPrecedence | Addons/emby-ratings.js:391-409 | an episode link is read as an episode, never as a season |
| RatingsLinks.ParsePageLink | Addons/emby-ratings.js:393-398 | a page link reads back with `tv` mapped to a show and `movie` to a movie, with its id |
| RatingsLinks.ParseSeasonLink | Addons/emby-ratings.js:392-409 | a season link reads back as its show and its season number |
| RatingsLinks.ParseEpisodeLink | Addons/emby-ratings.js:391-404 | an episode link reads back as its show, season and episode numbers |
| RatingsLinks.StampOf | Addons/emby-ratings.js:559-561 | only a whole-item row is stamped with its id and type |
| RatingsLinks.RequestFor | Addons/emby-ratings.js:341-351 | an episode asks for the episode rating, a season for the season rating, anything else asks MDBList for the item |
| RatingsLinks.ProcessLink | Addons/emby-ratings.js:310-437 | an unreadable link changes nothing; a readable one becomes the current item; a row is built exactly when a page view exists, its row is not stamped with the same id and type, and the title anchors are found; with the anchors missing the old row is removed and none is built; without a view, or with a row already stamped for the item, the view is unchanged |
| RatingsLinks.WholeRowNotRebuilt | Addons/emby-ratings.js:419-427 | processing a movie or show link again on the page it rated builds nothing |
| RatingsLinks.DetailRowRebuilt | Addons/emby-ratings.js:419-429 | a season or episode row carries no stamp, so the same link rebuilds it |
| RatingsLinks.ShowRowBlocksDetailRow | Addons/emby-ratings.js:390-437 | once a show link has built its stamped row, a season or episode link of the same show builds nothing and the show's row stays |
| RatingsLinks.EpisodeRowBlockedByShowRow | Addons/emby-ratings.js:390-437 | for every show, season and episode number, the show's page link processed first keeps the episode's link from building its row |
| RatingsLinks.Rank | Addons/emby-ratings.js:380 | rank 2 exactly for `/episode/` links, 1 exactly for other `/season/` links, else 0 |
| RatingsLinks.Candidates | Addons/emby-ratings.js:373-378 | the candidates are exactly the anchors not yet processed and outside the episode list |
| RatingsLinks.ScanOrder | Addons/emby-ratings.js:373-382 | the scan order is a permutation of the candidates, sorted by rank, with equal ranks in document order |
| RatingsLinks.ScanOrderPutsDetailLast | Addons/emby-ratings.js:379-382 | every link after an episode link is an episode link too |
| RatingsLinks.LastProcessedIsMostSpecific | Addons/emby-ratings.js:379-387 | the last link processed has the highest rank among the candidates |
| RatingsLinks.RankFollowsDetail | Addons/emby-ratings.js:380-409 | a link read as an episode has rank 2, one read as a season at least 1 |
| RatingsLinks.MarkScanned | Addons/emby-ratings.js:384-385 | exactly the candidates are marked processed; every other anchor is unchanged |
| RatingsLinks.RescanFindsNothing | Addons/emby-ratings.js:375-385 | a second scan of the same anchors finds nothing to process |
| RatingsStars.SetProp | Addons/emby-ratings.js:270-276 | setting a style property to a value makes it read back as that value, the empty string removes it, and every other property is unchanged |
| RatingsStars.SetPropIdempotent | Addons/emby-ratings.js:270 | setting the same property to the same value twice is setting it once |
| RatingsStars.Hide | Addons/emby-ratings.js:266-270 | hiding sets `display: none`, keeps every other property, and saves the original style only if none is saved yet |
| RatingsStars.Unhide | Addons/emby-ratings.js:271-277 | unhiding restores the saved style and drops the copy; without a copy it clears `display` |
| RatingsStars.HideThenUnhide | Addons/emby-ratings.js:260-280 | hiding and then unhiding a widget with nothing saved gives it back unchanged |
| RatingsStars.HideIdempotent | Addons/emby-ratings.js:266-270 | hiding twice is hiding once: the first original stays the saved one |
| RatingsStars.SetStarsHidden | Addons/emby-ratings.js:260-280 | a missing bar is left alone; each widget a present bar has is hidden (`Hide`) or restored (`Unhide`) as asked, and no widget appears or disappears |
| RatingsStars.BarHideThenUnhide | Addons/emby-ratings.js:260-280 | a bar with nothing saved comes back unchanged from hiding then unhiding |
| RatingsStars.BarHideIdempotent | Addons/emby-ratings.js:431-434 | hiding an already hidden bar changes nothing, so the two callers may both hide it |
| StableSort.Sort | Addons/emby-elsewhere.js:538-543 | the result is sorted, is a permutation of the input, and keeps elements with equal keys in input order |
| ElsewhereProviders.Entries | Addons/emby-elsewhere.js:508-512 | the visited (category, provider) pairs are exactly the providers listed under included categories, in config order |
| ElsewhereProviders.Merge | Addons/emby-elsewhere.js:512-528 | the map never holds more providers than were visited |
| ElsewhereProviders.MergeSummarises | Addons/emby-elsewhere.js:512-528 | after the loops each id met occurs once, with exactly the categories that listed it, and the best priority among them |
| ElsewhereProviders.MergeFirstSeen | Addons/emby-elsewhere.js:522-533 | providers come out in the order their ids were first met, each with the fields of that first object |
| ElsewhereProviders.MergeCategoriesOrdered | Addons/emby-elsewhere.js:508-518 | each provider's categories are in config order |
| ElsewhereProviders.AllProviders | Addons/emby-elsewhere.js:494-546 | the result is the merged list sorted by priority then display priority, with missing as 999, and ties in first-seen order |
| ElsewhereProviders.ProvidersUnique | Addons/emby-elsewhere.js:513-528 | each provider id occurs at most once in the result |
| ElsewhereProviders.ProvidersComplete | Addons/emby-elsewhere.js:508-528 | every provider listed under an included category is in the result |
| ElsewhereProviders.ProviderCategories | Addons/emby-elsewhere.js:499-530 | a provider's categories are exactly the included categories listing it, once each and in config order, and its priority is their minimum |
| ElsewhereProviders.TiesInFirstSeenOrder | Addons/emby-elsewhere.js:538-543 | among providers with the same sort key, whichever the loops met first comes first |
| ElsewhereProviders.ListsIff | Addons/emby-elsewhere.js:508-512 | a provider is visited under a category exactly when that category is included and lists it |
| ElsewhereText.HasAnyServices | Addons/emby-elsewhere.js:549-559 | false for absent data; otherwise true exactly when some included category lists a provider |
| ElsewhereText.ServicesIffProviders | Addons/emby-elsewhere.js:494-559 | a region has services exactly when the merged provider list is non-empty |
| ElsewhereText.Title | Addons/emby-elsewhere.js:562-581 | every title names the region |
| ElsewhereText.AvailabilityAsWritten | Addons/emby-elsewhere.js:562-581 | absent data gives "not available"; flatrate or free gives "also on"; then rent and buy, rent, buy; else "not on streaming services", whatever `ads` holds |
| ElsewhereText.AdsOnlyTitleContradicts | Addons/emby-elsewhere.js:549-581 | a region listing only ad-supported providers has services, yet is titled as having none |
| ElsewhereText.Availability | Addons/emby-elsewhere.js:562-581 | the same precedence with ads counted next to flatrate and free |
| ElsewhereText.TitleAgreesWithServices | Addons/emby-elsewhere.js:549-581 | with the correction, the title says "not on streaming services" exactly when present data has no services |
| ElsewhereText.CorrectionOnlyForAds | Addons/emby-elsewhere.js:562-581 | the corrected and as-written titles differ exactly for regions whose only streaming offers are ad-supported |
| ElsewhereText.RegionName | Addons/emby-elsewhere.js:1008 | the display name when the table has a non-empty one for the code, otherwise the code itself |
| ElsewhereText.RegionList | Addons/emby-elsewhere.js:1009-1011 | one name is shown alone |
| ElsewhereText.RegionListUniform | Addons/emby-elsewhere.js:1009-1011 | for two or more names: all but the last joined by ", ", then " und " and the last |
| ElsewhereText.RegionListSnoc | Addons/emby-elsewhere.js:1009-1011 | adding a name to a list of two or more turns the old " und " into a comma |
| ElsewherePage.FirstTmdbAnchor | Addons/emby-elsewhere.js:1197 | the first anchor mentioning the TMDb domain, and none exactly when no anchor does |
| ElsewherePage.FirstOf | Addons/emby-elsewhere.js:1194-1214 | the answer of the first element that yields one, and none exactly when none does |
| ElsewherePage.TmdbInfo | Addons/emby-elsewhere.js:1191-1217 | the first section yielding a match wins; only when none does is the whole page searched |
| ElsewherePage.TmdbInfoSound | Addons/emby-elsewhere.js:1191-1217 | a reported item is read off one of the page's anchors, as `movie` or `tv` with a numeric id |
| ElsewherePage.TmdbInfoComplete | Addons/emby-elsewhere.js:1207-1214 | if any anchor of the page carries a movie or show link, an item is found |
| ElsewherePage.SectionTriesFirstAnchorOnly | Addons/emby-elsewhere.js:1197-1202 | a section is judged by its first TMDb anchor alone |
| ElsewherePage.InsertionPoint | Addons/emby-elsewhere.js:1220-1246 | the most preferred usable landmark (people before, directors after, overview after, detail text append) with its placement; none exactly when no landmark is usable |
| ElsewherePage.InsertionPointMonotone | Addons/emby-elsewhere.js:1220-1246 | making another landmark usable never moves the panel to a less preferred place |
| ElsewhereSelect.Matching | Addons/emby-elsewhere.js:295-297 | the offered options are exactly those containing the query ignoring case that are not selected yet |
| ElsewhereSelect.MatchingIgnoresCase | Addons/emby-elsewhere.js:289-296 | the filter does not depend on the case of the query |
| ElsewhereSelect.OnInput | Addons/emby-elsewhere.js:288-299 | an empty box closes the dropdown; otherwise it shows the matches with nothing highlighted |
| ElsewhereSelect.Select | Addons/emby-elsewhere.js:277-286 | the option is added exactly when absent, and the dropdown closes with no highlight |
| ElsewhereSelect.OnKey | Addons/emby-elsewhere.js:301-325 | ArrowDown moves to `min(i+1, n-1)`, ArrowUp to `max(i-1, -1)`, Enter selects only a highlighted option, Escape closes; a closed dropdown ignores keys |
| ElsewhereSelect.Hover | Addons/emby-elsewhere.js:245-249 | hovering highlights that option |
| ElsewhereSelect.Click | Addons/emby-elsewhere.js:255 | a click adds the clicked option |
| ElsewhereSelect.Remove | Addons/emby-elsewhere.js:215-220 | removing takes out exactly that value, shrinking the selection by one if present and changing nothing otherwise |
| ElsewhereSelect.ArrowDownClamps | Addons/emby-elsewhere.js:306-307 | arrowing down n times from no highlight stops at the last shown option |
| ElsewhereSelect.UpThenDown | Addons/emby-elsewhere.js:306-312 | up then down returns to the same highlighted option |
| ElsewhereSelect.SelectIdempotent | Addons/emby-elsewhere.js:278-280 | selecting twice is selecting once |
| ElsewhereSelect.EnterAddsNewValue | Addons/emby-elsewhere.js:316-318 | Enter on a highlighted option adds one value that was not selected before |
| ElsewhereSelect.SelectThenRemove | Addons/emby-elsewhere.js:215-220 | removing a value just selected restores the selection |
| ArrsUrl.SegmentValue | Addons/emby-arrs.js:41-47 | the value of the first non-empty segment with that name; none exactly when no segment has it |
| ArrsUrl.QueryRoundTrip | Addons/emby-arrs.js:41-47 | reading a query written from plain pairs gives the first value of the name asked for |
| ArrsUrl.ItemIdFromUrl | Addons/emby-arrs.js:40-55 | the search query's `id` if non-empty, else the hash query's, else the first `[?&]id=digits` of the address; a truthy result comes from one of the three |
| ArrsUrl.HashRouteId | Addons/emby-arrs.js:43-48 | an address whose hash carries the route's query yields that query's `id` |
| ArrsUrl.HrefIdRoundTrip | Addons/emby-arrs.js:50-53 | the address fallback finds the whole digit run after the first `?id=` |
| ArrsUrl.HrefIdDigits | Addons/emby-arrs.js:51-52 | the address fallback only returns a non-empty run of digits |
| ArrsUrl.ProviderId | Addons/emby-arrs.js:185-195 | over the raw `ProviderIds` map: the capitalised key's value exactly when it is present and non-empty, the lower-case key's when the capitalised one is absent or empty and it is present and non-empty, and none exactly when neither is |
| ArrsUrl.EmptyIdFallsThrough | Addons/emby-arrs.js:185-195 | for either provider, an absent or empty capitalised id never hides a non-empty lower-case one |
| ArrsUrl.RadarrUrlRoundTrip | Addons/emby-arrs.js:197-202 | the movie page exactly for a found result with a slug; every other result adds by TMDb id |
| ArrsUrl.SonarrUrlRoundTrip | Addons/emby-arrs.js:204-212 | the series page for a found result with a slug, a slug search for another slug, the start page without one |
| ArrsLookup.RadarrAnswer | Addons/emby-arrs.js:96-125 | an error exactly when a request throws; found exactly when the library answers with a movie, taking its slug; the lookup's slug only when the library request fails |
| ArrsLookup.LookupRadarr | Addons/emby-arrs.js:94-126 | a cached id returns the cached result; otherwise the fresh answer, cached unless it is an error |
| ArrsLookup.RadarrHitAsksNothing | Addons/emby-arrs.js:95 | a cached id gets the same answer whatever Radarr would say |
| ArrsLookup.RadarrRepeatStable | Addons/emby-arrs.js:107-120 | after a definitive answer, asking again returns it and leaves the cache alone |
| ArrsLookup.RadarrErrorRetried | Addons/emby-arrs.js:122-125 | after a thrown request, asking again is a fresh lookup |
| ArrsLookup.RadarrErrorAddsByTmdb | Addons/emby-arrs.js:197-202 | a failed lookup still links to Radarr's add page for the id |
| ArrsLookup.FirstInLibrary | Addons/emby-arrs.js:164 | the first series with a positive id (every earlier one has none); none exactly when there is none |
| ArrsLookup.SonarrAnswer | Addons/emby-arrs.js:131-182 | an error exactly when a request throws; with a TVDB id, the library's first series under it (found, its slug), else the TVDB lookup's first hit (not found, its slug); only when neither lists anything, the name lookup: found exactly when some hit is in the library, with the first such hit's slug, else the first hit's slug; with nothing listed, not found and no slug |
| ArrsLookup.SonarrTvdbBeforeName | Addons/emby-arrs.js:131-157 | once the TVDB id settles the answer, neither the name nor the name lookup's reply changes it |
| ArrsLookup.LookupSonarr | Addons/emby-arrs.js:128-183 | keyed by `tvdbId \|\| seriesName`: a hit returns the cached result; otherwise the fresh answer, cached unless it is an error |
| ArrsLookup.SonarrKeyedByTvdb | Addons/emby-arrs.js:129-130 | with a TVDB id the name plays no part in the key |
| ArrsLookup.SonarrErrorRetried | Addons/emby-arrs.js:179-182 | a thrown request links to Sonarr's start page and is asked again next time |
| ArrsLookup.SonarrLibraryLinksPage | Addons/emby-arrs.js:136-142 | a series the library holds under a slug is linked to its page |
| Common.FirstShown | Addons/emby-arrs.js:84-92 | the first view without `hide` (the shared reading of `getVisibleDetailView`, also at emby-linklogos.js lines 44-52); none exactly when every view is hidden |
| ArrsPage.ArrSectionLayout | Addons/emby-arrs.js:267-272 | buttons at the even places and a separator at each odd place |
| ArrsPage.ArrSectionButtons | Addons/emby-arrs.js:267-272 | dropping the separators gives back the buttons the section was made of |
| ArrsPage.ClearSections | Addons/emby-arrs.js:235-239 | the view loses its sections and every other view is unchanged |
| ArrsPage.CreateArrSection | Addons/emby-arrs.js:241-276 | without buttons or without a links section the view is unchanged; otherwise its one section holds the buttons |
| ArrsPage.ItemButtons | Addons/emby-arrs.js:317-337 | a movie gets a Radarr button exactly when Radarr is configured and a TMDb id exists; a series gets a Sonarr button exactly when Sonarr is configured; each links to its lookup's result |
| ArrsPage.ProcessItemPage | Addons/emby-arrs.js:280-355 | a busy run changes nothing; every other run clears the flag; no id, no view, no links section and already shown leave everything alone; a run past the skip records the id; a finished run puts the section in the re-resolved visible view |
| ArrsPage.OnUrlChange | Addons/emby-arrs.js:385-390 | an address change forgets the shown item and keeps the caches |
| ArrsPage.SecondRunSkips | Addons/emby-arrs.js:303-305 | a second run on the same address and page stops at the skip test and changes nothing |
| ArrsPage.UrlChangeReprocesses | Addons/emby-arrs.js:385-391 | after an address change the next run is never skipped as already shown |
| ArrsPage.MovieButtonTarget | Addons/emby-arrs.js:320-325 | the Radarr button links to the movie page exactly when the library has the movie under a slug, else to the add page |
| LinkLogos.ClassifyFrom | Addons/emby-linklogos.js:142-149 | the first entry in declaration order whose domain occurs in the address; none exactly when none does |
| LinkLogos.EarlierEntryWins | Addons/emby-linklogos.js:142-149 | an address naming the domain of some entry gets that entry's logo or an earlier-declared one |
| LinkLogos.ImdbBeforeTmdb | Addons/emby-linklogos.js:12-37 | an address naming both IMDb and TMDB gets the IMDb logo |
| LinkLogos.ReplaceWithLogo | Addons/emby-linklogos.js:54-85 | an unmarked link loses its text, shows the logo and is marked; a marked one is left alone |
| LinkLogos.ReplaceIdempotent | Addons/emby-linklogos.js:54-85 | replacing twice is replacing once |
| LinkLogos.AreLinksReady | Addons/emby-linklogos.js:92-106 | false on no links; otherwise true exactly when every unmarked link has an address and non-blank text |
| LinkLogos.ReplaceAll | Addons/emby-linklogos.js:137-150 | each child goes through the replacement on its own |
| LinkLogos.Cleanup | Addons/emby-linklogos.js:154-162 | text nodes trimming to "," or "" become one space; every other child stays |
| LinkLogos.Reconcile | Addons/emby-linklogos.js:135-172 | with a link to replace, replacement then clean-up; with none, nothing changes |
| LinkLogos.ProcessLinks | Addons/emby-linklogos.js:108-175 | false and no change without view, links section, container or links, or when the links are not ready; true and no change when every link is marked; otherwise true with the container reconciled |
| LinkLogos.AllProcessedUnchanged | Addons/emby-linklogos.js:122-127 | with every link marked nothing is replaced |
| LinkLogos.ReplacedLinksMarked | Addons/emby-linklogos.js:137-150 | after a pass every matched link is marked, an unmarked one showing its first matching logo |
| LinkLogos.ReconcileEffect | Addons/emby-linklogos.js:137-162 | unmatched links and other text stay as they were |
| LinkLogos.ProcessLinksIdempotent | Addons/emby-linklogos.js:108-175 | a second pass right after a successful one succeeds and changes nothing |
| LinkLogos.Delay | Addons/emby-linklogos.js:189 | the wait after attempt a is `200 + 100a` ms until attempt 13 and 1500 ms from then on |
| LinkLogos.DelayMonotone | Addons/emby-linklogos.js:189 | the waits never shrink |
| LinkLogos.DebouncedProcess | Addons/emby-linklogos.js:201-208 | both timers are cleared and only the debounce is pending |
| LinkLogos.Fire | Addons/emby-linklogos.js:182-196 | the chain stops exactly on success or at the attempt bound; otherwise the next attempt is scheduled after the delay |
| LinkLogos.ChainNeverSucceeding | Addons/emby-linklogos.js:182-196 | a chain that never succeeds makes the attempts a, a+1, …, 15 and stops |
| LinkLogos.ChainStopsAtSuccess | Addons/emby-linklogos.js:185-187 | a chain stops at the first attempt that succeeds |
| LinkLogos.DebounceRestartsChain | Addons/emby-linklogos.js:201-208 | a page change during a chain starts a fresh chain of 16 attempts |
| LinkLogos.GiveUpAfter | Addons/emby-linklogos.js:187-194 | a chain that never succeeds gives up 13.4 s after its first attempt |
| LinkLogos.AnyAdded | Addons/emby-linklogos.js:217-239 | true exactly when some added element is or contains a links section, an item-links block or an item view |
| LinkLogos.ShouldProcess | Addons/emby-linklogos.js:211-254 | true exactly when some mutation is relevant |
| LinkLogos.UnrelatedMutationsIgnored | Addons/emby-linklogos.js:243-250 | mutations about other parts of the page never restart the pass |
| MediaRatings.AddGroup | Addons/emby-media-ratings.js:87 | each rating of the group, upper-cased, now maps to the group; other keys keep their group |
| MediaRatings.BuildMap | Addons/emby-media-ratings.js:85-88 | a key is in the table exactly when some group lists it |
| MediaRatings.MapIsLastGroup | Addons/emby-media-ratings.js:83-88 | the table gives each key the last group listing it, and has no other keys |
| MediaRatings.MapKeysFromGroups | Addons/emby-media-ratings.js:85-88 | every key is the upper-cased form of a listed rating |
| MediaRatings.LaterGroupWins | Addons/emby-media-ratings.js:83-88 | a rating listed by two groups takes the later one |
| MediaRatings.MapValuesAreNames | Addons/emby-media-ratings.js:87 | every value of the table is a group name |
| MediaRatings.ColorRules | Addons/emby-media-ratings.js:104-108 | exactly one style rule per colour, in declaration order |
| MediaRatings.ColoursDistinct | Addons/emby-media-ratings.js:12-22 | no colour is declared twice |
| MediaRatings.EveryGroupColoured | Addons/emby-media-ratings.js:12-80 | every group has a colour, at the same place in the declaration |
| MediaRatings.KeyIgnoresCase | Addons/emby-media-ratings.js:123 | the lookup key ignores the case of the text |
| MediaRatings.KeyIgnoresPadding | Addons/emby-media-ratings.js:123 | the lookup key ignores white space around the text |
| MediaRatings.Tag | Addons/emby-media-ratings.js:121-125 | an unmarked element is marked and tagged with its group if the table knows its text; a marked one is unchanged |
| MediaRatings.ProcessRatings | Addons/emby-media-ratings.js:120-127 | every element goes through the tagging on its own |
| MediaRatings.ProcessRatingsIdempotent | Addons/emby-media-ratings.js:121-122 | running the pass twice is running it once |
| MediaRatings.FreshItemTagged | Addons/emby-media-ratings.js:123-125 | a fresh element is tagged exactly when the table knows its text, and with that group |
| Text.TrimIgnoresPadding | Addons/emby-media-ratings.js:123 | trimming ignores white space added around the text |
| Text.TrimLower | Addons/emby-media-ratings.js:123 | trimming and (ASCII) case mapping commute, which lets the `trim().toUpperCase()` key be reasoned about in either order |
| Text.Split | Addons/emby-arrs.js:44 | splitting on a character gives pieces free of it that join back to the input |
| Text.SplitJoin | Addons/emby-arrs.js:44 | splitting a join of separator-free pieces gives the pieces back |

## Left out

- Network requests and the Emby API are left out. This covers `fetch`, `GM_xmlhttpRequest`, `getEmbyItem` and the AniList, Kinopoisk, Allociné and TMDb rating fetches. Their answers are parameters (`RadarrReply`, `SonarrReply`, the item in `World`).
- DOM construction, styling, icons, the settings modal, the CSS text beyond the per-colour rules, and `hideSecondaryRatingContainers` are left out. Pages are abstract records: views with a hidden flag, sections, child lists, and links with an address, text and marker.
- `MutationObserver` wiring and the `setInterval` polls are left out. Only their effect is modelled: the observer filter, `OnUrlChange`, and the debounce and retry state machine. Real time is not modelled.
- JSON parsing and the real quota behaviour of `localStorage` are left out. A stored value is `Blank`, `Malformed` or `Parsed`. Each write's outcome is a parameter.
- ElsewhereSelect.Matching: the query and the options are compared after lower-casing the ASCII letters only. `toLowerCase` folds all of Unicode, so for example the query "åland" finds "Åland Islands (AX)" in the add-on but not in the model.
- ElsewhereSelect.MatchingIgnoresCase: the filter is shown independent of ASCII case only, for the same reason.
- RatingsLinks.ParseLink: seasons are read with the corrected season pattern `TmdbUrl.SeasonAt`, not the as-written one of emby-ratings.js line 392 (see Findings). So `…/tv/7/season/12/episode` is read as the whole show, where the add-on asks for season 1.
- RatingsCache.Set: the clock readings are parameters (`now`, and `retryNow` for the retry after a quota failure); nothing relates them.
- `IGNORE_PROVIDERS` and the user-services filter of the region panels are not part of this model.
- Number formatting is not modelled: `toFixed`, `parseFloat`, and the floating-point details of scores. Scores are `real`.
- The imdb-id tracking in `scanLinks` and `findImdbIdFromPage` is not modelled. It only feeds the supplementary fetches.
- RatingsLinks.ParseLink: season and episode numbers are the decimal value of the captured digits. `parseInt`'s treatment of leading zeros and very long numbers is not modelled beyond that.
- ArrsUrl.SegmentValue: `URLSearchParams` percent and `+` decoding is not modelled. Names and values are compared as written.
- ArrsLookup.RadarrAnswer: the `id` field of library results is not modelled, because no URL builder reads it.
- ArrsLookup.LookupSonarr: a TVDB id that equals some show's name shares one cache entry with it. The model keeps that behaviour and states nothing about it.
- ElsewhereProviders.AllProviders: a missing category list is treated as an empty one.
- RatingsStars.Hide: an absent `style` attribute is treated as an empty style.
- RatingsBadges.Badges: the badge title text (source, value and vote count) is not modelled. Only the logo key, the alt text and the value are.
- LinkLogos.Cleanup: the `", "` alternative of the comma test can never match after trimming. It is kept as written.
- LinkLogos.ProcessLinks: the container's extra inline style after a replacement is not modelled.
- ArrsPage.ProcessItemPage: the page after the `await`s is a parameter, because other code may change it meanwhile. Exceptions other than the lookups' own are not modelled.

## Findings

| source | as written | input that shows it | evidently intended | confidence | as-written member | corrected member |
|---|---|---|---|---|---|---|
| Addons/emby-ratings.js:135-137 | forced cleanup deletes `max(1, floor(n/2))` entries and reads `entries[0].key` even when there are none, so the TypeError escapes `set`'s catch block | a quota failure while `localStorage` holds only keys without the cache prefix | with no cache entry, evict nothing, retry once, and swallow any failure | not executed | RatingsCache.SetAsWritten | RatingsCache.Set |
| Addons/emby-ratings.js:392 | `(\d+)(?!\/episode)` backtracks into the season number when the look-ahead fails | `themoviedb.org/tv/7/season/12/episode` reads season 1 | the whole season number, and no match when `/episode` follows it | not executed | TmdbUrl.SeasonAtAsWritten | TmdbUrl.SeasonAt |
| Addons/emby-elsewhere.js:562-581 | `getAvailabilityText` ignores `ads`, while `hasAnyServices` counts it | a region listing only ad-supported providers is shown with them under "Nicht auf Streaming-Diensten … verfügbar" | ads counted as streaming, so the title agrees with `hasAnyServices` | not executed | ElsewhereText.AvailabilityAsWritten | ElsewhereText.Availability |
