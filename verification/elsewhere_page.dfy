/**
 * Where the Elsewhere add-on reads the item and where it puts its panel:
 * `getTmdbInfoFromPage` takes the TMDb type and id from the links of a
 * detail page, and `findInsertionPoint` chooses the landmark the panel is
 * placed next to.
 */
module ElsewherePage {
  import opened Common
  import opened Text
  import opened TmdbUrl

  /** What `a[href*="themoviedb.org"]` selects on. */
  const Domain: string := "themoviedb.org"

  /**
   * A detail page: the anchors' hrefs inside `.itemLinks`, `.linksSection`
   * and `.aboutSection` (`None` when the page has no such element), and the
   * hrefs of every anchor of the page, all in document order.
   */
  datatype Page = Page(itemLinks: Option<seq<string>>, linksSection: Option<seq<string>>,
                       aboutSection: Option<seq<string>>, links: seq<string>)

  /** The sections in the order `getTmdbInfoFromPage` tries them. */
  function Sections(p: Page): seq<Option<seq<string>>> {
    [p.itemLinks, p.linksSection, p.aboutSection]
  }

  /** `section.querySelector('a[href*="themoviedb.org"]')`: the first anchor whose href mentions the domain. */
  function FirstTmdbAnchor(hrefs: seq<string>): (r: Option<string>)
    ensures r.Some? ==> r.value in hrefs && Includes(r.value, Domain)
    ensures r.None? <==> forall h :: h in hrefs ==> !Includes(h, Domain)
  {
    if hrefs == [] then None
    else if Includes(hrefs[0], Domain) then Some(hrefs[0])
    else FirstTmdbAnchor(hrefs[1..])
  }

  /** What one section yields: only its first TMDb anchor is tried against the pattern. */
  function FromSection(section: Option<seq<string>>): (r: Option<MediaMatch>)
    ensures r.Some? ==> section.Some? && FirstTmdbAnchor(section.value).Some?
                        && r == MatchMedia(FirstTmdbAnchor(section.value).value)
  {
    match section
    case None => None
    case Some(hrefs) =>
      match FirstTmdbAnchor(hrefs)
      case None => None
      case Some(h) => MatchMedia(h)
  }

  /** The first element of `xs` for which `f` yields something, and what it yields. */
  function FirstOf<T, R>(xs: seq<T>, f: T -> Option<R>): (r: Option<R>)
    ensures r.None? <==> forall i :: 0 <= i < |xs| ==> f(xs[i]).None?
    ensures r.Some? ==> exists i :: 0 <= i < |xs| && f(xs[i]) == r && forall j :: 0 <= j < i ==> f(xs[j]).None?
  {
    if xs == [] then None
    else if f(xs[0]).Some? then f(xs[0])
    else
      var r := FirstOf(xs[1..], f);
      assert forall i :: 0 <= i < |xs[1..]| ==> xs[1..][i] == xs[i + 1];
      r
  }

  /** The first of the given sections that yields a match. */
  function FirstSection(sections: seq<Option<seq<string>>>): Option<MediaMatch> {
    FirstOf(sections, FromSection)
  }

  /** The whole-page fallback: the first anchor of the page, in document order, whose href matches. */
  function FirstMatching(links: seq<string>): Option<MediaMatch> {
    FirstOf(links, MatchMedia)
  }

  /** `getTmdbInfoFromPage`: the sections in order, then the whole page. */
  function TmdbInfo(p: Page): (r: Option<MediaMatch>)
    ensures FirstSection(Sections(p)).Some? ==> r == FirstSection(Sections(p))
    ensures FirstSection(Sections(p)).None? ==> r == FirstMatching(p.links)
  {
    match FirstSection(Sections(p))
    case Some(m) => Some(m)
    case None => FirstMatching(p.links)
  }

  /** Whatever is reported is read off one of the page's anchors, as a movie or show with a numeric id. */
  lemma TmdbInfoSound(p: Page)
    requires TmdbInfo(p).Some?
    ensures exists h :: (h in p.links || exists i :: 0 <= i < 3 && Sections(p)[i].Some? && h in Sections(p)[i].value)
                        && MatchMedia(h) == TmdbInfo(p)
    ensures TmdbInfo(p).value.kind in {"movie", "tv"} && TmdbInfo(p).value.id != [] && AllDigits(TmdbInfo(p).value.id)
  {
    var r := TmdbInfo(p);
    if FirstSection(Sections(p)).Some? {
      var i :| 0 <= i < 3 && FromSection(Sections(p)[i]) == r;
      var h := FirstTmdbAnchor(Sections(p)[i].value).value;
      MatchMediaShape(h);
    } else {
      var k :| 0 <= k < |p.links| && MatchMedia(p.links[k]) == r;
      MatchMediaShape(p.links[k]);
    }
  }

  /** A match names `movie` or `tv` and a non-empty run of digits. */
  lemma MatchMediaShape(h: string)
    requires MatchMedia(h).Some?
    ensures MatchMedia(h).value.kind in {"movie", "tv"}
    ensures MatchMedia(h).value.id != [] && AllDigits(MatchMedia(h).value.id)
  {
    var i := FindWitness(|h|, 0, i => MediaAt(h, i));
  }

  /** If any anchor of the page carries a TMDb movie or show link, an item is found. */
  lemma TmdbInfoComplete(p: Page, h: string)
    requires h in p.links && MatchMedia(h).Some?
    ensures TmdbInfo(p).Some?
  {
  }

  /** A section is judged by its first TMDb anchor alone: a person link there hides a movie link after it. */
  lemma SectionTriesFirstAnchorOnly(h: string, rest: seq<string>)
    requires Includes(h, Domain)
    ensures FromSection(Some([h] + rest)) == MatchMedia(h)
  {
  }

  // ------------------------------------------------ the insertion point

  /** The landmarks `findInsertionPoint` looks for, in its order of preference. */
  datatype Landmark = People | Directors | Overview | DetailText

  /** How the panel is placed relative to the landmark. */
  datatype Placement = Before | After | Append

  /** A landmark as `querySelector` finds it: missing, found without a parent, or found in the tree. */
  datatype Found = Missing | Detached | Attached

  datatype Landmarks = Landmarks(people: Found, directors: Found, overview: Found, detailText: Found)

  function Rank(l: Landmark): nat {
    match l
    case People => 0
    case Directors => 1
    case Overview => 2
    case DetailText => 3
  }

  /** The first three need a parent node; the detail-text container only needs to exist. */
  predicate Usable(ls: Landmarks, l: Landmark) {
    match l
    case People => ls.people == Attached
    case Directors => ls.directors == Attached
    case Overview => ls.overview == Attached
    case DetailText => ls.detailText != Missing
  }

  function PlacementOf(l: Landmark): Placement {
    match l
    case People => Before
    case Directors => After
    case Overview => After
    case DetailText => Append
  }

  /** `findInsertionPoint`: the most preferred usable landmark, with the placement that belongs to it. */
  function InsertionPoint(ls: Landmarks): (r: Option<(Landmark, Placement)>)
    ensures r.None? <==> forall l :: !Usable(ls, l)
    ensures r.Some? ==> Usable(ls, r.value.0) && r.value.1 == PlacementOf(r.value.0)
    ensures r.Some? ==> forall l :: Rank(l) < Rank(r.value.0) ==> !Usable(ls, l)
  {
    if Usable(ls, People) then Some((People, Before))
    else if Usable(ls, Directors) then Some((Directors, After))
    else if Usable(ls, Overview) then Some((Overview, After))
    else if Usable(ls, DetailText) then Some((DetailText, Append))
    else None
  }

  /** Making another landmark usable never moves the panel to a less preferred place. */
  lemma InsertionPointMonotone(ls: Landmarks, ls': Landmarks)
    requires forall l :: Usable(ls, l) ==> Usable(ls', l)
    requires InsertionPoint(ls).Some?
    ensures InsertionPoint(ls').Some?
    ensures Rank(InsertionPoint(ls').value.0) <= Rank(InsertionPoint(ls).value.0)
  {
    var l := InsertionPoint(ls).value.0;
    assert Usable(ls', l);
  }
}
