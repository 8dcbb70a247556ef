/**
 * The Link Logos add-on: the external links of a detail page (IMDb, TMDB,
 * Trakt, TheTVDB) become logo images. A link is replaced once and marked;
 * the pass waits until every unmarked link has rendered, retries with a
 * growing delay, and a page change restarts the retries.
 */
module LinkLogos {
  import opened Common
  import opened Text

  /** An entry of `LINK_LOGOS`: the text its `match` looks for in the href, and the logo shown instead. */
  datatype Logo = Logo(key: string, domain: string, image: string, caption: string, height: string)

  /** `LINK_LOGOS`, in declaration order, which is the order the keys are tried in. */
  const Logos: seq<Logo> := [
    Logo("imdb", "imdb.com", "https://cdn.jsdelivr.net/gh/v1rusnl/EmbySpotlight@main/logo/IMDb.png", "IMDb", "20px"),
    Logo("tmdb", "themoviedb.org", "https://cdn.jsdelivr.net/gh/v1rusnl/EmbySpotlight@main/logo/TMDB.png", "TMDB", "25px"),
    Logo("trakt", "trakt.tv", "https://cdn.jsdelivr.net/gh/v1rusnl/EmbySpotlight@main/logo/Trakt.png", "Trakt", "25px"),
    Logo("tvdb", "thetvdb.com", "https://cdn.jsdelivr.net/gh/v1rusnl/EmbySpotlight@main/logo/tvdb.png", "TheTVDB", "25px")
  ]

  /**
   * An `a[is="emby-linkbutton"]`: its href, its text, the logo shown in it
   * (the `img` `replaceWithLogo` appends) and whether it carries
   * `data-logo-processed`.
   */
  datatype Link = Link(href: string, text: string, logo: Option<Logo>, processed: bool)

  /** A child node of `.itemLinks`: a link or a text node such as the `", "` between links. */
  datatype Child = Anchor(link: Link) | TextNode(text: string)

  /**
   * A `.view-item-item`: whether it is hidden, and its `.linksSection`
   * (`None` when missing) with the children of its `.itemLinks` (`None`
   * when the section has no such container).
   */
  datatype View = View(hidden: bool, section: Option<Option<seq<Child>>>)

  // ------------------------------------------------ one link

  /** The first entry, from index `i` on, whose domain occurs in `href`. */
  function ClassifyFrom(href: string, i: nat): (r: Option<Logo>)
    requires i <= |Logos|
    ensures r.Some? ==> exists k :: i <= k < |Logos| && Logos[k] == r.value && Includes(href, Logos[k].domain)
                                    && forall j :: i <= j < k ==> !Includes(href, Logos[j].domain)
    ensures r.None? <==> forall k :: i <= k < |Logos| ==> !Includes(href, Logos[k].domain)
    decreases |Logos| - i
  {
    if i == |Logos| then None
    else if Includes(href, Logos[i].domain) then Some(Logos[i])
    else ClassifyFrom(href, i + 1)
  }

  /** The `for (const key in LINK_LOGOS)` loop: the first entry whose `match` accepts the href. */
  function Classify(href: string): Option<Logo> {
    ClassifyFrom(href, 0)
  }

  /** An address naming the domain of some entry gets that entry's logo or an earlier-declared one. */
  lemma EarlierEntryWins(href: string, i: nat)
    requires i < |Logos| && Includes(href, Logos[i].domain)
    ensures Classify(href).Some?
    ensures exists k :: 0 <= k <= i && Classify(href) == Some(Logos[k])
  {
    var k :| 0 <= k < |Logos| && Logos[k] == Classify(href).value && Includes(href, Logos[k].domain)
             && forall j :: 0 <= j < k ==> !Includes(href, Logos[j].domain);
    assert k <= i;
  }

  /** An address naming both IMDb and TMDB gets the IMDb logo: declaration order decides. */
  lemma ImdbBeforeTmdb(href: string)
    requires Includes(href, "imdb.com") && Includes(href, "themoviedb.org")
    ensures Classify(href) == Some(Logos[0])
  {
  }

  /** `replaceWithLogo`: an unmarked link loses its text, shows the logo and is marked; a marked one is left alone. */
  function ReplaceWithLogo(l: Link, g: Logo): (r: Link)
    ensures r.processed && r.href == l.href
    ensures l.processed ==> r == l
    ensures !l.processed ==> r.text == [] && r.logo == Some(g)
  {
    if l.processed then l else Link(l.href, [], Some(g), true)
  }

  /** Replacing twice, with any logo the second time, is replacing once. */
  lemma ReplaceIdempotent(l: Link, g: Logo, g': Logo)
    ensures ReplaceWithLogo(ReplaceWithLogo(l, g), g') == ReplaceWithLogo(l, g)
  {
  }

  // ------------------------------------------------ the links of a container

  /** The anchors among the children, in order. */
  function LinksOf(children: seq<Child>): (r: seq<Link>)
    ensures |r| <= |children|
  {
    if children == [] then []
    else (if children[0].Anchor? then [children[0].link] else []) + LinksOf(children[1..])
  }

  /** A link counts as rendered when it has an href and visible text. */
  predicate Rendered(l: Link) {
    l.href != [] && Trim(l.text) != []
  }

  /** `areLinksReady`, the loop as written. */
  function AreLinksReady(links: seq<Link>): (r: bool)
    ensures r <==> links != [] && forall i :: 0 <= i < |links| && !links[i].processed ==> Rendered(links[i])
  {
    links != [] && AllRendered(links)
  }

  function AllRendered(links: seq<Link>): (r: bool)
    ensures r <==> forall i :: 0 <= i < |links| && !links[i].processed ==> Rendered(links[i])
  {
    if links == [] then true
    else if links[0].processed then AllRendered(links[1..])
    else if !Rendered(links[0]) then false
    else AllRendered(links[1..])
  }

  predicate AllProcessed(links: seq<Link>) {
    forall i :: 0 <= i < |links| ==> links[i].processed
  }

  /** One child after the `links.forEach` pass. */
  function ReplaceChild(c: Child): Child {
    match c
    case TextNode(_) => c
    case Anchor(l) =>
      if l.processed then c
      else match Classify(l.href)
        case None => c
        case Some(g) => Anchor(ReplaceWithLogo(l, g))
  }

  /** Whether the pass replaces this child: `processedCount` counts these. */
  predicate Replaces(c: Child) {
    c.Anchor? && !c.link.processed && Classify(c.link.href).Some?
  }

  /** The `links.forEach` pass over the container. */
  function ReplaceAll(children: seq<Child>): (r: seq<Child>)
    ensures |r| == |children|
    ensures forall i :: 0 <= i < |r| ==> r[i] == ReplaceChild(children[i])
  {
    seq(|children|, i requires 0 <= i < |children| => ReplaceChild(children[i]))
  }

  /** A text node holding only a comma, or nothing visible. */
  predicate CommaText(t: string) {
    Trim(t) in {",", ", ", ""}
  }

  /** The comma clean-up: such text nodes become one space, every other child stays. */
  function Cleanup(children: seq<Child>): (r: seq<Child>)
    ensures |r| == |children|
    ensures forall i :: 0 <= i < |r| ==>
              r[i] == if children[i].TextNode? && CommaText(children[i].text) then TextNode(" ") else children[i]
  {
    seq(|children|, i requires 0 <= i < |children| =>
      if children[i].TextNode? && CommaText(children[i].text) then TextNode(" ") else children[i])
  }

  /** The container after a pass that found its links ready. */
  function Reconcile(children: seq<Child>): (r: seq<Child>)
    ensures (exists i :: 0 <= i < |children| && Replaces(children[i])) ==> r == Cleanup(ReplaceAll(children))
    ensures (forall i :: 0 <= i < |children| ==> !Replaces(children[i])) ==> r == children
  {
    if exists i :: 0 <= i < |children| && Replaces(children[i]) then Cleanup(ReplaceAll(children))
    else
      assert ReplaceAll(children) == children;
      children
  }

  // ------------------------------------------------ processLinks

  /** `getVisibleDetailView`: the first view without the `hide` class. */
  function VisibleView(views: seq<View>): Option<nat> {
    FirstShown(Hidden(views))
  }

  /** Which views carry the `hide` class. */
  function Hidden(views: seq<View>): seq<bool> {
    seq(|views|, i requires 0 <= i < |views| => views[i].hidden)
  }

  /** The children of the visible view's `.itemLinks`, when there is one. */
  function Container(views: seq<View>): (r: Option<(nat, seq<Child>)>)
    ensures r.Some? ==> VisibleView(views) == Some(r.value.0)
                        && views[r.value.0].section == Some(Some(r.value.1))
  {
    match VisibleView(views)
    case None => None
    case Some(v) =>
      match views[v].section
      case None => None
      case Some(None) => None
      case Some(Some(children)) => Some((v, children))
  }

  /** `processLinks`: whether the pass is done (no retry needed), and the page afterwards. */
  function ProcessLinks(views: seq<View>): (r: (bool, seq<View>))
    ensures |r.1| == |views|
    ensures Container(views).None? ==> r == (false, views)
    ensures Container(views).Some? && LinksOf(Container(views).value.1) == [] ==> r == (false, views)
    ensures Container(views).Some? && AllProcessed(LinksOf(Container(views).value.1)) ==> r.1 == views
    ensures !r.0 ==> r.1 == views
    ensures Container(views).Some? && LinksOf(Container(views).value.1) != [] ==>
              (r.0 <==> AreLinksReady(LinksOf(Container(views).value.1)))
    ensures r.0 ==> var (v, children) := Container(views).value;
                    r.1 == views[v := View(false, Some(Some(Reconcile(children))))]
  {
    match Container(views)
    case None => (false, views)
    case Some((v, children)) =>
      var links := LinksOf(children);
      if links == [] then (false, views)
      else if AllProcessed(links) then
        assert AreLinksReady(links);
        AllProcessedUnchanged(children);
        assert views[v] == View(false, Some(Some(children)));
        (true, views)
      else if !AreLinksReady(links) then (false, views)
      else (true, views[v := View(false, Some(Some(Reconcile(children))))])
  }

  /** A child is a link of the container exactly when it is an anchor. */
  lemma {:induction false} LinksOfAnchors(children: seq<Child>, i: nat)
    requires i < |children| && children[i].Anchor?
    ensures children[i].link in LinksOf(children)
  {
    if i > 0 {
      LinksOfAnchors(children[1..], i - 1);
    }
  }

  /** With every link marked, the pass replaces nothing. */
  lemma AllProcessedUnchanged(children: seq<Child>)
    requires AllProcessed(LinksOf(children))
    ensures Reconcile(children) == children
  {
    forall i | 0 <= i < |children| ensures !Replaces(children[i]) {
      if children[i].Anchor? {
        LinksOfAnchors(children, i);
      }
    }
  }

  /** After a pass every link that some entry matches is marked and shows that entry's logo. */
  lemma ReplacedLinksMarked(children: seq<Child>, i: nat)
    requires i < |children| && children[i].Anchor? && Classify(children[i].link.href).Some?
    requires exists j :: 0 <= j < |children| && Replaces(children[j])
    ensures Reconcile(children)[i].Anchor? && Reconcile(children)[i].link.processed
    ensures !children[i].link.processed ==> Reconcile(children)[i].link.logo == Classify(children[i].link.href)
  {
    var m := ReplaceAll(children);
    assert Reconcile(children) == Cleanup(m);
    assert m[i] == ReplaceChild(children[i]) && m[i].Anchor?;
    assert Cleanup(m)[i] == m[i];
  }

  /** What a pass leaves: matched links marked, unmatched links and non-comma text as they were. */
  lemma ReconcileEffect(children: seq<Child>, i: nat)
    requires i < |children|
    ensures children[i].Anchor? && Classify(children[i].link.href).None? ==> Reconcile(children)[i] == children[i]
    ensures children[i].TextNode? && !CommaText(children[i].text) ==> Reconcile(children)[i] == children[i]
  {
    if exists j :: 0 <= j < |children| && Replaces(children[j]) {
      var m := ReplaceAll(children);
      assert Reconcile(children) == Cleanup(m);
      assert m[i] == ReplaceChild(children[i]);
      assert Cleanup(m)[i] == if m[i].TextNode? && CommaText(m[i].text) then TextNode(" ") else m[i];
    }
  }

  /** A second pass right after a successful one finds nothing to do and changes nothing. */
  lemma ProcessLinksIdempotent(views: seq<View>)
    requires ProcessLinks(views).0
    ensures ProcessLinks(ProcessLinks(views).1) == (true, ProcessLinks(views).1)
  {
    var (v, children) := Container(views).value;
    var after := ProcessLinks(views).1;
    var rc := Reconcile(children);
    PassKeepsContainer(views, v, children, rc);
    SecondPassQuiet(children);
    QuietPass(after);
  }

  /** Rewriting the visible view's links keeps it the visible view, now holding the new links. */
  lemma PassKeepsContainer(views: seq<View>, v: nat, children: seq<Child>, rc: seq<Child>)
    requires Container(views) == Some((v, children))
    ensures Container(views[v := View(false, Some(Some(rc)))]) == Some((v, rc))
  {
    var after := views[v := View(false, Some(Some(rc)))];
    assert Hidden(after) == Hidden(views);
  }

  /** A pass over ready links that it would not change succeeds and leaves the page as it is. */
  lemma QuietPass(views: seq<View>)
    requires Container(views).Some?
    requires var children := Container(views).value.1;
             LinksOf(children) != [] && AreLinksReady(LinksOf(children)) && Reconcile(children) == children
    ensures ProcessLinks(views) == (true, views)
  {
    var (v, children) := Container(views).value;
    assert views[v] == View(false, Some(Some(children)));
    assert views[v := View(false, Some(Some(children)))] == views;
  }

  /** The links of the reconciled container: each one the same link, or that link replaced. */
  lemma {:induction false} LinksOfReplaced(children: seq<Child>, f: seq<Child>)
    requires |f| == |children|
    requires forall i :: 0 <= i < |f| ==> f[i].Anchor? == children[i].Anchor?
    requires forall i :: 0 <= i < |f| && f[i].Anchor? ==>
               f[i].link == children[i].link || (Replaces(children[i]) && f[i].link.processed)
    ensures |LinksOf(f)| == |LinksOf(children)|
    ensures forall k :: 0 <= k < |LinksOf(f)| ==>
              LinksOf(f)[k] == LinksOf(children)[k] || LinksOf(f)[k].processed
  {
    if f != [] {
      LinksOfReplaced(children[1..], f[1..]);
    }
  }

  /** After a ready pass, the links left unmarked are the ones no entry matches, unchanged and rendered. */
  lemma SecondPassQuiet(children: seq<Child>)
    requires LinksOf(children) != [] && AreLinksReady(LinksOf(children))
    ensures var rc := Reconcile(children);
            LinksOf(rc) != [] && AreLinksReady(LinksOf(rc)) && Reconcile(rc) == rc
  {
    var rc := Reconcile(children);
    LinksOfReplaced(children, rc);
    var ls, ls' := LinksOf(children), LinksOf(rc);
    forall k | 0 <= k < |ls'| && !ls'[k].processed ensures Rendered(ls'[k]) {
      assert ls'[k] == ls[k];
    }
    NothingLeftToReplace(children);
  }

  /** A pass leaves no child that a second pass would replace. */
  lemma NothingLeftToReplace(children: seq<Child>)
    ensures forall i :: 0 <= i < |children| ==> !Replaces(Reconcile(children)[i])
  {
    var rc := Reconcile(children);
    forall i | 0 <= i < |rc| ensures !Replaces(rc[i]) {
      if rc[i].Anchor? && !rc[i].link.processed {
        assert rc[i] == children[i];
      }
    }
  }

  // ------------------------------------------------ retries and the debounce

  const MaxAttempts: nat := 15

  /** The wait after failed attempt `a`: 200 ms more per attempt, at most 1500 ms. */
  function Delay(a: nat): (d: nat)
    ensures 200 <= d <= 1500
    ensures a >= 13 ==> d == 1500
    ensures a < 13 ==> d == 200 + 100 * a
  {
    if 200 + a * 100 < 1500 then 200 + a * 100 else 1500
  }

  /** The delays never shrink from one attempt to the next. */
  lemma DelayMonotone(a: nat, b: nat)
    requires a <= b
    ensures Delay(a) <= Delay(b)
  {
  }

  /** The timer pending: none, the debounce, or the retry of attempt `attempt` after `delay` ms. */
  datatype Timer = Idle | DebounceWait | RetryWait(attempt: nat, delay: nat)

  /** `debouncedProcess`: both timers are cleared and the debounce is set. */
  function DebouncedProcess(t: Timer): (r: Timer)
    ensures r == DebounceWait
  {
    DebounceWait
  }

  /** The attempt a pending timer starts: the debounce starts the chain at 0. */
  function AttemptOf(t: Timer): nat
    requires !t.Idle?
  {
    if t.DebounceWait? then 0 else t.attempt
  }

  /** `processWithRetry(a)` when its timer fires, given whether `processLinks` succeeds. */
  function Fire(t: Timer, success: bool): (r: Timer)
    requires !t.Idle?
    ensures r.Idle? <==> success || AttemptOf(t) >= MaxAttempts
    ensures r.RetryWait? ==> r.attempt == AttemptOf(t) + 1 && r.delay == Delay(AttemptOf(t))
  {
    var a := AttemptOf(t);
    if !success && a < MaxAttempts then RetryWait(a + 1, Delay(a)) else Idle
  }

  /** A pending timer that the chain can have set. */
  predicate Reachable(t: Timer) {
    t.RetryWait? ==> 1 <= t.attempt <= MaxAttempts
  }

  /**
   * The attempts made from a pending timer until the chain stops, when
   * attempt `a` succeeds exactly if `success(a)`, with no page change in between.
   */
  function Chain(t: Timer, success: nat -> bool): (r: seq<nat>)
    requires !t.Idle? && Reachable(t)
    ensures r != [] && r[0] == AttemptOf(t)
    decreases MaxAttempts + 1 - AttemptOf(t)
  {
    var next := Fire(t, success(AttemptOf(t)));
    if next.Idle? then [AttemptOf(t)] else [AttemptOf(t)] + Chain(next, success)
  }

  /** A chain that never succeeds makes the attempts `a`, `a + 1`, …, `MaxAttempts`, then stops. */
  lemma {:induction false} ChainNeverSucceeding(t: Timer, success: nat -> bool)
    requires !t.Idle? && Reachable(t)
    requires forall a :: !success(a)
    ensures |Chain(t, success)| == MaxAttempts + 1 - AttemptOf(t)
    ensures forall k :: 0 <= k < |Chain(t, success)| ==> Chain(t, success)[k] == AttemptOf(t) + k
    decreases MaxAttempts + 1 - AttemptOf(t)
  {
    var next := Fire(t, success(AttemptOf(t)));
    if !next.Idle? {
      ChainNeverSucceeding(next, success);
    }
  }

  /** A chain stops at the first attempt that succeeds. */
  lemma {:induction false} ChainStopsAtSuccess(t: Timer, success: nat -> bool, s: nat)
    requires !t.Idle? && Reachable(t)
    requires AttemptOf(t) <= s <= MaxAttempts && success(s)
    requires forall a :: AttemptOf(t) <= a < s ==> !success(a)
    ensures |Chain(t, success)| == s + 1 - AttemptOf(t)
    ensures forall k :: 0 <= k < |Chain(t, success)| ==> Chain(t, success)[k] == AttemptOf(t) + k
    decreases MaxAttempts + 1 - AttemptOf(t)
  {
    var next := Fire(t, success(AttemptOf(t)));
    if !next.Idle? {
      ChainStopsAtSuccess(next, success, s);
    }
  }

  /** A page change in the middle of a retry chain starts a fresh chain at attempt 0. */
  lemma DebounceRestartsChain(t: Timer, success: nat -> bool)
    requires forall a :: !success(a)
    ensures |Chain(DebouncedProcess(t), success)| == MaxAttempts + 1
  {
    ChainNeverSucceeding(DebounceWait, success);
  }

  /** The total wait of a chain that never succeeds, from attempt `a`. */
  function WaitFrom(a: nat): nat
    requires a <= MaxAttempts
    decreases MaxAttempts - a
  {
    if a == MaxAttempts then 0 else Delay(a) + WaitFrom(a + 1)
  }

  /** A chain that never succeeds gives up 13.4 seconds after its first attempt. */
  lemma GiveUpAfter()
    ensures WaitFrom(0) == 13400
  {
    assert WaitFrom(13) == 1500 + 1500;
    assert WaitFrom(8) == 1000 + 1100 + 1200 + 1300 + 1400 + WaitFrom(13);
    assert WaitFrom(4) == 600 + 700 + 800 + 900 + WaitFrom(8);
  }

  // ------------------------------------------------ the observer filter

  /** A node the observer sees added: an element with its classes and the classes found below it, or another node. */
  datatype Added = Element(classes: set<string>, inside: set<string>) | OtherNode

  /** A mutation record: nodes added to a list of children, a change of attribute `name` on an element with `classes`, or anything else. */
  datatype Mutation = ChildList(added: seq<Added>) | AttributeChange(name: string, classes: set<string>) | OtherMutation

  /** An added element that is or holds a links section, a links container or a detail view. */
  predicate RelevantNode(n: Added) {
    n.Element? &&
    ("linksSection" in n.classes || "itemLinks" in n.classes || "linksSection" in n.inside || "itemLinks" in n.inside
     || "view-item-item" in n.classes || "view-item-item" in n.inside)
  }

  /** A mutation that should start the pass: a relevant added node, or a detail view that lost `hide`. */
  predicate Relevant(m: Mutation) {
    match m
    case ChildList(added) => exists i :: 0 <= i < |added| && RelevantNode(added[i])
    case AttributeChange(name, classes) => name == "class" && "view-item-item" in classes && "hide" !in classes
    case OtherMutation => false
  }

  /** The inner loop over the added nodes, skipping non-elements and stopping at the first relevant one. */
  function AnyAdded(added: seq<Added>): (r: bool)
    ensures r <==> exists i :: 0 <= i < |added| && RelevantNode(added[i])
  {
    if added == [] then false
    else if added[0].OtherNode? then AnyAdded(added[1..])
    else if RelevantNode(added[0]) then true
    else
      var r := AnyAdded(added[1..]);
      assert forall i :: 0 <= i < |added[1..]| ==> added[1..][i] == added[i + 1];
      r
  }

  /** The observer callback's `shouldProcess`, the loops as written. */
  function ShouldProcess(ms: seq<Mutation>): (r: bool)
    ensures r <==> exists i :: 0 <= i < |ms| && Relevant(ms[i])
  {
    if ms == [] then false
    else
      var m := ms[0];
      var byNodes := m.ChildList? && |m.added| > 0 && AnyAdded(m.added);
      var byClass := m.AttributeChange? && m.name == "class" && "view-item-item" in m.classes && "hide" !in m.classes;
      if byNodes || byClass then
        assert Relevant(ms[0]);
        true
      else
        var r := ShouldProcess(ms[1..]);
        assert forall i :: 0 <= i < |ms[1..]| ==> ms[1..][i] == ms[i + 1];
        r
  }

  /** Mutations about other parts of the page never restart the pass. */
  lemma UnrelatedMutationsIgnored(ms: seq<Mutation>)
    requires forall i :: 0 <= i < |ms| ==> ms[i].OtherMutation? || (ms[i].AttributeChange? && "view-item-item" !in ms[i].classes)
    ensures !ShouldProcess(ms)
  {
  }
}
