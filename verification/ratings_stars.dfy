/**
 * `setBuiltInStarsHidden`: the ratings add-on hides Emby's own star and
 * critic widgets while its row is shown, remembering each widget's original
 * inline style the first time, and restores that style when unhiding.
 */
module RatingsStars {
  import opened Common

  /** One inline-style declaration, `prop: value`. */
  datatype Decl = Decl(prop: string, value: string)

  /** An inline style block: the CSSOM keeps each property at most once. */
  predicate WellFormed(decls: seq<Decl>) {
    forall i, j :: 0 <= i < j < |decls| ==> decls[i].prop != decls[j].prop
  }

  /** The value of `prop` in a style block, if it is set. */
  function Lookup(decls: seq<Decl>, prop: string): (r: Option<string>)
    ensures r.Some? <==> exists i :: 0 <= i < |decls| && decls[i].prop == prop
  {
    if decls == [] then None
    else if decls[0].prop == prop then Some(decls[0].value)
    else Lookup(decls[1..], prop)
  }

  /**
   * `el.style[prop] = value`: the empty string removes the declaration, any
   * other value replaces it in place or appends it.
   */
  function SetProp(decls: seq<Decl>, prop: string, value: string): (r: seq<Decl>)
    requires WellFormed(decls)
    ensures WellFormed(r)
    ensures Lookup(r, prop) == if value == "" then None else Some(value)
    ensures forall q :: q != prop ==> Lookup(r, q) == Lookup(decls, q)
  {
    if decls == [] then (if value == "" then [] else [Decl(prop, value)])
    else if decls[0].prop == prop then
      HeadNotInTail(decls);
      if value == "" then decls[1..] else [Decl(prop, value)] + decls[1..]
    else
      HeadNotInTail(decls);
      [decls[0]] + SetProp(decls[1..], prop, value)
  }

  /** In a well-formed block the first property is not set again further on. */
  lemma HeadNotInTail(decls: seq<Decl>)
    requires WellFormed(decls) && decls != []
    ensures WellFormed(decls[1..]) && Lookup(decls[1..], decls[0].prop).None?
  {
    forall i | 0 <= i < |decls[1..]| ensures decls[1..][i].prop != decls[0].prop {
      assert decls[1..][i] == decls[i + 1];
    }
  }

  /** Setting the same property to the same value twice is setting it once. */
  lemma {:induction false} SetPropIdempotent(decls: seq<Decl>, prop: string, value: string)
    requires WellFormed(decls)
    ensures SetProp(SetProp(decls, prop, value), prop, value) == SetProp(decls, prop, value)
  {
    if decls == [] {
    } else if decls[0].prop == prop {
      var tail := decls[1..];
      if value == "" {
        assert Lookup(tail, prop).None?;
        NoPropUnchanged(tail, prop);
      } else {
        var r := [Decl(prop, value)] + tail;
        assert r[0].prop == prop && r[1..] == tail;
      }
    } else {
      var rest := SetProp(decls[1..], prop, value);
      SetPropIdempotent(decls[1..], prop, value);
      var r := [decls[0]] + rest;
      assert r[0] == decls[0] && r[1..] == rest;
    }
  }

  /** Removing a property that is not set changes nothing. */
  lemma {:induction false} NoPropUnchanged(decls: seq<Decl>, prop: string)
    requires WellFormed(decls) && Lookup(decls, prop).None?
    ensures SetProp(decls, prop, "") == decls
  {
    if decls != [] {
      assert decls[0].prop != prop;
      HeadNotInTail(decls);
      assert Lookup(decls[1..], prop).None?;
      NoPropUnchanged(decls[1..], prop);
      assert SetProp(decls, prop, "") == [decls[0]] + SetProp(decls[1..], prop, "");
      assert decls == [decls[0]] + decls[1..];
    }
  }

  /**
   * A star or critic widget: its inline style (an absent `style` attribute
   * reads as the empty block) and the `data-orig-style` copy, if one is saved.
   */
  datatype Widget = Widget(style: seq<Decl>, saved: Option<seq<Decl>>)

  predicate WidgetOk(w: Widget) {
    WellFormed(w.style) && (w.saved.Some? ==> WellFormed(w.saved.value))
  }

  /** Hiding: save the original style only if none is saved yet, then set `display: none`. */
  function Hide(w: Widget): (r: Widget)
    requires WidgetOk(w)
    ensures WidgetOk(r)
    ensures Lookup(r.style, "display") == Some("none")
    ensures forall q :: q != "display" ==> Lookup(r.style, q) == Lookup(w.style, q)
    ensures r.saved == if w.saved.Some? then w.saved else Some(w.style)
  {
    Widget(SetProp(w.style, "display", "none"), if w.saved.Some? then w.saved else Some(w.style))
  }

  /** Unhiding: restore the saved style and drop the copy; without a copy, clear `display`. */
  function Unhide(w: Widget): (r: Widget)
    requires WidgetOk(w)
    ensures WidgetOk(r) && r.saved.None?
    ensures w.saved.Some? ==> r.style == w.saved.value
    ensures w.saved.None? ==> Lookup(r.style, "display").None?
                              && forall q :: q != "display" ==> Lookup(r.style, q) == Lookup(w.style, q)
  {
    if w.saved.Some? then Widget(w.saved.value, None) else Widget(SetProp(w.style, "display", ""), None)
  }

  /** Hiding and then unhiding a widget that had nothing saved gives it back unchanged. */
  lemma HideThenUnhide(w: Widget)
    requires WidgetOk(w) && w.saved.None?
    ensures Unhide(Hide(w)) == w
  {
  }

  /** Hiding twice is hiding once: the first original stays the saved one. */
  lemma HideIdempotent(w: Widget)
    requires WidgetOk(w)
    ensures Hide(Hide(w)) == Hide(w)
  {
    SetPropIdempotent(w.style, "display", "none");
  }

  /** The media-info bar's two widgets; either may be missing. */
  datatype Bar = Bar(stars: Option<Widget>, critic: Option<Widget>)

  predicate BarOk(b: Bar) {
    (b.stars.Some? ==> WidgetOk(b.stars.value)) && (b.critic.Some? ==> WidgetOk(b.critic.value))
  }

  function Apply(w: Option<Widget>, hidden: bool): (r: Option<Widget>)
    requires w.Some? ==> WidgetOk(w.value)
    ensures r.Some? <==> w.Some?
    ensures r.Some? ==> WidgetOk(r.value)
    ensures r.Some? ==> r.value == if hidden then Hide(w.value) else Unhide(w.value)
  {
    match w
    case None => None
    case Some(x) => Some(if hidden then Hide(x) else Unhide(x))
  }

  /** `setBuiltInStarsHidden(bar, hide)`; a missing bar is left alone. */
  function SetStarsHidden(bar: Option<Bar>, hidden: bool): (r: Option<Bar>)
    requires bar.Some? ==> BarOk(bar.value)
    ensures r.Some? <==> bar.Some?
    ensures r.Some? ==> BarOk(r.value)
    ensures r.Some? ==> (r.value.stars.Some? <==> bar.value.stars.Some?) && (r.value.critic.Some? <==> bar.value.critic.Some?)
    ensures r.Some? && r.value.stars.Some? ==>
              r.value.stars.value == if hidden then Hide(bar.value.stars.value) else Unhide(bar.value.stars.value)
    ensures r.Some? && r.value.critic.Some? ==>
              r.value.critic.value == if hidden then Hide(bar.value.critic.value) else Unhide(bar.value.critic.value)
  {
    match bar
    case None => None
    case Some(b) => Some(Bar(Apply(b.stars, hidden), Apply(b.critic, hidden)))
  }

  /** A bar nothing has been saved on comes back unchanged from hiding followed by unhiding. */
  lemma BarHideThenUnhide(bar: Option<Bar>)
    requires bar.Some? ==> BarOk(bar.value)
    requires bar.Some? && bar.value.stars.Some? ==> bar.value.stars.value.saved.None?
    requires bar.Some? && bar.value.critic.Some? ==> bar.value.critic.value.saved.None?
    ensures SetStarsHidden(SetStarsHidden(bar, true), false) == bar
  {
    if bar.Some? {
      if bar.value.stars.Some? { HideThenUnhide(bar.value.stars.value); }
      if bar.value.critic.Some? { HideThenUnhide(bar.value.critic.value); }
    }
  }

  /** Hiding an already hidden bar changes nothing, so `processLink` and `insertRatingRow` may both hide it. */
  lemma BarHideIdempotent(bar: Option<Bar>)
    requires bar.Some? ==> BarOk(bar.value)
    ensures SetStarsHidden(SetStarsHidden(bar, true), true) == SetStarsHidden(bar, true)
  {
    if bar.Some? {
      if bar.value.stars.Some? { HideIdempotent(bar.value.stars.value); }
      if bar.value.critic.Some? { HideIdempotent(bar.value.critic.value); }
    }
  }
}
