/**
 * The multi-select autocomplete of the Elsewhere settings dialog: typing
 * filters the options case-insensitively, the arrow keys move a highlight
 * through the shown options, Enter or a click adds the highlighted option
 * if it is not selected yet, and a tag's remove button takes it out again.
 */
module ElsewhereSelect {
  import opened Common
  import opened Text

  /**
   * The state the closure keeps: the option list, `selectedValues`, whether
   * the dropdown is shown, `filteredOptions` and `selectedIndex` (-1 for no
   * highlight). The text in the input box is not needed by any step.
   */
  datatype Picker = Picker(options: seq<string>, selected: seq<string>, open: bool,
                           shown: seq<string>, index: int)

  /** The keys `onkeydown` reacts to; every other key is `Other`. */
  datatype KeyPress = ArrowDown | ArrowUp | Enter | Escape | Other

  /**
   * What the model keeps true: the highlight is -1 or a shown option, the
   * selection has no repeats, and an open dropdown offers only unselected options.
   */
  predicate Valid(p: Picker) {
    -1 <= p.index < |p.shown|
    && Distinct(p.selected)
    && (p.open ==> forall i :: 0 <= i < |p.shown| ==> p.shown[i] !in p.selected)
  }

  /** The options offered for a query: those containing it, ignoring case, that are not selected yet. */
  function Matching(options: seq<string>, selected: seq<string>, query: string): (r: seq<string>)
    ensures forall o :: o in r <==> o in options && o !in selected && Includes(Lower(o), Lower(query))
    ensures |r| <= |options|
  {
    if options == [] then []
    else
      var o := options[0];
      (if Includes(Lower(o), Lower(query)) && o !in selected then [o] else [])
      + Matching(options[1..], selected, query)
  }

  /** The filter does not depend on the case the query was typed in. */
  lemma MatchingIgnoresCase(options: seq<string>, selected: seq<string>, query: string)
    ensures Matching(options, selected, Upper(query)) == Matching(options, selected, query)
  {
    LowerIgnoresCase(query);
  }

  /** `oninput`: an empty box hides the dropdown; otherwise the matches are shown with nothing highlighted. */
  function OnInput(p: Picker, value: string): (r: Picker)
    requires Valid(p)
    ensures Valid(r)
    ensures r.options == p.options && r.selected == p.selected
    ensures value == [] ==> !r.open && r.shown == p.shown && r.index == p.index
    ensures value != [] ==> r.open && r.index == -1 && r.shown == Matching(p.options, p.selected, value)
  {
    if |value| == 0 then p.(open := false)
    else p.(open := true, shown := Matching(p.options, p.selected, value), index := -1)
  }

  /** `selectOption`: add the option unless it is already selected, then clear and close. */
  function Select(p: Picker, o: string): (r: Picker)
    requires Valid(p)
    ensures Valid(r)
    ensures !r.open && r.index == -1 && r.options == p.options
    ensures forall x :: x in r.selected <==> x in p.selected || x == o
    ensures o in p.selected ==> r.selected == p.selected
    ensures o !in p.selected ==> r.selected == p.selected + [o]
  {
    var sel := if o in p.selected then p.selected else p.selected + [o];
    assert Distinct(sel) by {
      if o !in p.selected {
        forall i, j | 0 <= i < j < |sel| ensures sel[i] != sel[j] {
          if j == |p.selected| { assert sel[i] in p.selected; }
        }
      }
    }
    p.(selected := sel, open := false, index := -1)
  }

  /** `onkeydown`; a closed dropdown ignores every key. */
  function OnKey(p: Picker, k: KeyPress): (r: Picker)
    requires Valid(p)
    ensures Valid(r)
    ensures r.options == p.options
    ensures !p.open ==> r == p
    ensures p.open && k == ArrowDown ==> r.index == (if p.index + 1 < |p.shown| - 1 then p.index + 1 else |p.shown| - 1)
    ensures p.open && k == ArrowUp ==> r.index == (if p.index - 1 > -1 then p.index - 1 else -1)
    ensures p.open && k != Enter ==> r.selected == p.selected
    ensures p.open && k == Enter && 0 <= p.index ==> r.selected == p.selected + [p.shown[p.index]] && !r.open
    ensures p.open && k == Enter && p.index == -1 ==> r == p
  {
    if !p.open then p
    else match k
      case ArrowDown => p.(index := Min(p.index + 1, |p.shown| - 1))
      case ArrowUp => p.(index := Max(p.index - 1, -1))
      case Enter => if 0 <= p.index < |p.shown| then Select(p, p.shown[p.index]) else p
      case Escape => p.(open := false, index := -1)
      case Other => p
  }

  function Min(a: int, b: int): int {
    if a < b then a else b
  }

  function Max(a: int, b: int): int {
    if a > b then a else b
  }

  /** `onmouseenter` on the `i`-th shown option highlights it. */
  function Hover(p: Picker, i: nat): (r: Picker)
    requires Valid(p) && p.open && i < |p.shown|
    ensures Valid(r) && r.index == i && r.selected == p.selected
  {
    p.(index := i)
  }

  /** A click on the `i`-th shown option selects it. */
  function Click(p: Picker, i: nat): (r: Picker)
    requires Valid(p) && p.open && i < |p.shown|
    ensures Valid(r) && r.selected == p.selected + [p.shown[i]]
  {
    Select(p, p.shown[i])
  }

  /** The remove button on a tag: `indexOf` then `splice`, so the first occurrence goes. */
  function Remove(p: Picker, v: string): (r: Picker)
    requires Valid(p)
    ensures Valid(r)
    ensures forall x :: x in r.selected <==> x in p.selected && x != v
    ensures v in p.selected ==> |r.selected| == |p.selected| - 1
    ensures v !in p.selected ==> r == p
  {
    var sel := RemoveFirst(p.selected, v);
    p.(selected := sel)
  }

  function RemoveFirst(s: seq<string>, v: string): (r: seq<string>)
    requires Distinct(s)
    ensures Distinct(r)
    ensures forall x :: x in r <==> x in s && x != v
    ensures v in s ==> |r| == |s| - 1
    ensures v !in s ==> r == s
  {
    if s == [] then []
    else if s[0] == v then
      assert forall i :: 0 <= i < |s[1..]| ==> s[1..][i] == s[i + 1];
      s[1..]
    else
      var rest := RemoveFirst(s[1..], v);
      assert s[0] !in s[1..] by {
        forall i | 0 <= i < |s[1..]| ensures s[1..][i] != s[0] { assert s[1..][i] == s[i + 1]; }
      }
      assert Distinct(s[1..]) by {
        forall i, j | 0 <= i < j < |s[1..]| ensures s[1..][i] != s[1..][j] {
          assert s[1..][i] == s[i + 1] && s[1..][j] == s[j + 1];
        }
      }
      [s[0]] + rest
  }

  /** Pressing `k` `n` times. */
  function Presses(p: Picker, k: KeyPress, n: nat): (r: Picker)
    requires Valid(p)
    ensures Valid(r)
  {
    if n == 0 then p else OnKey(Presses(p, k, n - 1), k)
  }

  /** Arrowing down `n` times from no highlight stops at the last shown option. */
  lemma {:induction false} ArrowDownClamps(p: Picker, n: nat)
    requires Valid(p) && p.open && p.index == -1
    ensures Presses(p, ArrowDown, n).open
    ensures Presses(p, ArrowDown, n).shown == p.shown
    ensures Presses(p, ArrowDown, n).index == Min(n, |p.shown|) - 1
  {
    if n > 0 {
      ArrowDownClamps(p, n - 1);
    }
  }

  /** Up then down comes back to the same highlighted option. */
  lemma UpThenDown(p: Picker)
    requires Valid(p) && p.open && p.index >= 0
    ensures OnKey(OnKey(p, ArrowUp), ArrowDown) == p
  {
  }

  /** Selecting twice is selecting once. */
  lemma SelectIdempotent(p: Picker, o: string)
    requires Valid(p)
    ensures Select(Select(p, o), o) == Select(p, o)
  {
  }

  /** Enter on a highlighted option adds one value that was not selected before. */
  lemma EnterAddsNewValue(p: Picker)
    requires Valid(p) && p.open && 0 <= p.index
    ensures |OnKey(p, Enter).selected| == |p.selected| + 1
    ensures p.shown[p.index] !in p.selected
  {
  }

  /** Removing a value that was just selected restores the selection. */
  lemma SelectThenRemove(p: Picker, o: string)
    requires Valid(p) && o !in p.selected
    ensures Remove(Select(p, o), o).selected == p.selected
  {
    RemoveLast(p.selected, o);
  }

  lemma {:induction false} RemoveLast(s: seq<string>, o: string)
    requires Distinct(s + [o]) && o !in s
    ensures RemoveFirst(s + [o], o) == s
  {
    if s != [] {
      var t := s + [o];
      assert t[0] == s[0] && t[1..] == s[1..] + [o];
      assert Distinct(s[1..] + [o]) by {
        forall i, j | 0 <= i < j < |s[1..] + [o]| ensures (s[1..] + [o])[i] != (s[1..] + [o])[j] {
          assert (s[1..] + [o])[i] == t[i + 1] && (s[1..] + [o])[j] == t[j + 1];
        }
      }
      RemoveLast(s[1..], o);
      assert s == [s[0]] + s[1..];
    }
  }
}
