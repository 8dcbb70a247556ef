/**
 * The rating-colour add-on: content ratings shown on Emby pages (`FSK-12`,
 * `PG-13`, `TV-MA`, …) are looked up, by their trimmed upper-case text, in
 * a table built from colour groups, and tagged with their group so a style
 * rule colours them. Each element is looked at once.
 */
module MediaRatings {
  import opened Common
  import opened Text

  /** `COLORS`: each group's background and border colour, in declaration order. */
  const Colors: seq<(string, (string, string))> := [
    ("green", ("#2E7D32", "transparent")),
    ("yellow", ("#daa520", "transparent")),
    ("orange", ("#E65100", "transparent")),
    ("redOrange", ("#ff0000", "transparent")),
    ("red", ("#800000", "transparent")),
    ("pink", ("#880E4F", "transparent")),
    ("purple", ("#6A1B9A", "transparent")),
    ("blue", ("#1565C0", "transparent")),
    ("grey", ("#616161", "transparent"))
  ]

  const Groups: seq<(string, seq<string>)> := [
    ("green", [
      "AR-ATP", "AU-C", "AU-G", "AU-P", "P", "AT-0", "BE-KT", "BR-L", "C8", "CA-C", "CA-C8",
      "CA-G", "C", "CH-0", "CN-G", "CZ-U", "DK-A", "FI-S", "FR-U", "DE-0", "FSK-0", "GR-K",
      "HU-KN", "IN-U", "U", "ID-SU", "IE-G", "G", "IL-G", "IT-T", "JP-G", "KR-ALL", "MY-U",
      "MX-AA", "NL-AL", "NZ-G", "NO-6", "NO-A", "PH-G", "PL-B/O", "PT-M/4", "RU-0+", "SG-G",
      "ZA-A", "ES-APTA", "SE-BTL", "TH-G", "TR-G", "GB-U", "UK-U", "APPROVED", "PASSED", "TV-G",
      "TV-Y", "TV-Y7", "VN-P"
    ]),
    ("yellow", [
      "AR-13", "AU-PG", "PG", "AT-6", "BE-6", "BR-12", "CA-PG", "CH-6", "CZ-12", "DK-7", "FI-K-7",
      "FR-10", "FR--10", "DE-6", "FSK-6", "GR-K-12", "HU-6", "IN-UA", "IN-UA-7", "IN-U/A 7+",
      "IN-UA-13", "IN-U/A 13+", "IN-UA-16", "IN-U/A 16+", "ID-BO", "IE-PG", "IE-12", "IE-12A",
      "12A", "IL-PG", "IT-VM6", "JP-PG12", "KR-12", "MY-P13", "MX-A", "NL-6", "NZ-PG", "NO-9",
      "NO-12", "PH-PG", "PL-7", "PT-M/6", "RU-6+", "SG-PG", "ZA-PG", "ES-7", "SE-7", "TH-PG13",
      "TR-PG", "GB-PG", "GB-12", "GB-12A", "UK-PG", "UK-12", "UK-12A", "12", "TV-PG", "GP", "10"
    ]),
    ("orange", [
      "AR-16", "AU-M", "M", "AT-10", "BE-9", "BR-14", "14+", "CA-14+", "CA-13+", "CH-10",
      "CN-PG-13", "CZ-15", "DK-11", "FI-K-12", "FR-12", "FR--12", "DE-12", "FSK-12", "GR-K-15",
      "HU-12", "ID-13+", "IE-15A", "15A", "IL-14", "IT-VM14", "JP-R15+", "KR-15", "MX-B", "NL-9",
      "NZ-M", "NO-15", "PH-PG-13", "PL-12", "PT-M/12", "RU-12+", "SG-PG13", "ZA-10-12PG", "ES-12",
      "SE-11", "TH-15", "TR-12", "GB-15", "UK-15", "15", "PG-13", "TV-14", "VN-T13", "-12"
    ]),
    ("redOrange", [
      "MA15+", "AU-MA15+", "AT-14", "BE-12", "BR-16", "CA-16+", "CH-14", "FI-K-16", "FR-16",
      "FR--16", "DE-16", "FSK-16", "HU-16", "ID-17+", "IE-16", "IL-16", "MX-B15", "NL-12",
      "NZ-R13", "PH-R-16", "PL-15", "PT-M/16", "RU-16+", "SG-NC16", "ZA-13", "ES-16", "SE-15",
      "TR-15", "VN-T16", "16+", "MA 15+", "16", "-16", "M16"
    ]),
    ("red", [
      "AR-18", "AU-R18+", "R18+", "AT-16", "BE-16", "BR-18", "18+", "CA-18+", "CH-16", "CN-R",
      "CZ-18", "DK-15", "FI-K-18", "FR-18", "FR--18", "DE-18", "FSK-18", "GR-K-17", "HU-18",
      "IN-A", "ID-21+", "IE-18", "18", "IL-18", "IT-VM18", "JP-R18+", "KR-19", "KR-R", "MY-18",
      "MX-C", "NL-16", "NZ-R15", "NZ-R16", "NO-18", "PH-R-18", "PL-18", "PT-M/18", "RU-18+",
      "SG-M18", "ZA-16", "ES-18", "TH-18", "TR-18", "GB-18", "UK-18", "R", "TV-MA"
    ]),
    ("pink", [
      "AU-X18+", "X18+", "CH-18", "MX-D", "NZ-R18", "SG-R21", "ZA-18", "TH-20", "GB-R18", "UK-R18",
      "R18", "NC-17", "X"
    ]),
    ("purple", [
      "IN-S"
    ]),
    ("blue", [
      "EXEMPT", "EDUCATIONAL", "INFORMATIONAL"
    ]),
    ("grey", [
      "UNRATED", "NOT RATED", "NR", "UR", "NONE"
    ])
  ]

  // ------------------------------------------------ the lookup table

  /** Group `g` lists a rating whose upper-case form is `k`. */
  predicate Contains(g: (string, seq<string>), k: string) {
    exists j :: 0 <= j < |g.1| && Upper(g.1[j]) == k
  }

  /** The inner `forEach`: every rating of one group, upper-cased, now maps to the group. */
  function AddGroup(m: map<string, string>, name: string, ratings: seq<string>): (r: map<string, string>)
    ensures forall k :: k in r <==> k in m || Contains((name, ratings), k)
    ensures forall k :: Contains((name, ratings), k) ==> r[k] == name
    ensures forall k :: k in m && !Contains((name, ratings), k) ==> r[k] == m[k]
    decreases |ratings|
  {
    if ratings == [] then m
    else
      var n := |ratings| - 1;
      var prev := AddGroup(m, name, ratings[..n]);
      assert forall k :: Contains((name, ratings), k) <==> Contains((name, ratings[..n]), k) || Upper(ratings[n]) == k by {
        forall k | Contains((name, ratings), k) ensures Contains((name, ratings[..n]), k) || Upper(ratings[n]) == k {
          var j :| 0 <= j < |ratings| && Upper(ratings[j]) == k;
          if j < n { assert ratings[..n][j] == ratings[j]; }
        }
        forall k | Contains((name, ratings[..n]), k) ensures Contains((name, ratings), k) {
          var j :| 0 <= j < n && Upper(ratings[..n][j]) == k;
          assert ratings[..n][j] == ratings[j];
        }
      }
      prev[Upper(ratings[n]) := name]
  }

  /** `MAP`: the groups in declaration order, so a later group overwrites an earlier one. */
  function BuildMap(groups: seq<(string, seq<string>)>): (r: map<string, string>)
    ensures forall k :: k in r <==> exists i :: 0 <= i < |groups| && Contains(groups[i], k)
    decreases |groups|
  {
    if groups == [] then map[]
    else
      var n := |groups| - 1;
      var prev := BuildMap(groups[..n]);
      var r := AddGroup(prev, groups[n].0, groups[n].1);
      assert forall k :: k in r <==> exists i :: 0 <= i < |groups| && Contains(groups[i], k) by {
        forall k | k in r ensures exists i :: 0 <= i < |groups| && Contains(groups[i], k) {
          if k in prev {
            var i :| 0 <= i < n && Contains(groups[..n][i], k);
            assert groups[..n][i] == groups[i];
          } else {
            assert Contains(groups[n], k);
          }
        }
        forall k | exists i :: 0 <= i < |groups| && Contains(groups[i], k) ensures k in r {
          var i :| 0 <= i < |groups| && Contains(groups[i], k);
          if i < n { assert groups[..n][i] == groups[i]; }
        }
      }
      r
  }

  /** The reference reading: the name of the last group listing the rating. */
  function LastGroup(groups: seq<(string, seq<string>)>, k: string): (r: Option<string>)
    ensures r.Some? <==> exists i :: 0 <= i < |groups| && Contains(groups[i], k)
    ensures r.Some? ==> exists i :: 0 <= i < |groups| && Contains(groups[i], k) && r.value == groups[i].0
                                    && forall i' :: i < i' < |groups| ==> !Contains(groups[i'], k)
    decreases |groups|
  {
    if groups == [] then None
    else
      var n := |groups| - 1;
      if Contains(groups[n], k) then Some(groups[n].0)
      else
        var r := LastGroup(groups[..n], k);
        assert forall i :: 0 <= i < n ==> groups[..n][i] == groups[i];
        r
  }

  /** The table gives each rating the last group that lists it, and knows no other keys. */
  lemma {:induction false} MapIsLastGroup(groups: seq<(string, seq<string>)>, k: string)
    ensures k in BuildMap(groups) <==> LastGroup(groups, k).Some?
    ensures k in BuildMap(groups) ==> BuildMap(groups)[k] == LastGroup(groups, k).value
    decreases |groups|
  {
    if groups != [] {
      var n := |groups| - 1;
      MapIsLastGroup(groups[..n], k);
    }
  }

  /** Every key of the table is the upper-case form of a rating some group lists. */
  lemma MapKeysFromGroups(groups: seq<(string, seq<string>)>, k: string)
    requires k in BuildMap(groups)
    ensures exists i, j :: 0 <= i < |groups| && 0 <= j < |groups[i].1| && k == Upper(groups[i].1[j])
  {
    var i :| 0 <= i < |groups| && Contains(groups[i], k);
  }

  /** A rating listed by two groups takes the later one. */
  lemma LaterGroupWins(groups: seq<(string, seq<string>)>, i: nat, i': nat, k: string)
    requires i < i' < |groups| && Contains(groups[i], k) && Contains(groups[i'], k)
    requires forall m :: i' < m < |groups| ==> !Contains(groups[m], k)
    ensures BuildMap(groups)[k] == groups[i'].0
  {
    MapIsLastGroup(groups, k);
    var last := LastGroup(groups, k).value;
    var j :| 0 <= j < |groups| && Contains(groups[j], k) && last == groups[j].0
             && forall m :: j < m < |groups| ==> !Contains(groups[m], k);
    assert j == i';
  }

  // ------------------------------------------------ the style sheet

  /** The rule colouring one group: background and border of the elements tagged with its name. */
  function Rule(c: (string, (string, string))): string {
    ".mediaInfoItem[data-rating-group=\"" + c.0 + "\"]{background:" + c.1.0 + "!important;border-color:" + c.1.1 + "!important}"
  }

  /** The `Object.entries(COLORS).forEach` loop: one rule per colour, in order. */
  function ColorRules(colors: seq<(string, (string, string))>): (r: seq<string>)
    ensures |r| == |colors|
    ensures forall i :: 0 <= i < |r| ==> r[i] == Rule(colors[i])
  {
    seq(|colors|, i requires 0 <= i < |colors| => Rule(colors[i]))
  }

  /** No colour is declared twice: each tag is coloured by at most one rule. */
  lemma ColoursDistinct()
    ensures Distinct(Firsts(Colors))
  {
    assert Firsts(Colors) == ["green", "yellow", "orange", "redOrange", "red", "pink", "purple", "blue", "grey"];
  }

  /** Every group has a colour, at the same place in the declaration. */
  lemma EveryGroupColoured()
    ensures |Groups| == |Colors|
    ensures forall i :: 0 <= i < |Groups| ==> Colors[i].0 == Groups[i].0
  {
    assert Firsts(Groups) == Firsts(Colors);
  }

  // ------------------------------------------------ tagging

  /** A `.mediaInfoItem`: its text, whether it carries `data-rp`, and its `data-rating-group`. */
  datatype Item = Item(text: string, marked: bool, group: Option<string>)

  /** What the table is asked: the trimmed text in upper case. */
  function Key(text: string): string {
    Upper(Trim(text))
  }

  /** The lookup does not see the case the rating is written in. */
  lemma KeyIgnoresCase(text: string)
    ensures Key(Lower(text)) == Key(text)
  {
    TrimLower(text);
    UpperIgnoresCase(Trim(text));
  }

  /** Nor white space around it. */
  lemma KeyIgnoresPadding(a: string, text: string, b: string)
    requires AllSpace(a) && AllSpace(b)
    ensures Key(a + text + b) == Key(text)
  {
    TrimIgnoresPadding(a, text, b);
  }

  /** One element: an unmarked one is marked and, if the table knows its text, tagged with the group. */
  function Tag(m: map<string, string>, e: Item): (r: Item)
    ensures r.marked && r.text == e.text
    ensures e.marked ==> r == e
    ensures !e.marked ==> r.group == Found(m, Key(e.text), e.group)
  {
    if e.marked then e else Item(e.text, true, Found(m, Key(e.text), e.group))
  }

  /** `if (group)`: the group the table gives a key, if any and non-empty; otherwise the old tag. */
  function Found(m: map<string, string>, key: string, prior: Option<string>): (r: Option<string>)
    ensures key in m && m[key] != [] ==> r == Some(m[key])
    ensures key !in m || m[key] == [] ==> r == prior
  {
    if key in m && m[key] != [] then Some(m[key]) else prior
  }

  /** `processRatings` over the page's rating elements. */
  function ProcessRatings(m: map<string, string>, items: seq<Item>): (r: seq<Item>)
    requires forall k :: k in m ==> m[k] != []
    ensures |r| == |items|
    ensures forall i :: 0 <= i < |r| ==> r[i] == Tag(m, items[i])
  {
    seq(|items|, i requires 0 <= i < |items| => Tag(m, items[i]))
  }

  /** Every value of the table is a group name, and none is empty. */
  lemma MapValuesAreNames(groups: seq<(string, seq<string>)>, k: string)
    requires k in BuildMap(groups)
    ensures exists i :: 0 <= i < |groups| && BuildMap(groups)[k] == groups[i].0
  {
    MapIsLastGroup(groups, k);
  }

  /** Running the pass twice is running it once. */
  lemma ProcessRatingsIdempotent(m: map<string, string>, items: seq<Item>)
    requires forall k :: k in m ==> m[k] != []
    ensures ProcessRatings(m, ProcessRatings(m, items)) == ProcessRatings(m, items)
  {
  }

  /** A fresh element ends up tagged exactly when the table knows its text, and with that group. */
  lemma FreshItemTagged(m: map<string, string>, text: string)
    requires forall k :: k in m ==> m[k] != []
    ensures Tag(m, Item(text, false, None)).group.Some? <==> Key(text) in m
    ensures Key(text) in m ==> Tag(m, Item(text, false, None)).group == Some(m[Key(text)])
  {
  }
}
