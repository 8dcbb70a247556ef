/**
 * The Elsewhere add-on's view of one region of TMDb's watch-provider data:
 * `getAllProvidersFromRegion` merges the provider lists of the included
 * categories into one entry per provider, tagged with every category that
 * lists it and with the best category priority, then sorts the entries.
 */
module ElsewhereProviders {
  import opened Common
  import opened StableSort

  /** The keys of `categoryConfig`, in its order. */
  datatype Category = Flatrate | Free | Ads | Rent | Buy

  /** `INCLUDE_RENT` and `INCLUDE_BUY` as shipped. */
  const IncludeRent: bool := true
  const IncludeBuy: bool := true

  /** A category's place in `categoryConfig`. */
  function Position(c: Category): nat {
    match c
    case Flatrate => 0
    case Free => 1
    case Ads => 2
    case Rent => 3
    case Buy => 4
  }

  /** Streaming categories come first (1), transactional ones after (2). */
  function Priority(c: Category): nat {
    if c.Rent? || c.Buy? then 2 else 1
  }

  /** The `include` flag of a category. */
  predicate Included(c: Category) {
    match c
    case Rent => IncludeRent
    case Buy => IncludeBuy
    case _ => true
  }

  /** One provider object of the TMDb response; `displayPriority` is `None` when the field is missing. */
  datatype Provider = Provider(id: int, name: string, displayPriority: Option<int>)

  /** A region's provider lists; a missing list reads as empty (`regionData[cat.key] || []`). */
  datatype RegionData = RegionData(flatrate: seq<Provider>, free: seq<Provider>, ads: seq<Provider>,
                                   rent: seq<Provider>, buy: seq<Provider>)

  function ListOf(rd: RegionData, c: Category): seq<Provider> {
    match c
    case Flatrate => rd.flatrate
    case Free => rd.free
    case Ads => rd.ads
    case Rent => rd.rent
    case Buy => rd.buy
  }

  // ------------------------------------------------ the visiting order

  /** A provider as met by the nested `forEach`, with the category it was listed under. */
  datatype Entry = Entry(cat: Category, provider: Provider)

  function Tag(c: Category, ps: seq<Provider>): (r: seq<Entry>)
    ensures |r| == |ps|
    ensures forall k :: 0 <= k < |r| ==> r[k] == Entry(c, ps[k])
  {
    seq(|ps|, k requires 0 <= k < |ps| => Entry(c, ps[k]))
  }

  function TagIf(rd: RegionData, c: Category): (r: seq<Entry>)
    ensures |r| == if Included(c) then |ListOf(rd, c)| else 0
    ensures forall k :: 0 <= k < |r| ==> r[k] == Entry(c, ListOf(rd, c)[k])
  {
    if Included(c) then Tag(c, ListOf(rd, c)) else []
  }

  /** The entries in the order the loops visit them: category by category in config order, skipping excluded ones. */
  function Entries(rd: RegionData): (r: seq<Entry>)
    ensures forall c, p :: Entry(c, p) in r <==> Included(c) && p in ListOf(rd, c)
    ensures ConfigOrdered(r)
  {
    var a, b, c, d, e := TagIf(rd, Flatrate), TagIf(rd, Free), TagIf(rd, Ads), TagIf(rd, Rent), TagIf(rd, Buy);
    var r := a + (b + (c + (d + e)));
    TagIfMembers(rd, Flatrate);
    TagIfMembers(rd, Free);
    TagIfMembers(rd, Ads);
    TagIfMembers(rd, Rent);
    TagIfMembers(rd, Buy);
    OrderedAppend(d, e, 3);
    OrderedAppend(c, d + e, 2);
    OrderedAppend(b, c + (d + e), 1);
    OrderedAppend(a, b + (c + (d + e)), 0);
    r
  }

  /** The categories of a sequence of entries never go back in config order. */
  predicate ConfigOrdered(e: seq<Entry>) {
    forall i, j :: 0 <= i < j < |e| ==> Position(e[i].cat) <= Position(e[j].cat)
  }

  lemma TagIfMembers(rd: RegionData, c: Category)
    ensures forall p :: Entry(c, p) in TagIf(rd, c) <==> Included(c) && p in ListOf(rd, c)
    ensures forall x :: x in TagIf(rd, c) ==> x.cat == c
  {
    var r := TagIf(rd, c);
    forall p | Included(c) && p in ListOf(rd, c) ensures Entry(c, p) in r {
      var k :| 0 <= k < |ListOf(rd, c)| && ListOf(rd, c)[k] == p;
      assert r[k] == Entry(c, p);
    }
  }

  lemma OrderedAppend(a: seq<Entry>, b: seq<Entry>, n: nat)
    requires forall x :: x in a ==> Position(x.cat) == n
    requires forall x :: x in b ==> Position(x.cat) > n
    requires ConfigOrdered(b)
    ensures ConfigOrdered(a + b)
  {
    var r := a + b;
    forall i, j | 0 <= i < j < |r| ensures Position(r[i].cat) <= Position(r[j].cat) {
      if j < |a| {
        assert r[i] in a && r[j] in a;
      } else if i < |a| {
        assert r[i] in a && r[j] in b;
      } else {
        assert r[i] == b[i - |a|] && r[j] == b[j - |a|];
      }
    }
  }

  // ------------------------------------------------ merging by provider id

  /** An entry of `providerMap`: the provider's own fields, its `categories` and its `sortPriority`. */
  datatype Merged = Merged(provider: Provider, categories: seq<Category>, sortPriority: nat)

  function Id(m: Merged): int {
    m.provider.id
  }

  /** Where `providerMap` keeps the provider with this id, if it has one. */
  function IndexOf(acc: seq<Merged>, id: int): (r: Option<nat>)
    ensures r.None? <==> forall i :: 0 <= i < |acc| ==> Id(acc[i]) != id
    ensures r.Some? ==> r.value < |acc| && Id(acc[r.value]) == id
  {
    if acc == [] then None
    else if Id(acc[0]) == id then Some(0)
    else match IndexOf(acc[1..], id)
      case None => None
      case Some(i) => Some(i + 1)
  }

  /** One step of the inner `forEach`: a new id is appended, a known one gains the category and keeps the lower priority. */
  function Add(acc: seq<Merged>, x: Entry): seq<Merged> {
    match IndexOf(acc, x.provider.id)
    case None => acc + [Merged(x.provider, [x.cat], Priority(x.cat))]
    case Some(i) =>
      var m := acc[i];
      acc[i := m.(categories := if x.cat in m.categories then m.categories else m.categories + [x.cat],
                  sortPriority := if Priority(x.cat) < m.sortPriority then Priority(x.cat) else m.sortPriority)]
  }

  /** `Array.from(providerMap.values())` after visiting `e`: the map keeps first-insertion order. */
  function Merge(e: seq<Entry>): (r: seq<Merged>)
    ensures |r| <= |e|
  {
    if e == [] then [] else Add(Merge(e[..|e| - 1]), e[|e| - 1])
  }

  /** Some entry lists provider `id` under category `c`. */
  predicate Lists(e: seq<Entry>, c: Category, id: int) {
    exists k :: 0 <= k < |e| && e[k].cat == c && e[k].provider.id == id
  }

  /** Some entry carries provider `id`. */
  predicate Seen(e: seq<Entry>, id: int) {
    exists k :: 0 <= k < |e| && e[k].provider.id == id
  }

  predicate IdsUnique(r: seq<Merged>) {
    forall i, j :: 0 <= i < j < |r| ==> Id(r[i]) != Id(r[j])
  }

  /** Every provider met so far has an entry. */
  predicate Covers(e: seq<Entry>, r: seq<Merged>) {
    forall k :: 0 <= k < |e| ==> IndexOf(r, e[k].provider.id).Some?
  }

  /** An entry's categories are exactly those it was listed under. */
  predicate CategoriesExact(e: seq<Entry>, r: seq<Merged>) {
    forall i, c :: 0 <= i < |r| ==> (c in r[i].categories <==> Lists(e, c, Id(r[i])))
  }

  /** `p` is the least priority among `cats`. */
  predicate IsMinPriority(cats: seq<Category>, p: nat) {
    (exists c :: c in cats && Priority(c) == p) && forall c :: c in cats ==> p <= Priority(c)
  }

  /** Categories are non-empty, without repeats, and `sortPriority` is their minimum. */
  predicate WellTagged(r: seq<Merged>) {
    forall i :: 0 <= i < |r| ==>
      r[i].categories != [] && Distinct(r[i].categories) && IsMinPriority(r[i].categories, r[i].sortPriority)
  }

  /** Each entry's fields are those of the first object seen with its id (the spread `...provider`). */
  predicate FirstObjects(e: seq<Entry>, r: seq<Merged>) {
    forall i :: 0 <= i < |r| ==>
      exists k :: 0 <= k < |e| && e[k].provider == r[i].provider && !Seen(e[..k], Id(r[i]))
  }

  /** An earlier entry's id was seen before any occurrence of a later entry's id. */
  predicate FirstSeenOrder(e: seq<Entry>, r: seq<Merged>) {
    forall i, j, k :: 0 <= i < j < |r| && 0 <= k < |e| && e[k].provider.id == Id(r[j]) ==> Seen(e[..k], Id(r[i]))
  }

  lemma ListsSnoc(e: seq<Entry>, x: Entry, c: Category, id: int)
    ensures Lists(e + [x], c, id) <==> Lists(e, c, id) || (x.cat == c && x.provider.id == id)
  {
    var e' := e + [x];
    if Lists(e, c, id) {
      var k :| 0 <= k < |e| && e[k].cat == c && e[k].provider.id == id;
      assert e'[k] == e[k];
    }
    if Lists(e', c, id) && !(x.cat == c && x.provider.id == id) {
      var k :| 0 <= k < |e'| && e'[k].cat == c && e'[k].provider.id == id;
      assert e'[k] == e[k];
    }
    assert e'[|e|] == x;
  }

  /** A provider without an entry has not been met. */
  lemma NotSeenYet(e: seq<Entry>, acc: seq<Merged>, id: int)
    requires Covers(e, acc) && IndexOf(acc, id).None?
    ensures !Seen(e, id)
    ensures forall c :: !Lists(e, c, id)
  {
    forall k | 0 <= k < |e| ensures e[k].provider.id != id {
      assert IndexOf(acc, e[k].provider.id).Some?;
    }
  }

  /** A provider with a category has been met. */
  lemma TaggedSeen(e: seq<Entry>, r: seq<Merged>, i: nat)
    requires CategoriesExact(e, r) && WellTagged(r) && i < |r|
    ensures Seen(e, Id(r[i]))
  {
    assert r[i].categories[0] in r[i].categories;
  }

  /** How one step changes the sequence: the ids and provider fields already there stay put. */
  lemma AddFrame(acc: seq<Merged>, x: Entry)
    ensures |acc| <= |Add(acc, x)| <= |acc| + 1
    ensures forall i :: 0 <= i < |acc| ==> Add(acc, x)[i].provider == acc[i].provider
    ensures IndexOf(acc, x.provider.id).None? ==> |Add(acc, x)| == |acc| + 1
                                                  && Add(acc, x)[|acc|] == Merged(x.provider, [x.cat], Priority(x.cat))
    ensures IndexOf(acc, x.provider.id).Some? ==> |Add(acc, x)| == |acc|
    ensures forall i :: 0 <= i < |acc| && Id(acc[i]) != x.provider.id ==> Add(acc, x)[i] == acc[i]
  {
  }

  lemma AddKeepsIds(e: seq<Entry>, acc: seq<Merged>, x: Entry)
    requires IdsUnique(acc) && Covers(e, acc)
    ensures IdsUnique(Add(acc, x)) && Covers(e + [x], Add(acc, x))
  {
    var e', r := e + [x], Add(acc, x);
    AddFrame(acc, x);
    forall k | 0 <= k < |e'| ensures IndexOf(r, e'[k].provider.id).Some? {
      var id := e'[k].provider.id;
      if k < |e| {
        assert e'[k] == e[k];
        var n := IndexOf(acc, id).value;
        assert Id(r[n]) == id;
      } else if IndexOf(acc, id).None? {
        assert Id(r[|acc|]) == id;
      } else {
        assert Id(r[IndexOf(acc, id).value]) == id;
      }
    }
  }

  lemma AddKeepsCategories(e: seq<Entry>, acc: seq<Merged>, x: Entry)
    requires IdsUnique(acc) && Covers(e, acc) && CategoriesExact(e, acc)
    ensures CategoriesExact(e + [x], Add(acc, x))
  {
    var e', r, id := e + [x], Add(acc, x), x.provider.id;
    AddFrame(acc, x);
    forall i, c | 0 <= i < |r| ensures c in r[i].categories <==> Lists(e', c, Id(r[i])) {
      ListsSnoc(e, x, c, Id(r[i]));
      if i == |acc| {
        NotSeenYet(e, acc, id);
      } else if Id(acc[i]) != id {
        assert r[i] == acc[i];
      } else {
        assert IndexOf(acc, id) == Some(i);
      }
    }
  }

  lemma AddKeepsTags(acc: seq<Merged>, x: Entry)
    requires WellTagged(acc)
    ensures WellTagged(Add(acc, x))
  {
    var r := Add(acc, x);
    AddFrame(acc, x);
    match IndexOf(acc, x.provider.id)
    case None =>
      assert IsMinPriority([x.cat], Priority(x.cat)) by { assert x.cat in [x.cat]; }
    case Some(n) =>
      var m := acc[n];
      var cs := r[n].categories;
      assert Distinct(cs) by {
        if x.cat !in m.categories {
          forall a, b | 0 <= a < b < |cs| ensures cs[a] != cs[b] {
            if b == |m.categories| { assert cs[a] == m.categories[a]; }
            else { assert cs[a] == m.categories[a] && cs[b] == m.categories[b]; }
          }
        }
      }
      assert IsMinPriority(cs, r[n].sortPriority) by {
        assert x.cat in cs;
        var c0 :| c0 in m.categories && Priority(c0) == m.sortPriority;
        assert c0 in cs;
      }
  }

  /** The merged providers after visiting `e`, characterised without the loop. */
  lemma {:induction false} MergeSummarises(e: seq<Entry>)
    ensures IdsUnique(Merge(e)) && Covers(e, Merge(e))
    ensures CategoriesExact(e, Merge(e)) && WellTagged(Merge(e))
  {
    if e != [] {
      var n := |e| - 1;
      assert e[..n] + [e[n]] == e;
      MergeSummarises(e[..n]);
      AddKeepsIds(e[..n], Merge(e[..n]), e[n]);
      AddKeepsCategories(e[..n], Merge(e[..n]), e[n]);
      AddKeepsTags(Merge(e[..n]), e[n]);
    }
  }

  lemma AddKeepsFirstObjects(e: seq<Entry>, acc: seq<Merged>, x: Entry)
    requires Covers(e, acc) && FirstObjects(e, acc)
    ensures FirstObjects(e + [x], Add(acc, x))
  {
    var e', r := e + [x], Add(acc, x);
    AddFrame(acc, x);
    forall i | 0 <= i < |r| ensures exists k :: 0 <= k < |e'| && e'[k].provider == r[i].provider && !Seen(e'[..k], Id(r[i])) {
      var k := FirstObjectAfter(e, acc, x, i);
    }
  }

  /** Where the object behind entry `i` was first met, after a step. */
  lemma FirstObjectAfter(e: seq<Entry>, acc: seq<Merged>, x: Entry, i: nat) returns (k: nat)
    requires Covers(e, acc) && FirstObjects(e, acc) && i < |Add(acc, x)|
    ensures k < |e + [x]| && (e + [x])[k].provider == Add(acc, x)[i].provider && !Seen((e + [x])[..k], Id(Add(acc, x)[i]))
  {
    var e' := e + [x];
    AddFrame(acc, x);
    if i < |acc| {
      k :| 0 <= k < |e| && e[k].provider == acc[i].provider && !Seen(e[..k], Id(acc[i]));
      assert e'[..k] == e[..k] && e'[k] == e[k];
    } else {
      NotSeenYet(e, acc, x.provider.id);
      k := |e|;
      assert e'[|e|] == x && e'[..|e|] == e;
    }
  }

  lemma AddKeepsFirstSeenOrder(e: seq<Entry>, acc: seq<Merged>, x: Entry)
    requires Covers(e, acc) && CategoriesExact(e, acc) && WellTagged(acc) && FirstSeenOrder(e, acc)
    ensures FirstSeenOrder(e + [x], Add(acc, x))
  {
    var e', r := e + [x], Add(acc, x);
    forall i, j, k | 0 <= i < j < |r| && 0 <= k < |e'| && e'[k].provider.id == Id(r[j]) ensures Seen(e'[..k], Id(r[i])) {
      FirstSeenTriple(e, acc, x, i, j, k);
    }
  }

  /** One triple of the order after a step: the earlier provider was met before the entry naming the later one. */
  lemma FirstSeenTriple(e: seq<Entry>, acc: seq<Merged>, x: Entry, i: nat, j: nat, k: nat)
    requires Covers(e, acc) && CategoriesExact(e, acc) && WellTagged(acc) && FirstSeenOrder(e, acc)
    requires i < j < |Add(acc, x)| && k <= |e| && (e + [x])[k].provider.id == Id(Add(acc, x)[j])
    ensures Seen((e + [x])[..k], Id(Add(acc, x)[i]))
  {
    if k == |e| {
      FirstSeenLast(e, acc, x, i, j);
    } else {
      assert (e + [x])[k] == e[k];
      FirstSeenEarlier(e, acc, x, i, j, k);
    }
  }

  lemma FirstSeenLast(e: seq<Entry>, acc: seq<Merged>, x: Entry, i: nat, j: nat)
    requires CategoriesExact(e, acc) && WellTagged(acc) && i < j < |Add(acc, x)|
    ensures Seen((e + [x])[..|e|], Id(Add(acc, x)[i]))
  {
    AddFrame(acc, x);
    assert Id(Add(acc, x)[i]) == Id(acc[i]);
    assert (e + [x])[..|e|] == e;
    TaggedSeen(e, acc, i);
  }

  lemma FirstSeenEarlier(e: seq<Entry>, acc: seq<Merged>, x: Entry, i: nat, j: nat, k: nat)
    requires Covers(e, acc) && FirstSeenOrder(e, acc)
    requires i < j < |Add(acc, x)| && k < |e| && e[k].provider.id == Id(Add(acc, x)[j])
    ensures Seen((e + [x])[..k], Id(Add(acc, x)[i]))
  {
    AddFrame(acc, x);
    assert Id(Add(acc, x)[i]) == Id(acc[i]);
    assert (e + [x])[..k] == e[..k];
    FirstSeenStep(e, acc, x, i, j, k);
  }


  /** An entry met before the step names a provider that was already merged, after every provider merged before it. */
  lemma FirstSeenStep(e: seq<Entry>, acc: seq<Merged>, x: Entry, i: nat, j: nat, k: nat)
    requires Covers(e, acc) && FirstSeenOrder(e, acc)
    requires i < j < |Add(acc, x)| && k < |e| && e[k].provider.id == Id(Add(acc, x)[j])
    ensures Seen(e[..k], Id(acc[i]))
  {
    AddFrame(acc, x);
    if j == |acc| {
      assert false;
    }
    SeenBefore(e, acc, i, j, k);
  }

  lemma SeenBefore(e: seq<Entry>, acc: seq<Merged>, i: nat, j: nat, k: nat)
    requires FirstSeenOrder(e, acc) && i < j < |acc| && k < |e| && e[k].provider.id == Id(acc[j])
    ensures Seen(e[..k], Id(acc[i]))
  {
  }

  /** Entries appear in the order their ids were first met, each with the fields of that first object. */
  lemma {:induction false} MergeFirstSeen(e: seq<Entry>)
    ensures FirstObjects(e, Merge(e)) && FirstSeenOrder(e, Merge(e))
  {
    if e != [] {
      var n := |e| - 1;
      assert e[..n] + [e[n]] == e;
      MergeFirstSeen(e[..n]);
      MergeSummarises(e[..n]);
      AddKeepsFirstObjects(e[..n], Merge(e[..n]), e[n]);
      AddKeepsFirstSeenOrder(e[..n], Merge(e[..n]), e[n]);
    }
  }

  /** Categories are appended in the order entries arrive, so config-ordered entries give config-ordered tags. */
  predicate CategoriesOrdered(r: seq<Merged>) {
    forall i, a, b :: 0 <= i < |r| && 0 <= a < b < |r[i].categories| ==>
      Position(r[i].categories[a]) < Position(r[i].categories[b])
  }

  lemma AddKeepsOrdered(e: seq<Entry>, acc: seq<Merged>, x: Entry)
    requires CategoriesExact(e, acc) && CategoriesOrdered(acc)
    requires forall k :: 0 <= k < |e| ==> Position(e[k].cat) <= Position(x.cat)
    ensures CategoriesOrdered(Add(acc, x))
  {
    var r := Add(acc, x);
    AddFrame(acc, x);
    if IndexOf(acc, x.provider.id).Some? {
      var n := IndexOf(acc, x.provider.id).value;
      var cs := acc[n].categories;
      if x.cat !in cs {
        forall a | 0 <= a < |cs| ensures Position(cs[a]) < Position(x.cat) {
          assert cs[a] in cs;
          var k :| 0 <= k < |e| && e[k].cat == cs[a] && e[k].provider.id == Id(acc[n]);
        }
        forall i, a, b | 0 <= i < |r| && 0 <= a < b < |r[i].categories|
          ensures Position(r[i].categories[a]) < Position(r[i].categories[b])
        {
          if i == n && b == |cs| {
            assert r[i].categories[a] == cs[a];
          } else if i == n {
            assert r[i].categories[a] == cs[a] && r[i].categories[b] == cs[b];
          }
        }
      }
    }
  }

  lemma {:induction false} MergeCategoriesOrdered(e: seq<Entry>)
    requires ConfigOrdered(e)
    ensures CategoriesOrdered(Merge(e))
  {
    if e != [] {
      var n := |e| - 1;
      assert e[..n] + [e[n]] == e;
      MergeCategoriesOrdered(e[..n]);
      MergeSummarises(e[..n]);
      AddKeepsOrdered(e[..n], Merge(e[..n]), e[n]);
    }
  }

  // ------------------------------------------------ sorting

  /** `a.display_priority || 999`: a missing or zero priority sorts as 999. */
  function DisplayRank(p: Option<int>): int {
    if p.None? || p.value == 0 then 999 else p.value
  }

  /** The comparator of `getAllProvidersFromRegion`: `sortPriority`, then display priority. */
  function SortKey(m: Merged): Key {
    Key(m.sortPriority, DisplayRank(m.provider.displayPriority))
  }

  /** `getAllProvidersFromRegion`. */
  function AllProviders(rd: RegionData): (r: seq<Merged>)
    ensures SortedBy(r, SortKey)
    ensures multiset(r) == multiset(Merge(Entries(rd)))
    ensures forall k :: WithKey(r, SortKey, k) == WithKey(Merge(Entries(rd)), SortKey, k)
  {
    Sort(Merge(Entries(rd)), SortKey)
  }

  /** Each provider id occurs at most once in the result. */
  lemma ProvidersUnique(rd: RegionData)
    ensures IdsUnique(AllProviders(rd))
  {
    MergeSummarises(Entries(rd));
    PermutationKeepsIds(Merge(Entries(rd)), AllProviders(rd));
  }

  lemma PermutationKeepsIds(a: seq<Merged>, b: seq<Merged>)
    requires multiset(a) == multiset(b) && IdsUnique(a)
    ensures IdsUnique(b)
  {
    assert Distinct(a) by {
      forall i, j | 0 <= i < j < |a| ensures a[i] != a[j] { assert Id(a[i]) != Id(a[j]); }
    }
    PermutationKeepsDistinct(a, b);
    forall i, j | 0 <= i < j < |b| ensures Id(b[i]) != Id(b[j]) {
      assert b[i] in multiset(a) && b[j] in multiset(a);
      var x :| 0 <= x < |a| && a[x] == b[i];
      var y :| 0 <= y < |a| && a[y] == b[j];
    }
  }

  /** An element of the sorted result is one of the merged entries. */
  lemma FromMerge(rd: RegionData, m: Merged) returns (i: nat)
    requires m in AllProviders(rd)
    ensures i < |Merge(Entries(rd))| && Merge(Entries(rd))[i] == m
  {
    assert m in multiset(AllProviders(rd));
    i :| 0 <= i < |Merge(Entries(rd))| && Merge(Entries(rd))[i] == m;
  }

  /** Being listed by an entry is being listed in the region data under an included category. */
  lemma ListsIff(rd: RegionData, c: Category, id: int)
    ensures Lists(Entries(rd), c, id) <==> Included(c) && exists q :: q in ListOf(rd, c) && q.id == id
  {
    var e := Entries(rd);
    if Lists(e, c, id) {
      var q := ListedProvider(e, c, id);
      assert Entry(c, q) in e;
    }
    if Included(c) && exists q :: q in ListOf(rd, c) && q.id == id {
      var q :| q in ListOf(rd, c) && q.id == id;
      assert Entry(c, q) in e;
      ListedBy(e, c, q);
    }
  }

  /** The provider object behind a listing. */
  lemma ListedProvider(e: seq<Entry>, c: Category, id: int) returns (q: Provider)
    requires Lists(e, c, id)
    ensures Entry(c, q) in e && q.id == id
  {
    var k :| 0 <= k < |e| && e[k].cat == c && e[k].provider.id == id;
    q := e[k].provider;
    assert e[k] == Entry(c, q);
  }

  lemma ListedBy(e: seq<Entry>, c: Category, q: Provider)
    requires Entry(c, q) in e
    ensures Lists(e, c, q.id)
  {
    var k :| 0 <= k < |e| && e[k] == Entry(c, q);
  }

  /** Every provider listed under an included category is in the result. */
  lemma ProvidersComplete(rd: RegionData, c: Category, p: Provider)
    requires Included(c) && p in ListOf(rd, c)
    ensures exists m :: m in AllProviders(rd) && Id(m) == p.id
  {
    var e, ms := Entries(rd), Merge(Entries(rd));
    MergeSummarises(e);
    assert Entry(c, p) in e;
    var k :| 0 <= k < |e| && e[k] == Entry(c, p);
    var i := IndexOf(ms, p.id).value;
    assert ms[i] in multiset(AllProviders(rd));
  }

  /**
   * A provider's categories are exactly the included categories that list it,
   * each once and in config order, and its priority is the best among them;
   * so nothing appears that no included category lists.
   */
  lemma ProviderCategories(rd: RegionData, m: Merged)
    requires m in AllProviders(rd)
    ensures forall c :: c in m.categories <==> Included(c) && exists q :: q in ListOf(rd, c) && q.id == Id(m)
    ensures forall a, b :: 0 <= a < b < |m.categories| ==> Position(m.categories[a]) < Position(m.categories[b])
    ensures m.categories != [] && IsMinPriority(m.categories, m.sortPriority)
  {
    var e := Entries(rd);
    MergeSummarises(e);
    MergeCategoriesOrdered(e);
    var i := FromMerge(rd, m);
    forall c ensures c in m.categories <==> Included(c) && exists q :: q in ListOf(rd, c) && q.id == Id(m) {
      ListsIff(rd, c, Id(m));
    }
  }

  /** Among providers with the same sort key, whichever the loops met first comes first. */
  lemma TiesInFirstSeenOrder(rd: RegionData, k: Key)
    ensures FirstSeenOrder(Entries(rd), WithKey(AllProviders(rd), SortKey, k))
  {
    var e := Entries(rd);
    MergeFirstSeen(e);
    WithKeyKeepsOrder(e, Merge(e), k);
  }

  lemma {:induction false} WithKeyKeepsOrder(e: seq<Entry>, s: seq<Merged>, k: Key)
    requires FirstSeenOrder(e, s)
    ensures FirstSeenOrder(e, WithKey(s, SortKey, k))
    ensures forall m :: m in WithKey(s, SortKey, k) ==> m in s
  {
    if s != [] {
      var tail := s[1..];
      assert FirstSeenOrder(e, tail) by {
        forall i, j, q | 0 <= i < j < |tail| && 0 <= q < |e| && e[q].provider.id == Id(tail[j])
          ensures Seen(e[..q], Id(tail[i]))
        {
          assert tail[i] == s[i + 1] && tail[j] == s[j + 1];
        }
      }
      WithKeyKeepsOrder(e, tail, k);
      var w := WithKey(tail, SortKey, k);
      if SortKey(s[0]) == k {
        var r := [s[0]] + w;
        forall i, j, q | 0 <= i < j < |r| && 0 <= q < |e| && e[q].provider.id == Id(r[j])
          ensures Seen(e[..q], Id(r[i]))
        {
          assert r[j] == w[j - 1] && r[j] in tail;
          var t :| 0 <= t < |tail| && tail[t] == r[j];
          assert s[t + 1] == r[j];
          if i > 0 { assert r[i] == w[i - 1]; }
        }
      }
    }
  }
}
