/** The card view of the collection: the type list built at load time, the
    catalog search, the choice of what the grid shows, the mapping of catalog
    records to cards, and the catch and release handlers. */
module DashboardPage {
  import opened Common
  import opened Seqs
  import opened Text
  import opened Sorting

  /** A JavaScript number as an id of this view can hold it: an integer, or
      `NaN` when `parseInt` finds no digit. */
  datatype Num = Int(value: int) | NaN

  /** `a === b` on numbers: `NaN` equals nothing, itself included. */
  predicate SameNum(a: Num, b: Num) {
    a.Int? && b.Int? && a.value == b.value
  }

  /** An owned item, or a catalog record mapped to the same shape. */
  datatype Pokemon = Pokemon(id: Num, name: string, imageUrl: string, types: seq<string>,
                             height: real, weight: real, abilities: seq<string>)

  /** A catalog detail record as this view reads it: every field it reaches
      through `?.` or `||` may be missing. Height is in decimetres, weight in
      hectograms. */
  datatype CatalogRecord = CatalogRecord(id: int, name: string, url: Option<string>,
                                         frontSprite: Option<string>,
                                         types: Option<seq<TypeSlot>>,
                                         height: Option<real>, weight: Option<real>,
                                         abilities: Option<seq<AbilitySlot>>)

  /** `DisplayPokemon`: either shape. */
  datatype DisplayItem = Owned(p: Pokemon) | FromCatalog(c: CatalogRecord)

  /** `isPokeAPIPokemon`: the `'url' in pokemon` test, which only the catalog
      shape passes. */
  predicate IsPokeAPIPokemon(d: DisplayItem) {
    d.FromCatalog?
  }

  const LoadFailed := "Nem sikerült betölteni a pokémonokat"
  const CatchFailed := "Nem sikerült elkapni a pokémont"
  const ReleaseFailed := "Nem sikerült elengedni a pokémont"
  const NoSearchMatch := "Nincs találat a keresési feltételeknek megfelelően."
  const NoTypeMatch := "Nincs találat a kiválasztott típusra."
  const NothingOwned := "Nincs elérhető pokémon."

  /* ---------------- the type list ---------------- */

  /** The types of the loaded items: `Array.from` of a `Set` filled by two
      nested `forEach` loops, so every type once, in order of first
      occurrence. */
  method CollectTypes(items: seq<Pokemon>) returns (types: seq<string>)
    ensures Distinct(types)
    ensures forall t :: t in types <==> exists p <- items :: t in p.types
  {
    types := [];
    var i := 0;
    while i < |items|
      invariant 0 <= i <= |items|
      invariant Distinct(types)
      invariant forall t :: t in types <==> exists k :: 0 <= k < i && t in items[k].types
    {
      var j := 0;
      while j < |items[i].types|
        invariant 0 <= j <= |items[i].types|
        invariant Distinct(types)
        invariant forall t :: t in types <==>
                    (exists k :: 0 <= k < i && t in items[k].types) || t in items[i].types[..j]
      {
        var t := items[i].types[j];
        if t !in types {
          types := types + [t];
        }
        assert items[i].types[..j + 1] == items[i].types[..j] + [t];
        j := j + 1;
      }
      assert items[i].types[..j] == items[i].types;
      i := i + 1;
    }
    forall k, t | 0 <= k < |items| && t in items[k].types ensures t in types {
    }
    forall p, t | p in items && t in p.types ensures t in types {
      var k :| 0 <= k < |items| && items[k] == p;
    }
  }

  /** `sort()` without a comparator, which orders strings by their UTF-16
      code units, here stood in for by `CompareStrings`, which orders them by
      code points; the two agree below U+10000. */
  function TypeOrder(): (string, string) -> bool {
    (a: string, b: string) => CompareStrings(a, b) <= 0
  }

  lemma TypeOrderIsTotalPreorder()
    ensures TotalPreorder(TypeOrder())
  {
    var le := TypeOrder();
    forall a: string, b: string ensures le(a, b) || le(b, a) {
      CompareStringsFlip(a, b);
    }
    forall a: string, b: string, c: string | le(a, b) && le(b, c) ensures le(a, c) {
      CompareStringsTransitive(a, b, c);
    }
  }

  /** The options of the type select: `['all', ...types.sort()]`. */
  function AvailableTypes(types: seq<string>): seq<string> {
    ["all"] + SortBy(types, TypeOrder())
  }

  /** From a list without repetitions the select offers `'all'` and then
      exactly those types, each once, in strictly ascending order. */
  lemma AvailableTypesListing(types: seq<string>)
    requires Distinct(types)
    ensures var r := AvailableTypes(types);
            |r| == |types| + 1 && r[0] == "all" &&
            (forall t :: t in r[1..] <==> t in types) &&
            Distinct(r[1..]) &&
            forall i, j :: 1 <= i < j < |r| ==> CompareStrings(r[i], r[j]) < 0
  {
    var r := AvailableTypes(types);
    var sorted := SortBy(types, TypeOrder());
    assert r[1..] == sorted;
    TypeOrderIsTotalPreorder();
    SortBySorted(types, TypeOrder());
    PermutationKeepsDistinct(types, sorted);
    forall t ensures t in sorted <==> t in types {
      assert t in sorted <==> t in multiset(sorted);
      assert t in types <==> t in multiset(types);
    }
    forall i, j | 1 <= i < j < |r| ensures CompareStrings(r[i], r[j]) < 0 {
      assert r[i] == sorted[i - 1] && r[j] == sorted[j - 1];
      assert TypeOrder()(sorted[i - 1], sorted[j - 1]);
    }
  }

  /* ---------------- catalog search ---------------- */

  /** The lower-cased name contains the lower-cased query. */
  predicate NameMatches(name: string, query: string) {
    Includes(Lower(name), Lower(query))
  }

  function EntryMatcher(query: string): IndexEntry -> bool {
    (e: IndexEntry) => NameMatches(e.name, query)
  }

  /** The index entries whose details are fetched: the first twenty
      matches. */
  function SearchMatches(index: seq<IndexEntry>, query: string): seq<IndexEntry> {
    JsSlice(Filter(index, EntryMatcher(query)), 0, 20)
  }

  /** The search fetches the first `min(20, m)` of the `m` matching entries,
      in index order, and nothing that does not match. */
  lemma SearchMatchesSpec(index: seq<IndexEntry>, query: string)
    ensures var all := Filter(index, EntryMatcher(query));
            var r := SearchMatches(index, query);
            |r| == Min(20, |all|) && r == all[..|r|]
    ensures forall e <- SearchMatches(index, query) :: e in index && NameMatches(e.name, query)
    ensures IsSubsequence(SearchMatches(index, query), index)
  {
    var all := Filter(index, EntryMatcher(query));
    var r := SearchMatches(index, query);
    if |all| <= 20 {
      assert r == all == all[..|all|];
    } else {
      assert r == all[..20];
    }
    FilterIsSubsequence(index, EntryMatcher(query));
    SubsequencePrefix(all, index, |r|);
  }

  /** Each record is the detail of an index entry whose name matches. */
  ghost predicate FetchedFromMatches(records: seq<CatalogRecord>, index: seq<IndexEntry>, query: string,
                                     detailOf: string -> Outcome<CatalogRecord>) {
    forall i :: 0 <= i < |records| ==>
      exists e <- index :: NameMatches(e.name, query) && detailOf(e.url) == Done(records[i])
  }

  /** Every record the search fetched belongs to a matching index entry, and
      there are at most twenty of them. */
  lemma SearchResultsMatch(index: seq<IndexEntry>, query: string,
                           detailOf: string -> Outcome<CatalogRecord>, records: seq<CatalogRecord>)
    requires FetchAll(Urls(SearchMatches(index, query)), detailOf) == Done(records)
    ensures |records| <= 20
    ensures FetchedFromMatches(records, index, query, detailOf)
  {
    var matches := SearchMatches(index, query);
    SearchMatchesSpec(index, query);
    forall i | 0 <= i < |records|
      ensures exists e <- index :: NameMatches(e.name, query) && detailOf(e.url) == Done(records[i])
    {
      assert matches[i] in matches;
    }
  }

  /* ---------------- mapping catalog records ---------------- */

  /** `url?.split('/').slice(-2, -1)[0] || '0'`: the piece before the last
      `/`, or `"0"` when the url is missing or that piece is empty or
      absent. */
  function UrlSegment(url: Option<string>): string {
    if url.None? then "0"
    else
      var picked := JsSlice(Split(url.value, '/'), -2, -1);
      if picked == [] || picked[0] == "" then "0" else picked[0]
  }

  function IdFromUrl(url: Option<string>): Num {
    match ParseInt(UrlSegment(url))
    case Some(n) => Int(n)
    case None => NaN
  }

  /** The segment read from `a/b/c`, with `b` and `c` free of `/`, is `b`. */
  lemma SegmentBeforeLast(a: string, b: string, c: string)
    requires '/' !in b && '/' !in c
    ensures UrlSegment(Some(a + "/" + b + "/" + c)) == if b == "" then "0" else b
  {
    var url := a + "/" + b + "/" + c;
    assert url == a + ['/'] + (b + ['/'] + c);
    SplitConcat(a, b + ['/'] + c, '/');
    SplitConcat(b, c, '/');
    SplitNoSeparator(b, '/');
    SplitNoSeparator(c, '/');
    var parts := Split(url, '/');
    assert parts == Split(a, '/') + [b, c];
    assert JsSlice(parts, -2, -1) == [b];
  }

  /** A catalog url `<prefix>/<n>/` yields the id `n`. */
  lemma IdFromCanonicalUrl(prefix: string, n: nat)
    ensures IdFromUrl(Some(prefix + "/" + DecimalString(n) + "/")) == Int(n)
  {
    var d := DecimalString(n);
    assert '/' !in d by {
      forall i | 0 <= i < |d| ensures d[i] != '/' {
        assert IsDigit(d[i]);
      }
    }
    SegmentBeforeLast(prefix, d, "");
    assert prefix + "/" + d + "/" + "" == prefix + "/" + d + "/";
    ParseDecimalString(n);
  }

  /** A record without a url gets the id 0. */
  lemma IdFromMissingUrl()
    ensures IdFromUrl(None) == Int(0)
  {
    assert DecimalString(0) == "0";
    ParseDecimalString(0);
  }

  /** Without the trailing slash the piece read is the resource name, and the
      id is `NaN`. */
  lemma IdWithoutTrailingSlash()
    ensures IdFromUrl(Some("https://pokeapi.co/api/v2/pokemon/25")) == NaN
  {
    assert "https://pokeapi.co/api/v2/pokemon/25" == "https://pokeapi.co/api/v2" + "/" + "pokemon" + "/" + "25";
    SegmentBeforeLast("https://pokeapi.co/api/v2", "pokemon", "25");
    assert TrimStart("pokemon") == "pokemon";
  }

  /** The card built from a catalog record. */
  function MapRecord(c: CatalogRecord): (p: Pokemon)
    ensures p.id == IdFromUrl(c.url) && p.name == c.name
    ensures p.imageUrl == c.frontSprite.GetOr("")
    ensures p.height * 10.0 == c.height.GetOr(0.0) && p.weight * 10.0 == c.weight.GetOr(0.0)
    ensures p.types == TypeNames(c.types) && p.abilities == AbilityNames(c.abilities)
  {
    Pokemon(IdFromUrl(c.url), c.name, c.frontSprite.GetOr(""), TypeNames(c.types),
            c.height.GetOr(0.0) / 10.0, c.weight.GetOr(0.0) / 10.0, AbilityNames(c.abilities))
  }

  /** `types?.map(t => t.type.name) || []`. */
  function TypeNames(slots: Option<seq<TypeSlot>>): (names: seq<string>)
    ensures slots.None? ==> names == []
    ensures slots.Some? ==>
              |names| == |slots.value| &&
              forall i :: 0 <= i < |names| ==> names[i] == slots.value[i].kind.name
  {
    match slots
    case None => []
    case Some(s) => seq(|s|, i requires 0 <= i < |s| => s[i].kind.name)
  }

  /** `abilities?.map(a => a.ability.name) || []`. */
  function AbilityNames(slots: Option<seq<AbilitySlot>>): (names: seq<string>)
    ensures slots.None? ==> names == []
    ensures slots.Some? ==>
              |names| == |slots.value| &&
              forall i :: 0 <= i < |names| ==> names[i] == slots.value[i].ability.name
  {
    match slots
    case None => []
    case Some(s) => seq(|s|, i requires 0 <= i < |s| => s[i].ability.name)
  }

  function MapAll(results: seq<CatalogRecord>): (r: seq<Pokemon>)
    ensures |r| == |results| && forall i :: 0 <= i < |r| ==> r[i] == MapRecord(results[i])
  {
    seq(|results|, i requires 0 <= i < |results| => MapRecord(results[i]))
  }

  /* ---------------- what the grid shows ---------------- */

  /** `filteredPokemons`: the mapped catalog results while a term is typed,
      the owned list otherwise. */
  function FilteredPokemons(owned: seq<Pokemon>, results: seq<CatalogRecord>, term: string): seq<Pokemon> {
    if term != "" then MapAll(results) else owned
  }

  /** The grid's filter callback: everything passes an empty term. */
  function DisplayFilter(term: string): Pokemon -> bool {
    (p: Pokemon) => term == "" || NameMatches(p.name, term)
  }

  /** `(searchOnlyOwn ? pokemons : filteredPokemons).filter(...)`. */
  function Displayed(owned: seq<Pokemon>, results: seq<CatalogRecord>, term: string,
                     ownOnly: bool): seq<Pokemon> {
    Filter(if ownOnly then owned else FilteredPokemons(owned, results, term), DisplayFilter(term))
  }

  /** Without a term the grid shows the owned list as it is, "own only" or
      not. */
  lemma DisplayedWithoutTerm(owned: seq<Pokemon>, results: seq<CatalogRecord>, ownOnly: bool)
    ensures Displayed(owned, results, "", ownOnly) == owned
  {
    FilterKeepsAll(owned, DisplayFilter(""));
  }

  /** With a term and "own only", the grid shows the owned items whose name
      contains the term, in their order. */
  lemma DisplayedOwnOnly(owned: seq<Pokemon>, results: seq<CatalogRecord>, term: string)
    requires term != ""
    ensures IsSubsequence(Displayed(owned, results, term, true), owned)
    ensures forall p :: p in Displayed(owned, results, term, true) <==>
                        p in owned && NameMatches(p.name, term)
    ensures forall p <- owned ::
              multiset(Displayed(owned, results, term, true))[p] ==
              if NameMatches(p.name, term) then multiset(owned)[p] else 0
  {
    DisplayFilterSelects(owned, term);
  }

  /** With a term and without "own only", the grid shows the cards mapped
      from the catalog results whose name contains the term, in their
      order. */
  lemma DisplayedFromCatalog(owned: seq<Pokemon>, results: seq<CatalogRecord>, term: string)
    requires term != ""
    ensures IsSubsequence(Displayed(owned, results, term, false), MapAll(results))
    ensures forall p :: p in Displayed(owned, results, term, false) <==>
                        NameMatches(p.name, term) && exists c <- results :: p == MapRecord(c)
    ensures forall p <- MapAll(results) ::
              multiset(Displayed(owned, results, term, false))[p] ==
              if NameMatches(p.name, term) then multiset(MapAll(results))[p] else 0
  {
    var mapped := MapAll(results);
    assert Displayed(owned, results, term, false) == Filter(mapped, DisplayFilter(term));
    DisplayFilterSelects(mapped, term);
    MapAllMembers(results);
  }

  /** With a term, the grid's filter keeps the items whose name contains
      it, each as often as it occurs, in order, and drops every other one. */
  lemma DisplayFilterSelects(items: seq<Pokemon>, term: string)
    requires term != ""
    ensures IsSubsequence(Filter(items, DisplayFilter(term)), items)
    ensures forall p :: p in Filter(items, DisplayFilter(term)) <==>
                        p in items && NameMatches(p.name, term)
    ensures forall p <- items ::
              multiset(Filter(items, DisplayFilter(term)))[p] ==
              if NameMatches(p.name, term) then multiset(items)[p] else 0
  {
    FilterIsSubsequence(items, DisplayFilter(term));
    FilterCount(items, DisplayFilter(term));
  }

  /** The mapped list holds exactly the mappings of the results. */
  lemma MapAllMembers(results: seq<CatalogRecord>)
    ensures forall p :: p in MapAll(results) <==> exists c <- results :: p == MapRecord(c)
  {
    var mapped := MapAll(results);
    forall p | p in mapped ensures exists c <- results :: p == MapRecord(c) {
      var i :| 0 <= i < |mapped| && mapped[i] == p;
      assert results[i] in results;
    }
    forall c | c in results ensures MapRecord(c) in mapped {
      var i :| 0 <= i < |results| && results[i] == c;
      assert mapped[i] == MapRecord(c);
    }
  }

  /** One card: the item and, per type badge, whether it is highlighted. */
  datatype Card = Card(item: Pokemon, highlighted: seq<bool>)

  /** A badge is highlighted when its type is the selected one, never under
      `'all'`. */
  function Highlights(types: seq<string>, selectedType: string): (h: seq<bool>)
    ensures |h| == |types|
    ensures forall i :: 0 <= i < |types| ==> (h[i] <==> types[i] == selectedType && selectedType != "all")
  {
    seq(|types|, i requires 0 <= i < |types| => types[i] == selectedType && selectedType != "all")
  }

  function Cards(items: seq<Pokemon>, selectedType: string): (cs: seq<Card>)
    ensures |cs| == |items|
    ensures forall i :: 0 <= i < |items| ==>
              cs[i].item == items[i] && cs[i].highlighted == Highlights(items[i].types, selectedType)
  {
    seq(|items|, i requires 0 <= i < |items| => Card(items[i], Highlights(items[i].types, selectedType)))
  }

  /** The selected type changes no card, only which badges stand out; under
      `'all'` none does. */
  lemma SelectedTypeOnlyHighlights(items: seq<Pokemon>, t1: string, t2: string)
    ensures |Cards(items, t1)| == |Cards(items, t2)|
    ensures forall i :: 0 <= i < |items| ==> Cards(items, t1)[i].item == Cards(items, t2)[i].item
    ensures forall i, j :: 0 <= i < |items| && 0 <= j < |items[i].types| ==>
              !Cards(items, "all")[i].highlighted[j]
  {
  }

  /** The notice under the grid. It looks at `filteredPokemons`, not at the
      cards, so it ignores "own only". */
  function EmptyNotice(owned: seq<Pokemon>, results: seq<CatalogRecord>, term: string,
                       selectedType: string): Option<string> {
    if |FilteredPokemons(owned, results, term)| != 0 then None
    else if term != "" then Some(NoSearchMatch)
    else if selectedType != "all" then Some(NoTypeMatch)
    else Some(NothingOwned)
  }

  /** With "own only" set, a term and no catalog results, the grid shows the
      matching owned items and the no-match notice together. */
  lemma NoticeBesideOwnMatches(owned: seq<Pokemon>, term: string, selectedType: string, p: Pokemon)
    requires term != "" && p in owned && NameMatches(p.name, term)
    ensures p in Displayed(owned, [], term, true)
    ensures EmptyNotice(owned, [], term, selectedType) == Some(NoSearchMatch)
  {
  }

  /* ---------------- catch and release ---------------- */

  function ItemId(d: DisplayItem): Num {
    match d
    case Owned(p) => p.id
    case FromCatalog(c) => Int(c.id)
  }

  /** The create body: the catalog shape has its sprite and nested names read
      out, the owned shape is copied; height and weight are sent as they are
      held, with no conversion. */
  function CatchPayload(d: DisplayItem): (n: NewPokemon)
    ensures d.Owned? ==>
              n == NewPokemon(d.p.name, d.p.imageUrl, d.p.types, d.p.height, d.p.weight, d.p.abilities)
    ensures d.FromCatalog? ==>
              n == NewPokemon(d.c.name, d.c.frontSprite.GetOr(""), TypeNames(d.c.types),
                              d.c.height.GetOr(0.0), d.c.weight.GetOr(0.0), AbilityNames(d.c.abilities))
  {
    if IsPokeAPIPokemon(d) then
      NewPokemon(d.c.name, d.c.frontSprite.GetOr(""), TypeNames(d.c.types),
                 d.c.height.GetOr(0.0), d.c.weight.GetOr(0.0), AbilityNames(d.c.abilities))
    else
      NewPokemon(d.p.name, d.p.imageUrl, d.p.types, d.p.height, d.p.weight, d.p.abilities)
  }

  /** A card made from a catalog record is sent in metres and kilograms: the
      record's values divided by ten exactly once. */
  lemma MappedCatchUnits(c: CatalogRecord)
    ensures CatchPayload(Owned(MapRecord(c))).height * 10.0 == c.height.GetOr(0.0)
    ensures CatchPayload(Owned(MapRecord(c))).weight * 10.0 == c.weight.GetOr(0.0)
    ensures CatchPayload(Owned(MapRecord(c))).types == CatchPayload(FromCatalog(c)).types
    ensures CatchPayload(Owned(MapRecord(c))).abilities == CatchPayload(FromCatalog(c)).abilities
  {
  }

  function KeepOthers(id: Num): Pokemon -> bool {
    (p: Pokemon) => !SameNum(p.id, id)
  }

  /** `pokemons.filter(p => p.id !== id)`. */
  function Released(items: seq<Pokemon>, id: Num): seq<Pokemon> {
    Filter(items, KeepOthers(id))
  }

  /** A release drops every item with the id, even a repeated one, and keeps
      every other item as often as it was cached, in order. An id of `NaN`
      matches nothing, so releasing it keeps the whole cache. */
  lemma ReleasedRemovesExactlyId(items: seq<Pokemon>, id: Num)
    ensures forall p <- Released(items, id) :: !SameNum(p.id, id)
    ensures forall p <- items ::
              multiset(Released(items, id))[p] == if SameNum(p.id, id) then 0 else multiset(items)[p]
    ensures multiset(Released(items, id)) <= multiset(items)
    ensures IsSubsequence(Released(items, id), items)
    ensures id == NaN ==> Released(items, id) == items
  {
    FilterIsSubsequence(items, KeepOthers(id));
    FilterCount(items, KeepOthers(id));
    if id == NaN {
      FilterKeepsAll(items, KeepOthers(id));
    }
  }

  /** The detail view offers release when an owned item has the same id. */
  predicate OffersRelease(owned: seq<Pokemon>, d: DisplayItem) {
    exists p <- owned :: SameNum(p.id, ItemId(d))
  }

  /** An item whose id is `NaN` is never offered for release, and after a
      release its id is offered no more. */
  lemma ReleaseOfferedOnlyForOwnedIds(owned: seq<Pokemon>, d: DisplayItem)
    ensures ItemId(d) == NaN ==> !OffersRelease(owned, d)
    ensures !OffersRelease(Released(owned, ItemId(d)), d)
    ensures OffersRelease(owned, d) ==> |Released(owned, ItemId(d))| < |owned|
  {
    var id := ItemId(d);
    if OffersRelease(owned, d) {
      var p :| p in owned && SameNum(p.id, id);
      FilterDropsSome(owned, KeepOthers(id), p);
    }
  }

  /** A caught item with an integer id is offered for release, and releasing
      it gives back a cache that held no item with that id. */
  lemma CatchThenRelease(owned: seq<Pokemon>, caught: Pokemon)
    requires caught.id.Int?
    requires forall p <- owned :: !SameNum(p.id, caught.id)
    ensures OffersRelease(owned + [caught], Owned(caught))
    ensures Released(owned + [caught], caught.id) == owned
  {
    assert caught in owned + [caught];
    FilterAppend(owned, [caught], KeepOthers(caught.id));
    FilterKeepsAll(owned, KeepOthers(caught.id));
    assert Filter([caught], KeepOthers(caught.id)) == [];
  }

  /** What the component renders. */
  datatype Screen =
    | Loading
    | ErrorNotice(message: string)
    | Spinner(notice: Option<string>)
    | CardGrid(cards: seq<Card>, notice: Option<string>)

  /** The state of the component: one field per `useState`. */
  class DashboardView {
    var pokemons: seq<Pokemon>
    var allPokemons: seq<CatalogRecord>
    var loading: bool
    var error: string
    var selectedType: string
    var availableTypes: seq<string>
    var searchTerm: string
    var isSearching: bool
    var isCatching: Option<Num>
    var isReleasing: Option<Num>
    var searchOnlyOwn: bool
    var selected: Option<DisplayItem>
    var isLoadingPokemons: bool

    constructor ()
      ensures pokemons == [] && allPokemons == [] && loading && error == ""
      ensures selectedType == "all" && availableTypes == [] && searchTerm == "" && !isSearching
      ensures isCatching == None && isReleasing == None && !searchOnlyOwn && selected == None
      ensures isLoadingPokemons
    {
      pokemons, allPokemons, loading, error := [], [], true, "";
      selectedType, availableTypes, searchTerm, isSearching := "all", [], "", false;
      isCatching, isReleasing, searchOnlyOwn, selected := None, None, false, None;
      isLoadingPokemons := true;
    }

    function Screen(): Screen
      reads this
    {
      var notice := EmptyNotice(pokemons, allPokemons, searchTerm, selectedType);
      if loading then Loading
      else if error != "" then ErrorNotice(error)
      else if isLoadingPokemons then Spinner(notice)
      else CardGrid(Cards(Displayed(pokemons, allPokemons, searchTerm, searchOnlyOwn), selectedType), notice)
    }

    /** The mount effect: without a token, go to the entry page; otherwise
        load the collection and offer `'all'` and its types in order, or show
        the error. */
    method Load(stored: Option<string>, reply: Reply<seq<Pokemon>>) returns (redirect: bool)
      modifies this`pokemons, this`availableTypes, this`error, this`loading, this`isLoadingPokemons
      ensures redirect <==> !HasToken(stored)
      ensures redirect ==>
                pokemons == old(pokemons) && availableTypes == old(availableTypes) &&
                error == old(error) && loading == old(loading) &&
                isLoadingPokemons == old(isLoadingPokemons)
      ensures !redirect ==> !loading && !isLoadingPokemons
      ensures !redirect && reply.Ok? ==>
                pokemons == reply.value && error == old(error) &&
                |availableTypes| >= 1 && availableTypes[0] == "all" &&
                (forall t :: t in availableTypes[1..] <==> exists p <- reply.value :: t in p.types) &&
                Distinct(availableTypes[1..]) &&
                forall i, j :: 1 <= i < j < |availableTypes| ==>
                  CompareStrings(availableTypes[i], availableTypes[j]) < 0
      ensures !redirect && reply.Rejected? ==>
                pokemons == old(pokemons) && availableTypes == old(availableTypes) && error == LoadFailed
      ensures !redirect && reply.Failed? ==>
                pokemons == old(pokemons) && availableTypes == old(availableTypes) && error == reply.reason
    {
      redirect := !HasToken(stored);
      if redirect {
        return;
      }
      isLoadingPokemons := true;
      match reply {
        case Ok(data) =>
          pokemons := data;
          var types := CollectTypes(data);
          AvailableTypesListing(types);
          availableTypes := AvailableTypes(types);
        case Rejected(_) =>
          error := LoadFailed;
        case Failed(reason) =>
          error := reason;
      }
      loading := false;
      isLoadingPokemons := false;
    }

    method SetSearchTerm(term: string)
      modifies this`searchTerm
      ensures searchTerm == term
    {
      searchTerm := term;
    }

    /** The clear button of the search box. */
    method ClearSearch()
      modifies this`searchTerm, this`allPokemons
      ensures searchTerm == "" && allPokemons == []
    {
      searchTerm, allPokemons := "", [];
    }

    method SetSearchOnlyOwn(ownOnly: bool)
      modifies this`searchOnlyOwn
      ensures searchOnlyOwn == ownOnly
    {
      searchOnlyOwn := ownOnly;
    }

    method SelectType(t: string)
      modifies this`selectedType
      ensures selectedType == t
    {
      selectedType := t;
    }

    /** `searchPokemons(query)`: a blank query or "own only" clears the
        catalog results and asks nothing; otherwise the index is read and the
        first twenty matches are fetched together, and either all their
        records become the results or the error is shown. */
    method Search(query: string, index: Outcome<seq<IndexEntry>>,
                  detailOf: string -> Outcome<CatalogRecord>) returns (requested: bool)
      modifies this`allPokemons, this`error, this`isSearching
      ensures requested <==> !IsBlank(query) && !searchOnlyOwn
      ensures !requested ==>
                allPokemons == [] && error == old(error) && isSearching == old(isSearching)
      ensures requested ==> !isSearching
      ensures requested && index.Threw? ==> allPokemons == old(allPokemons) && error == index.reason
      ensures requested && index.Done? ==>
                match FetchAll(Urls(SearchMatches(index.value, query)), detailOf)
                case Done(records) => allPokemons == records && error == old(error)
                case Threw(e) => allPokemons == old(allPokemons) && error == e
      ensures requested && index.Done? && allPokemons != old(allPokemons) ==>
                |allPokemons| <= 20 && FetchedFromMatches(allPokemons, index.value, query, detailOf)
    {
      TrimEmptyIffBlank(query);
      if Trim(query) == [] {
        allPokemons := [];
        return false;
      }
      if searchOnlyOwn {
        allPokemons := [];
        return false;
      }
      requested := true;
      isSearching := true;
      match index {
        case Threw(e) =>
          error := e;
        case Done(entries) =>
          var matches := SearchMatches(entries, query);
          match FetchAll(Urls(matches), detailOf) {
            case Done(records) =>
              allPokemons := records;
              SearchResultsMatch(entries, query, detailOf, records);
            case Threw(e) =>
              error := e;
          }
      }
      isSearching := false;
    }

    method View(d: DisplayItem)
      modifies this`selected
      ensures selected == Some(d)
    {
      selected := Some(d);
    }

    /** The close button of the detail view; its catch and release buttons
        close it too. */
    method CloseView()
      modifies this`selected
      ensures selected == None
    {
      selected := None;
    }

    /** `handleCatchPokemon(d)`: without a token, go to the entry page;
        otherwise send the item and, when the backend accepts it, append what
        it returns, reset the search and the type filter and reload the page.
        The busy marker is cleared in every case. */
    method HandleCatch(d: DisplayItem, stored: Option<string>, reply: Reply<Pokemon>)
      returns (sent: Option<NewPokemon>, redirect: bool, reload: bool)
      modifies this`pokemons, this`searchTerm, this`allPokemons, this`selectedType
      modifies this`error, this`isCatching
      ensures isCatching == None
      ensures redirect <==> !HasToken(stored)
      ensures sent.Some? <==> HasToken(stored)
      ensures sent.Some? ==> sent.value == CatchPayload(d)
      ensures reload <==> sent.Some? && reply.Ok?
      ensures reload ==>
                pokemons == old(pokemons) + [reply.value] && searchTerm == "" &&
                allPokemons == [] && selectedType == "all" && error == old(error)
      ensures sent.Some? && !reply.Ok? ==>
                error == ErrorText(reply, CatchFailed) && pokemons == old(pokemons) &&
                searchTerm == old(searchTerm) && allPokemons == old(allPokemons) &&
                selectedType == old(selectedType)
      ensures sent.None? ==>
                pokemons == old(pokemons) && searchTerm == old(searchTerm) &&
                allPokemons == old(allPokemons) && selectedType == old(selectedType) &&
                error == old(error)
    {
      isCatching := Some(ItemId(d));
      sent, redirect, reload := None, false, false;
      if !HasToken(stored) {
        redirect := true;
      } else {
        sent := Some(CatchPayload(d));
        match reply {
          case Ok(created) =>
            pokemons := pokemons + [created];
            searchTerm, allPokemons, selectedType := "", [], "all";
            reload := true;
          case _ =>
            error := ErrorText(reply, CatchFailed);
        }
      }
      isCatching := None;
    }

    /** `handleReleasePokemon(id)`: without a token, go to the entry page;
        otherwise delete, and on success drop every item with that id. The
        busy marker is cleared in every case. */
    method HandleRelease(id: Num, stored: Option<string>, reply: Reply<()>)
      returns (sent: bool, redirect: bool)
      modifies this`pokemons, this`error, this`isReleasing
      ensures isReleasing == None
      ensures sent <==> HasToken(stored)
      ensures redirect <==> !sent
      ensures sent && reply.Ok? ==> pokemons == Released(old(pokemons), id) && error == old(error)
      ensures sent && !reply.Ok? ==> error == ErrorText(reply, ReleaseFailed) && pokemons == old(pokemons)
      ensures !sent ==> pokemons == old(pokemons) && error == old(error)
    {
      isReleasing := Some(id);
      sent := HasToken(stored);
      redirect := !sent;
      if sent {
        match reply {
          case Ok(_) =>
            pokemons := Released(pokemons, id);
          case _ =>
            error := ErrorText(reply, ReleaseFailed);
        }
      }
      isReleasing := None;
    }
  }

}
