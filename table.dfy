/** The table view of the owned collection: search, sort and pagination over
    the cached list, the sort header, the page controls, and the catch and
    release handlers that keep the cache in step with the backend. */
module PokemonTable {
  import opened Common
  import opened Seqs
  import opened Text
  import opened Sorting

  /** An owned item as the backend returns it. The nested `stats` record of
      the interface is never read by this view and is not modelled. */
  datatype Pokemon = Pokemon(id: int, name: string, imageUrl: string, types: seq<string>,
                             height: real, weight: real, abilities: seq<string>)

  /** A catalog record: height in decimetres, weight in hectograms. */
  datatype CatalogEntry = CatalogEntry(name: string, url: string, frontSprite: string,
                                       types: seq<TypeSlot>, height: real, weight: real,
                                       abilities: seq<AbilitySlot>)

  datatype SortField = ById | ByName | ByHeight | ByWeight
  datatype SortDirection = Asc | Desc

  const LoadFailed := "Nem sikerült betölteni a pokémonokat"
  const CatchFailed := "Nem sikerült elkapni a pokémont"
  const ReleaseFailed := "Nem sikerült elengedni a pokémont"

  /* ---------------- search ---------------- */

  /** The filter callback: the lower-cased name, or some lower-cased type,
      contains the lower-cased search term. */
  predicate MatchesSearch(p: Pokemon, term: string) {
    Includes(Lower(p.name), Lower(term)) ||
    exists t <- p.types :: Includes(Lower(t), Lower(term))
  }

  function Matcher(term: string): Pokemon -> bool {
    (p: Pokemon) => MatchesSearch(p, term)
  }

  /* ---------------- sort ---------------- */

  function NumericKey(field: SortField, p: Pokemon): real
    requires field != ByName
  {
    match field
    case ById => p.id as real
    case ByHeight => p.height
    case ByWeight => p.weight
  }

  /** The comparator given to `sort`: `direction * a.name.localeCompare(b.name)`
      for names, `direction * (a[field] - b[field])` for the numeric fields. */
  function Compare(field: SortField, dir: SortDirection, a: Pokemon, b: Pokemon): real {
    var sign := if dir == Asc then 1.0 else -1.0;
    if field == ByName then sign * CompareStrings(a.name, b.name) as real
    else sign * (NumericKey(field, a) - NumericKey(field, b))
  }

  /** `a` may stay in front of `b`: the comparator is not positive. */
  function NotAfter(field: SortField, dir: SortDirection): (Pokemon, Pokemon) -> bool {
    (a, b) => Compare(field, dir, a, b) <= 0.0
  }

  /** Each of the eight comparators is a consistent comparator. */
  lemma NotAfterIsTotalPreorder(field: SortField, dir: SortDirection)
    ensures TotalPreorder(NotAfter(field, dir))
  {
    var le := NotAfter(field, dir);
    if field == ByName {
      forall a: Pokemon, b: Pokemon ensures le(a, b) || le(b, a) {
        CompareStringsFlip(a.name, b.name);
      }
      forall a: Pokemon, b: Pokemon, c: Pokemon | le(a, b) && le(b, c) ensures le(a, c) {
        if dir == Asc {
          CompareStringsTransitive(a.name, b.name, c.name);
        } else {
          CompareStringsFlip(a.name, b.name);
          CompareStringsFlip(b.name, c.name);
          CompareStringsFlip(a.name, c.name);
          CompareStringsTransitive(c.name, b.name, a.name);
        }
      }
    }
  }

  /** `filteredAndSortedPokemons`. */
  function Visible(items: seq<Pokemon>, term: string, field: SortField, dir: SortDirection): seq<Pokemon> {
    SortBy(Filter(items, Matcher(term)), NotAfter(field, dir))
  }

  /** The visible rows are exactly the items that match the search, each as
      often as in the cache. */
  lemma VisibleSelects(items: seq<Pokemon>, term: string, field: SortField, dir: SortDirection)
    ensures forall x <- Visible(items, term, field, dir) :: x in items && MatchesSearch(x, term)
    ensures multiset(Visible(items, term, field, dir)) <= multiset(items)
    ensures forall x <- items ::
              multiset(Visible(items, term, field, dir))[x] ==
              if MatchesSearch(x, term) then multiset(items)[x] else 0
  {
    var f := Filter(items, Matcher(term));
    FilterCount(items, Matcher(term));
    assert multiset(Visible(items, term, field, dir)) == multiset(f);
    forall x | x in Visible(items, term, field, dir) ensures x in items && MatchesSearch(x, term) {
      assert x in multiset(f);
    }
  }

  /** An empty search term keeps every item. */
  lemma EmptySearchKeepsAll(items: seq<Pokemon>, field: SortField, dir: SortDirection)
    ensures multiset(Visible(items, "", field, dir)) == multiset(items)
  {
    forall p | p in items ensures Matcher("")(p) {
      assert Includes(Lower(p.name), Lower(""));
    }
    FilterKeepsAll(items, Matcher(""));
  }

  /** The visible rows are in the order the header asks for. */
  lemma VisibleOrdered(items: seq<Pokemon>, term: string, field: SortField, dir: SortDirection)
    ensures var r := Visible(items, term, field, dir);
            field != ByName && dir == Asc ==>
              forall i, j :: 0 <= i < j < |r| ==> NumericKey(field, r[i]) <= NumericKey(field, r[j])
    ensures var r := Visible(items, term, field, dir);
            field != ByName && dir == Desc ==>
              forall i, j :: 0 <= i < j < |r| ==> NumericKey(field, r[i]) >= NumericKey(field, r[j])
    ensures var r := Visible(items, term, field, dir);
            field == ByName && dir == Asc ==>
              forall i, j :: 0 <= i < j < |r| ==> CompareStrings(r[i].name, r[j].name) <= 0
    ensures var r := Visible(items, term, field, dir);
            field == ByName && dir == Desc ==>
              forall i, j :: 0 <= i < j < |r| ==> CompareStrings(r[i].name, r[j].name) >= 0
  {
    NotAfterIsTotalPreorder(field, dir);
    SortBySorted(Filter(items, Matcher(term)), NotAfter(field, dir));
  }

  /** A descending sort is not the ascending one reversed: two rows of equal
      height keep their cache order in both directions. */
  lemma DescendingIsNotReversedAscending()
    ensures var a := Pokemon(1, "a", "", [], 1.0, 1.0, []);
            var b := Pokemon(2, "b", "", [], 1.0, 1.0, []);
            Visible([a, b], "", ByHeight, Asc) == [a, b] &&
            Visible([a, b], "", ByHeight, Desc) == [a, b]
  {
    var a := Pokemon(1, "a", "", [], 1.0, 1.0, []);
    var b := Pokemon(2, "b", "", [], 1.0, 1.0, []);
    assert Matcher("")(a) && Matcher("")(b);
    assert Filter([a, b], Matcher("")) == [a, b] by {
      FilterKeepsAll([a, b], Matcher(""));
    }
    assert [a, b][1..] == [b];
  }

  /** Sorting the visible rows again changes nothing. */
  lemma VisibleResortIsIdentity(items: seq<Pokemon>, term: string, field: SortField, dir: SortDirection)
    ensures SortBy(Visible(items, term, field, dir), NotAfter(field, dir)) == Visible(items, term, field, dir)
  {
    NotAfterIsTotalPreorder(field, dir);
    SortByIdempotent(Filter(items, Matcher(term)), NotAfter(field, dir));
  }

  /** Rows with equal sort keys keep the order they have in the cache. */
  lemma VisibleStable(items: seq<Pokemon>, term: string, field: SortField, dir: SortDirection, k: Pokemon)
    ensures Filter(Visible(items, term, field, dir), SameKey(NotAfter(field, dir), k)) ==
            Filter(Filter(items, Matcher(term)), SameKey(NotAfter(field, dir), k))
  {
    NotAfterIsTotalPreorder(field, dir);
    SortByStable(Filter(items, Matcher(term)), NotAfter(field, dir), k);
  }

  /** `handleSort(field)`: clicking the current field flips the direction,
      clicking another field sorts by it ascending. */
  function SortAfterClick(current: SortField, dir: SortDirection, clicked: SortField): (r: (SortField, SortDirection))
    ensures r.0 == clicked
    ensures clicked == current ==> r.1 != dir
    ensures clicked != current ==> r.1 == Asc
  {
    if clicked == current then (current, if dir == Asc then Desc else Asc)
    else (clicked, Asc)
  }

  /** Two clicks on the current field restore the order; two clicks on another
      field sort by it descending. */
  lemma SortClickTwice(current: SortField, dir: SortDirection, clicked: SortField)
    ensures var once := SortAfterClick(current, dir, clicked);
            var twice := SortAfterClick(once.0, once.1, clicked);
            twice == if clicked == current then (current, dir) else (clicked, Desc)
  {
  }

  /* ---------------- pagination ---------------- */

  predicate ValidPageSize(size: int) {
    size == 5 || size == 10 || size == 20 || size == 50
  }

  /** `Math.ceil(n / pageSize)`: the least page count whose pages hold `n`
      rows. */
  function TotalPages(n: nat, pageSize: int): (t: nat)
    requires pageSize > 0
    ensures n == 0 <==> t == 0
    ensures n > 0 ==> pageSize * (t - 1) < n <= pageSize * t
  {
    var t := (n + pageSize - 1) / pageSize;
    var r := (n + pageSize - 1) % pageSize;
    assert n + pageSize - 1 == pageSize * t + r;
    assert pageSize * (t - 1) == pageSize * t - pageSize;
    t
  }

  /** `paginatedPokemons`: `slice(startIndex, startIndex + pageSize)` with
      `startIndex = (currentPage - 1) * pageSize`. */
  function PageOf<T>(s: seq<T>, page: int, pageSize: int): (r: seq<T>)
    requires pageSize > 0
    ensures |r| <= pageSize
  {
    var start := (page - 1) * pageSize;
    JsSlice(s, start, start + pageSize)
  }

  /** A page in range is the slice of the rows it numbers. */
  lemma PageInRange<T>(s: seq<T>, page: int, pageSize: int)
    requires pageSize > 0
    requires 1 <= page <= TotalPages(|s|, pageSize)
    ensures 0 <= (page - 1) * pageSize < Min(page * pageSize, |s|) <= |s|
    ensures PageOf(s, page, pageSize) == s[(page - 1) * pageSize .. Min(page * pageSize, |s|)]
  {
    var t := TotalPages(|s|, pageSize);
    var start := (page - 1) * pageSize;
    assert start + pageSize == page * pageSize;
    assert start <= pageSize * (t - 1) by {
      MulMono(page - 1, t - 1, pageSize);
    }
    assert 0 <= start by {
      MulMono(0, page - 1, pageSize);
    }
  }

  lemma MulMono(a: int, b: int, c: nat)
    requires a <= b
    ensures a * c <= b * c
  {
  }

  /** Pages past the last, and page 0, are empty. */
  lemma PageOutOfRange<T>(s: seq<T>, page: int, pageSize: int)
    requires pageSize > 0
    requires page == 0 || page > TotalPages(|s|, pageSize)
    ensures PageOf(s, page, pageSize) == []
  {
    var t := TotalPages(|s|, pageSize);
    if page > t {
      MulMono(t, page - 1, pageSize);
      assert |s| <= (page - 1) * pageSize;
    }
  }

  /** Pages 1 to k put end to end. */
  function PagesUpTo<T>(s: seq<T>, pageSize: int, k: nat): seq<T>
    requires pageSize > 0
  {
    if k == 0 then [] else PagesUpTo(s, pageSize, k - 1) + PageOf(s, k, pageSize)
  }

  lemma {:induction false} PagesUpToPrefix<T>(s: seq<T>, pageSize: int, k: nat)
    requires pageSize > 0
    ensures k * pageSize >= 0
    ensures PagesUpTo(s, pageSize, k) == s[..Min(k * pageSize, |s|)]
  {
    MulMono(0, k, pageSize);
    if k > 0 {
      PagesUpToPrefix(s, pageSize, k - 1);
      var start := (k - 1) * pageSize;
      assert start + pageSize == k * pageSize;
      MulMono(0, k - 1, pageSize);
      if start >= |s| {
        assert PageOf(s, k, pageSize) == [];
      } else {
        assert PageOf(s, k, pageSize) == s[start..Min(k * pageSize, |s|)];
        assert s[..start] + s[start..Min(k * pageSize, |s|)] == s[..Min(k * pageSize, |s|)];
      }
    }
  }

  /** Pages 1 to `totalPages` put end to end are the whole sorted list. */
  lemma PagesCoverAll<T>(s: seq<T>, pageSize: int)
    requires pageSize > 0
    ensures PagesUpTo(s, pageSize, TotalPages(|s|, pageSize)) == s
  {
    PagesUpToPrefix(s, pageSize, TotalPages(|s|, pageSize));
  }

  /** `disabled={currentPage === 1}` on the first and previous buttons. */
  predicate BackDisabled(currentPage: int) {
    currentPage == 1
  }

  /** `disabled={currentPage === totalPages}` on the next and last buttons. */
  predicate ForwardDisabled(currentPage: int, totalPages: nat) {
    currentPage == totalPages
  }

  /** With rows to show and the page in range, every enabled button leads to
      a page in range. */
  lemma NavigationStaysInRange(n: nat, pageSize: int, currentPage: int)
    requires pageSize > 0 && n > 0
    requires 1 <= currentPage <= TotalPages(n, pageSize)
    ensures var t := TotalPages(n, pageSize);
            1 <= t &&
            (!BackDisabled(currentPage) ==> 1 <= currentPage - 1 <= t) &&
            (!ForwardDisabled(currentPage, t) ==> 1 <= currentPage + 1 <= t)
  {
  }

  /** With no rows the page count is 0, so on page 1 next and last stay
      enabled and lead to pages 2 and 0, neither of which exists. */
  lemma EmptyListLeavesForwardEnabled(pageSize: int)
    requires pageSize > 0
    ensures TotalPages(0, pageSize) == 0
    ensures !ForwardDisabled(1, TotalPages(0, pageSize))
  {
  }

  /* ---------------- catch and release ---------------- */

  /** The create body built from the selected catalog record: names and
      sprite copied, nested type and ability names flattened in order,
      decimetres and hectograms divided by ten. */
  function CatchPayload(c: CatalogEntry): (p: NewPokemon)
    ensures p.name == c.name && p.imageUrl == c.frontSprite
    ensures p.height * 10.0 == c.height && p.weight * 10.0 == c.weight
    ensures |p.types| == |c.types| && forall i :: 0 <= i < |c.types| ==> p.types[i] == c.types[i].kind.name
    ensures |p.abilities| == |c.abilities| &&
            forall i :: 0 <= i < |c.abilities| ==> p.abilities[i] == c.abilities[i].ability.name
  {
    NewPokemon(c.name, c.frontSprite,
               seq(|c.types|, i requires 0 <= i < |c.types| => c.types[i].kind.name),
               c.height / 10.0, c.weight / 10.0,
               seq(|c.abilities|, i requires 0 <= i < |c.abilities| => c.abilities[i].ability.name))
  }

  /** A record 7 dm tall weighing 690 hg is sent as 0.7 m and 69 kg. */
  lemma CatchPayloadUnits(c: CatalogEntry)
    requires c.height == 7.0 && c.weight == 690.0
    ensures CatchPayload(c).height == 0.7 && CatchPayload(c).weight == 69.0
  {
  }

  /** The first five entries of the shuffled index. */
  function RandomPicks(shuffled: seq<IndexEntry>): (r: seq<IndexEntry>)
    ensures |r| == Min(5, |shuffled|)
    ensures r == shuffled[..|r|]
  {
    JsSlice(shuffled, 0, 5)
  }

  function KeepOthers(id: int): Pokemon -> bool {
    (p: Pokemon) => p.id != id
  }

  /** The cache after a successful release: `pokemons.filter(p => p.id !== id)`. */
  function Released(items: seq<Pokemon>, id: int): seq<Pokemon> {
    Filter(items, KeepOthers(id))
  }

  /** No item with the id survives, every other item does, in its place. */
  lemma ReleasedRemovesExactlyId(items: seq<Pokemon>, id: int)
    ensures forall p <- Released(items, id) :: p.id != id && p in items
    ensures forall p <- items :: p.id != id ==> p in Released(items, id)
    ensures forall p <- items ::
              multiset(Released(items, id))[p] == if p.id == id then 0 else multiset(items)[p]
    ensures IsSubsequence(Released(items, id), items)
  {
    FilterIsSubsequence(items, KeepOthers(id));
    FilterCount(items, KeepOthers(id));
  }

  /** Catching an item with a fresh id and releasing that id gives the cache
      back. */
  lemma CatchThenRelease(items: seq<Pokemon>, caught: Pokemon)
    requires forall p <- items :: p.id != caught.id
    ensures Released(items + [caught], caught.id) == items
  {
    FilterAppend(items, [caught], KeepOthers(caught.id));
    FilterKeepsAll(items, KeepOthers(caught.id));
    assert Filter([caught], KeepOthers(caught.id)) == [];
  }

  /** What the component renders. */
  datatype Screen = Loading | ErrorNotice(message: string) | Rows(rows: seq<Pokemon>)

  /** The state of the component: one field per `useState`. */
  class TableView {
    var pokemons: seq<Pokemon>
    var loading: bool
    var error: string
    var detail: Option<Pokemon>
    var searchTerm: string
    var sortField: SortField
    var sortDirection: SortDirection
    var currentPage: int
    var pageSize: int
    var showCatch: bool
    var candidates: seq<CatalogEntry>
    var picked: Option<CatalogEntry>
    var loadingCandidates: bool
    var releasing: Option<int>
    var toRelease: Option<Pokemon>

    ghost predicate Valid()
      reads this
    {
      ValidPageSize(pageSize)
    }

    constructor ()
      ensures Valid()
      ensures pokemons == [] && loading && error == "" && detail == None && searchTerm == ""
      ensures sortField == ById && sortDirection == Asc && currentPage == 1 && pageSize == 10
      ensures !showCatch && candidates == [] && picked == None && !loadingCandidates
      ensures releasing == None && toRelease == None
    {
      pokemons, loading, error, detail, searchTerm := [], true, "", None, "";
      sortField, sortDirection, currentPage, pageSize := ById, Asc, 1, 10;
      showCatch, candidates, picked, loadingCandidates := false, [], None, false;
      releasing, toRelease := None, None;
    }

    /** The filtered and sorted rows. */
    function Shown(): seq<Pokemon>
      reads this
    {
      Visible(pokemons, searchTerm, sortField, sortDirection)
    }

    function PageCount(): nat
      reads this
      requires Valid()
    {
      TotalPages(|Shown()|, pageSize)
    }

    function Screen(): Screen
      reads this
      requires Valid()
    {
      if loading then Loading
      else if error != "" then ErrorNotice(error)
      else Rows(PageOf(Shown(), currentPage, pageSize))
    }

    /** The mount effect: without a token, go to the entry page and stay
        loading; otherwise replace the cache with the list, or show the
        error. */
    method Load(stored: Option<string>, reply: Reply<seq<Pokemon>>) returns (redirect: bool)
      modifies this`pokemons, this`error, this`loading
      ensures redirect <==> !HasToken(stored)
      ensures redirect ==> pokemons == old(pokemons) && error == old(error) && loading == old(loading)
      ensures !redirect ==> !loading
      ensures !redirect && reply.Ok? ==> pokemons == reply.value && error == old(error)
      ensures !redirect && reply.Rejected? ==> pokemons == old(pokemons) && error == LoadFailed
      ensures !redirect && reply.Failed? ==> pokemons == old(pokemons) && error == reply.reason
    {
      redirect := !HasToken(stored);
      if redirect {
        return;
      }
      match reply {
        case Ok(data) => pokemons := data;
        case Rejected(_) => error := LoadFailed;
        case Failed(reason) => error := reason;
      }
      loading := false;
    }

    method SetSearchTerm(term: string)
      modifies this`searchTerm
      ensures searchTerm == term
    {
      searchTerm := term;
    }

    method HandleSort(field: SortField)
      modifies this`sortField, this`sortDirection
      ensures (sortField, sortDirection) == SortAfterClick(old(sortField), old(sortDirection), field)
    {
      if field == sortField {
        sortDirection := if sortDirection == Asc then Desc else Asc;
      } else {
        sortField := field;
        sortDirection := Asc;
      }
    }

    /** Sets the page as given, without clamping. */
    method HandlePageChange(page: int)
      modifies this`currentPage
      ensures currentPage == page
    {
      currentPage := page;
    }

    /** A new page size always goes back to page 1. */
    method HandlePageSizeChange(size: int)
      requires ValidPageSize(size)
      modifies this`pageSize, this`currentPage
      ensures Valid() && pageSize == size && currentPage == 1
    {
      pageSize := size;
      currentPage := 1;
    }

    method View(p: Pokemon)
      modifies this`detail
      ensures detail == Some(p)
    {
      detail := Some(p);
    }

    method CloseView()
      modifies this`detail
      ensures detail == None
    {
      detail := None;
    }

    /** Opens the picker and loads five random candidates: the index is
        shuffled (the order is an input), the first five entries are
        fetched together, and either all of them become the candidates or
        the error is shown. */
    method OpenCatchPicker(index: Outcome<seq<IndexEntry>>, shuffled: seq<IndexEntry>,
                           detailOf: string -> Outcome<CatalogEntry>)
      requires index.Done? ==> multiset(shuffled) == multiset(index.value)
      modifies this`showCatch, this`candidates, this`error, this`loadingCandidates
      ensures showCatch && !loadingCandidates
      ensures index.Threw? ==> error == index.reason && candidates == old(candidates)
      ensures index.Done? ==>
                match FetchAll(Urls(RandomPicks(shuffled)), detailOf)
                case Done(vs) => candidates == vs && error == ""
                case Threw(e) => candidates == old(candidates) && error == e
      ensures index.Done? && candidates != old(candidates) ==>
                |candidates| <= 5 &&
                forall i :: 0 <= i < |candidates| ==>
                  exists e <- index.value :: detailOf(e.url) == Done(candidates[i])
    {
      showCatch := true;
      loadingCandidates := true;
      error := "";
      match index {
        case Threw(e) =>
          error := e;
        case Done(entries) =>
          var picks := RandomPicks(shuffled);
          match FetchAll(Urls(picks), detailOf) {
            case Done(vs) =>
              candidates := vs;
              forall i | 0 <= i < |vs|
                ensures exists e <- entries :: detailOf(e.url) == Done(vs[i])
              {
                assert picks[i] in multiset(shuffled);
                assert picks[i] in entries;
              }
            case Threw(e) =>
              error := e;
          }
      }
      loadingCandidates := false;
    }

    method PickCandidate(c: CatalogEntry)
      modifies this`picked
      ensures picked == Some(c)
    {
      picked := Some(c);
    }

    /** The close and cancel buttons of the picker. */
    method CancelCatch()
      modifies this`showCatch, this`picked, this`candidates
      ensures !showCatch && picked == None && candidates == []
    {
      showCatch, picked, candidates := false, None, [];
    }

    /** `handleCatchPokemon`: nothing without a selection; without a token, go
        to the entry page; otherwise send the converted record and, when the
        backend accepts it, append what it returns and close the picker. */
    method HandleCatch(stored: Option<string>, reply: Reply<Pokemon>)
      returns (sent: Option<NewPokemon>, redirect: bool)
      modifies this`pokemons, this`showCatch, this`picked, this`candidates, this`error
      ensures old(picked).None? ==> sent.None? && !redirect
      ensures redirect <==> old(picked).Some? && !HasToken(stored)
      ensures sent.Some? <==> old(picked).Some? && HasToken(stored)
      ensures sent.Some? ==> sent.value == CatchPayload(old(picked).value)
      ensures sent.Some? && reply.Ok? ==>
                pokemons == old(pokemons) + [reply.value] &&
                !showCatch && picked == None && candidates == [] && error == old(error)
      ensures sent.Some? && !reply.Ok? ==>
                error == ErrorText(reply, CatchFailed) &&
                pokemons == old(pokemons) && showCatch == old(showCatch) &&
                picked == old(picked) && candidates == old(candidates)
      ensures sent.None? ==>
                pokemons == old(pokemons) && showCatch == old(showCatch) && picked == old(picked) &&
                candidates == old(candidates) && error == old(error)
    {
      sent, redirect := None, false;
      if picked.None? {
        return;
      }
      if !HasToken(stored) {
        redirect := true;
        return;
      }
      sent := Some(CatchPayload(picked.value));
      match reply {
        case Ok(created) =>
          pokemons := pokemons + [created];
          showCatch, picked, candidates := false, None, [];
        case _ =>
          error := ErrorText(reply, CatchFailed);
      }
    }

    /** The release button of a row: ask for confirmation. */
    method AskRelease(p: Pokemon)
      modifies this`toRelease
      ensures toRelease == Some(p)
    {
      toRelease := Some(p);
    }

    method CancelRelease()
      modifies this`toRelease
      ensures toRelease == None
    {
      toRelease := None;
    }

    /** `handleReleasePokemon(id)`: without a token, go to the entry page;
        otherwise delete, and on success drop every item with that id and
        close the confirmation. The busy marker is cleared in every case. */
    method HandleRelease(id: int, stored: Option<string>, reply: Reply<()>)
      returns (sent: bool, redirect: bool)
      modifies this`pokemons, this`toRelease, this`error, this`releasing
      ensures releasing == None
      ensures sent <==> HasToken(stored)
      ensures redirect <==> !sent
      ensures sent && reply.Ok? ==>
                pokemons == Released(old(pokemons), id) && toRelease == None && error == old(error)
      ensures sent && !reply.Ok? ==>
                error == ErrorText(reply, ReleaseFailed) &&
                pokemons == old(pokemons) && toRelease == old(toRelease)
      ensures !sent ==> pokemons == old(pokemons) && toRelease == old(toRelease) && error == old(error)
    {
      releasing := Some(id);
      sent := HasToken(stored);
      redirect := !sent;
      if sent {
        match reply {
          case Ok(_) =>
            pokemons := Released(pokemons, id);
            toRelease := None;
          case _ =>
            error := ErrorText(reply, ReleaseFailed);
        }
      }
      releasing := None;
    }
  }
}
