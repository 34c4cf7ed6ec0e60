# Pokémon collection front end: the deterministic core

This project models the logic of three React components of a Pokémon
collection front end. The components talk to a collection backend (list,
create and delete the owned Pokémon; sign-in and registration) and to the
public PokeAPI catalog:

- **The table view** (`src/app/components/Pokemons.tsx`) shows the owned
  collection. It searches by name or type, sorts by id, name, height or
  weight in either direction, and paginates. It also catches one of five
  random catalog entries and releases an owned entry.
- **The card view** (`src/app/dashboard/page.tsx`) shows the owned
  collection, or up to twenty catalog search results, as cards.
  - A type select highlights badges.
  - An "own only" switch limits the search to the owned list.
  - A detail view offers catch or release.
- **The auth form** (`src/app/components/AuthForm.tsx`) has a login mode and
  a register mode. It checks the password confirmation, posts to the
  matching endpoint and stores the returned token.

Every answer from the backend or the catalog is an input value:
- `Reply<T>`: a 2xx body, a non-2xx error message, or a thrown exception.
- `Outcome<T>`: a decoded catalog body or an exception.

The stored token is an `Option<string>`. Redirects, requests, reloads and
token writes are returned as outputs. The component state of each view is a
class with one field per `useState`. Each handler is a method that updates
those fields in the order the handler does. The derived lists and the
request bodies are functions, and their properties are lemmas.

Modules:
- `Common`: option and reply types, the shared catalog shapes, the
  `|| fallback` error text, token truthiness and `Promise.all`.
- `Seqs`: `filter` and `slice` with JavaScript semantics, subsequences and
  repetition-free lists.
- `Text`: ASCII `toLowerCase`, `includes`, `trim`, the string order,
  `split('/')` and `parseInt`.
- `Sorting`: the stable sort, with sortedness, permutation and stability
  proved.
- `PokemonTable`, `DashboardPage` and `Auth`: the three components.

The table's sort is stable, like JavaScript's `sort`. A descending sort keeps
rows with equal keys in cache order, just as the ascending sort does. So it is
not the ascending sort reversed when keys tie:
`PokemonTable.DescendingIsNotReversedAscending` gives two rows of equal height
that come out in the same order in both directions.

## Model

| member | source | states |
|---|---|---|
| Common.ErrorText | src/app/components/Pokemons.tsx:201-204 | a failed call shows the server's message, the fallback when that message is empty, or the exception's message |
| Common.FetchAll | src/app/dashboard/page.tsx:127-131 | all details arrive, in the order of their keys, exactly when every fetch succeeds; otherwise the reason is that of a failing fetch |
| Seqs.Filter | src/app/components/Pokemons.tsx:241 | the result holds only kept elements of the input, and every kept element of the input |
| Seqs.FilterCount | src/app/components/Pokemons.tsx:114-121 | filtering keeps each kept element with its full multiplicity and drops every copy of the others |
| Seqs.FilterIsSubsequence | src/app/components/Pokemons.tsx:241 | a filter keeps the input order |
| Seqs.FilterAppend | src/app/components/Pokemons.tsx:207 | filtering a concatenation filters each part, so earlier items stay in front |
| Seqs.FilterDropsSome | src/app/dashboard/page.tsx:264 | a filter that drops some element makes the list shorter |
| Seqs.JsSlice | src/app/components/Pokemons.tsx:132 | `slice` gives at most `end - start` elements; in range it is the plain subsequence; past the end it is empty |
| Seqs.SubsequencePrefix | src/app/dashboard/page.tsx:128 | cutting the tail off a subsequence leaves a subsequence |
| Seqs.PermutationKeepsDistinct | src/app/dashboard/page.tsx:90 | sorting a list without repetitions leaves none |
| Text.Lower | src/app/components/Pokemons.tsx:116-119 | lower-casing keeps the length and leaves no upper-case ASCII letter |
| Text.Includes | src/app/components/Pokemons.tsx:118-119 | `includes` holds exactly when the needle occurs at some index; the empty needle always occurs |
| Text.TrimEmptyIffBlank | src/app/dashboard/page.tsx:103 | a query trims to empty exactly when it is all white space |
| Text.Trim | src/app/dashboard/page.tsx:103 | `trim` drops the leading and the trailing white space; `Text.TrimEmptyIffBlank` states when the result is empty |
| Text.CompareStrings | src/app/components/Pokemons.tsx:125 | the name comparison returns -1, 0 or 1, and 0 only for equal names |
| Text.CompareStringsFlip | src/app/components/Pokemons.tsx:125 | swapping the names flips the sign of the comparison |
| Text.CompareStringsTransitive | src/app/components/Pokemons.tsx:125 | "not after" on names is transitive |
| Text.Split | src/app/dashboard/page.tsx:201 | splitting gives at least one piece, and no piece holds the separator |
| Text.SplitThenJoin | src/app/dashboard/page.tsx:201 | joining the pieces of a split with the separator gives the url back |
| Text.JoinThenSplit | src/app/dashboard/page.tsx:201 | splitting the join of separator-free pieces gives the pieces back |
| Text.SplitConcat | src/app/dashboard/page.tsx:201 | a separator splits the string into the pieces of each side |
| Text.ParseInt | src/app/dashboard/page.tsx:201 | `parseInt` is NaN exactly when no digit follows the optional white space and sign |
| Text.DecimalString | src/app/dashboard/page.tsx:201 | the decimal text of a number has only digits, no leading zero, and denotes that number |
| Text.ParseDecimalString | src/app/dashboard/page.tsx:201 | parsing the decimal text of `n` gives `n` |
| Text.ParseSignedDigits | src/app/dashboard/page.tsx:201 | after optional white space and one optional sign, `parseInt` reads the longest run of digits, leading zeros included, and stops at the first non-digit |
| Text.SignedText | src/app/dashboard/page.tsx:201 | a sign is read only as the first character, and only `-` makes the value negative |
| Text.TrimStartSpaces | src/app/dashboard/page.tsx:201 | `parseInt` skips all leading white space and nothing more |
| Text.DigitPrefixBeforeNonDigit | src/app/dashboard/page.tsx:201 | the digits read end at the first character that is not a digit |
| Sorting.SortBy | src/app/components/Pokemons.tsx:122-128 | the sorted list is a permutation of its input |
| Sorting.SortBySorted | src/app/components/Pokemons.tsx:122-128 | for a consistent comparator, every element is not after each later one |
| Sorting.SortByStable | src/app/components/Pokemons.tsx:122-128 | elements with equal keys keep their input order, as the stable `sort` does |
| Sorting.SortedIsFixed | src/app/components/Pokemons.tsx:122-128 | sorting a list that is already in order leaves it unchanged |
| Sorting.SortByIdempotent | src/app/components/Pokemons.tsx:122-128 | for a consistent comparator, sorting twice gives the same list as sorting once |
| PokemonTable.NotAfterIsTotalPreorder | src/app/components/Pokemons.tsx:122-128 | each of the eight field and direction comparators is total and transitive |
| PokemonTable.Visible | src/app/components/Pokemons.tsx:114-128 | the rows are the cache filtered by the search, then sorted stably on the chosen field and direction; `VisibleSelects`, `VisibleOrdered` and `VisibleStable` state what they hold |
| PokemonTable.VisibleSelects | src/app/components/Pokemons.tsx:114-121 | the rows are exactly the cached items whose lower-cased name or some lower-cased type contains the lower-cased term, each as often as it is cached |
| PokemonTable.EmptySearchKeepsAll | src/app/components/Pokemons.tsx:114-121 | an empty term keeps every item |
| PokemonTable.VisibleOrdered | src/app/components/Pokemons.tsx:122-128 | numeric keys are non-decreasing ascending and non-increasing descending; the name order is flipped by the direction |
| PokemonTable.VisibleStable | src/app/components/Pokemons.tsx:122-128 | rows with equal keys keep their cache order |
| PokemonTable.DescendingIsNotReversedAscending | src/app/components/Pokemons.tsx:122-128 | two rows of equal height come out in cache order in both directions, so a descending sort is not the ascending sort reversed |
| PokemonTable.VisibleResortIsIdentity | src/app/components/Pokemons.tsx:122-128 | sorting the visible rows again on the same field and direction changes nothing |
| PokemonTable.SortAfterClick | src/app/components/Pokemons.tsx:105-112 | the clicked field becomes the sort field; the direction flips on the current field and resets to ascending on another |
| PokemonTable.SortClickTwice | src/app/components/Pokemons.tsx:105-112 | two clicks on the current field restore the sort, and two on another field sort it descending |
| PokemonTable.TotalPages | src/app/components/Pokemons.tsx:130 | the page count is 0 only for no rows; otherwise the pages hold the rows with less than one page to spare |
| PokemonTable.PageOf | src/app/components/Pokemons.tsx:131-132 | no page holds more than `pageSize` rows |
| PokemonTable.PageInRange | src/app/components/Pokemons.tsx:131-132 | page `p` in `1..totalPages` is the slice from `(p-1)*pageSize` up to `min(p*pageSize, n)` |
| PokemonTable.PageOutOfRange | src/app/components/Pokemons.tsx:131-132 | page 0 and pages past the last are empty |
| PokemonTable.PagesUpToPrefix | src/app/components/Pokemons.tsx:131-132 | the first `k` pages put end to end are the first `k*pageSize` rows |
| PokemonTable.PagesCoverAll | src/app/components/Pokemons.tsx:130-132 | pages 1 to `totalPages` put end to end are the whole sorted list |
| PokemonTable.NavigationStaysInRange | src/app/components/Pokemons.tsx:439-465 | with rows and the page in range, every enabled page button leads to a page in range |
| PokemonTable.EmptyListLeavesForwardEnabled | src/app/components/Pokemons.tsx:456-465 | with no rows the page count is 0, so on page 1 the next and last buttons stay enabled |
| PokemonTable.CatchPayload | src/app/components/Pokemons.tsx:180-187 | the body copies name and sprite, flattens type and ability names in order, and gives height and weight divided by ten |
| PokemonTable.CatchPayloadUnits | src/app/components/Pokemons.tsx:184-185 | 7 dm and 690 hg are sent as 0.7 m and 69 kg |
| PokemonTable.RandomPicks | src/app/components/Pokemons.tsx:153-154 | the candidates are the first `min(5, n)` entries of the shuffled index |
| PokemonTable.Released | src/app/components/Pokemons.tsx:241 | the cache after a release keeps the items whose id differs; `ReleasedRemovesExactlyId` states what it holds |
| PokemonTable.ReleasedRemovesExactlyId | src/app/components/Pokemons.tsx:241 | a release drops every copy of every item with the id and keeps every other item as often as it is cached, in order |
| PokemonTable.CatchThenRelease | src/app/components/Pokemons.tsx:207 | appending an item with a fresh id and then releasing that id gives the cache back |
| PokemonTable.TableView.constructor | src/app/components/Pokemons.tsx:49-63 | the initial state: loading, page 1 of 10 rows, sort by id ascending |
| PokemonTable.TableView.Screen | src/app/components/Pokemons.tsx:250-264 | the loading text comes first, then the error, then the rows of the current page |
| PokemonTable.TableView.Load | src/app/components/Pokemons.tsx:65-99 | without a token the view redirects; otherwise it loads the list or shows the fixed load error or the exception's message |
| PokemonTable.TableView.SetSearchTerm | src/app/components/Pokemons.tsx:303 | typing sets the search term to the input's value |
| PokemonTable.TableView.HandleSort | src/app/components/Pokemons.tsx:105-112 | the new field and direction are those of `SortAfterClick` |
| PokemonTable.TableView.HandlePageChange | src/app/components/Pokemons.tsx:134-136 | the page is set as given, with no clamping |
| PokemonTable.TableView.HandlePageSizeChange | src/app/components/Pokemons.tsx:138-141 | a new page size always goes back to page 1 |
| PokemonTable.TableView.View | src/app/components/Pokemons.tsx:101-103 | the view button opens the detail of that item |
| PokemonTable.TableView.CloseView | src/app/components/Pokemons.tsx:562 | the close button of the detail view clears the selection |
| PokemonTable.TableView.OpenCatchPicker | src/app/components/Pokemons.tsx:143-168 | the candidates are the fetched details of at most five index entries, or the error is shown; the spinner is off afterwards |
| PokemonTable.TableView.PickCandidate | src/app/components/Pokemons.tsx:505 | clicking a candidate selects it for catching |
| PokemonTable.TableView.CancelCatch | src/app/components/Pokemons.tsx:533-536 | cancelling closes the picker and drops the selection and candidates |
| PokemonTable.TableView.HandleCatch | src/app/components/Pokemons.tsx:170-214 | with no selection nothing happens; without a token the view redirects; on success the body is `CatchPayload` and the created item is appended with the picker cleared; on failure only the error changes |
| PokemonTable.TableView.AskRelease | src/app/components/Pokemons.tsx:419 | the release button of a row asks to confirm that item |
| PokemonTable.TableView.CancelRelease | src/app/components/Pokemons.tsx:625-639 | the close and cancel buttons of the confirmation drop the item to release |
| PokemonTable.TableView.HandleRelease | src/app/components/Pokemons.tsx:216-248 | on success the cache is `Released` and the confirmation closes; on failure only the error changes; the busy marker is cleared in every case |
| DashboardPage.CollectTypes | src/app/dashboard/page.tsx:86-89 | the collected types are repetition-free and are exactly the types of the loaded items |
| DashboardPage.TypeOrderIsTotalPreorder | src/app/dashboard/page.tsx:90 | the default `sort` order on type names is total and transitive |
| DashboardPage.AvailableTypes | src/app/dashboard/page.tsx:90 | the select's options are `'all'` followed by the collected types in the default `sort` order; `AvailableTypesListing` states what they hold |
| DashboardPage.AvailableTypesListing | src/app/dashboard/page.tsx:90 | the select offers `'all'`, then each loaded type exactly once, in strictly ascending order |
| DashboardPage.SearchMatchesSpec | src/app/dashboard/page.tsx:122-128 | the fetched entries are the first `min(20, m)` of the `m` index entries whose lower-cased name contains the lower-cased query, in index order |
| DashboardPage.SearchResultsMatch | src/app/dashboard/page.tsx:122-133 | at most twenty records are shown, each the detail of a matching index entry |
| DashboardPage.SearchMatches | src/app/dashboard/page.tsx:122-128 | the fetched entries are the first twenty index entries whose name contains the query, ignoring ASCII case; `SearchMatchesSpec` states what they hold |
| DashboardPage.UrlSegment | src/app/dashboard/page.tsx:201 | the id text is the piece before the last `/` of the url, or `'0'` when the url is missing or that piece is empty or absent; `SegmentBeforeLast` states it for `a/b/c` |
| DashboardPage.IdFromUrl | src/app/dashboard/page.tsx:201 | the id is `parseInt` of that text, NaN when it has no leading digits; `IdFromCanonicalUrl`, `IdFromMissingUrl` and `IdWithoutTrailingSlash` state its cases |
| DashboardPage.SegmentBeforeLast | src/app/dashboard/page.tsx:201 | the id text of `a/b/c` is `b`, or `'0'` when `b` is empty |
| DashboardPage.IdFromCanonicalUrl | src/app/dashboard/page.tsx:201 | a catalog url `<prefix>/<n>/` yields the id `n` |
| DashboardPage.IdFromMissingUrl | src/app/dashboard/page.tsx:201 | a record without a url gets id 0 |
| DashboardPage.IdWithoutTrailingSlash | src/app/dashboard/page.tsx:201 | a url without the trailing slash yields NaN |
| DashboardPage.MapRecord | src/app/dashboard/page.tsx:200-208 | a card takes its id from the url, divides height and weight by ten, and defaults a missing sprite, types or abilities to `''` or `[]` |
| DashboardPage.TypeNames | src/app/dashboard/page.tsx:204 | the type names are the nested names in order, or none when the list is missing |
| DashboardPage.AbilityNames | src/app/dashboard/page.tsx:207 | the ability names are the nested names in order, or none when the list is missing |
| DashboardPage.MapAllMembers | src/app/dashboard/page.tsx:200-208 | the mapped list holds exactly the mappings of the catalog results |
| DashboardPage.FilteredPokemons | src/app/dashboard/page.tsx:199-209 | while a term is typed the list is the mapped catalog results, otherwise the owned list |
| DashboardPage.Displayed | src/app/dashboard/page.tsx:363-366 | the grid filters the owned list under "own only", otherwise `FilteredPokemons`, by the name containing the term; the three `Displayed…` lemmas state what it holds |
| DashboardPage.DisplayedWithoutTerm | src/app/dashboard/page.tsx:199-209 | without a term the grid shows the owned list unchanged, whether or not "own only" is set |
| DashboardPage.DisplayedOwnOnly | src/app/dashboard/page.tsx:363-366 | with a term and "own only", the grid shows exactly the owned items whose name contains the term, each as often as it is owned, in order |
| DashboardPage.DisplayedFromCatalog | src/app/dashboard/page.tsx:199-209 | with a term and without "own only", the grid shows exactly the mapped catalog results whose name contains the term, each as often as it is mapped, in order |
| DashboardPage.Highlights | src/app/dashboard/page.tsx:388-392 | a badge is highlighted exactly when its type is the selected one and that is not `'all'` |
| DashboardPage.Cards | src/app/dashboard/page.tsx:363-396 | one card per displayed item, in order, with its badge highlights |
| DashboardPage.SelectedTypeOnlyHighlights | src/app/dashboard/page.tsx:363-366 | the selected type changes no card, only the highlights; under `'all'` nothing is highlighted |
| DashboardPage.EmptyNotice | src/app/dashboard/page.tsx:412-422 | the notice appears when `FilteredPokemons` is empty, and says no search match, no type match or nothing owned, in that order |
| DashboardPage.NoticeBesideOwnMatches | src/app/dashboard/page.tsx:412-422 | the empty notice looks at the catalog results, so with "own only" it can appear beside matching owned cards |
| DashboardPage.CatchPayload | src/app/dashboard/page.tsx:158-165 | an owned-shape item is sent as it is held; a catalog-shape item has its nested names read out, and neither is converted again |
| DashboardPage.MappedCatchUnits | src/app/dashboard/page.tsx:162-163 | a card mapped from a catalog record is sent with height and weight divided by ten exactly once |
| DashboardPage.Released | src/app/dashboard/page.tsx:264 | the cache after a release keeps the items whose id is not `===` to the released one |
| DashboardPage.ReleasedRemovesExactlyId | src/app/dashboard/page.tsx:264 | no item `===` to the id survives; every other item is kept as often as it is cached, in order; an id of NaN keeps the whole cache |
| DashboardPage.OffersRelease | src/app/dashboard/page.tsx:483 | release is offered when some owned item has an id `===` to the shown one; `ReleaseOfferedOnlyForOwnedIds` states what follows |
| DashboardPage.ReleaseOfferedOnlyForOwnedIds | src/app/dashboard/page.tsx:483 | an id of NaN is never offered for release; after a release the id is no longer offered; a release of an offered id shrinks the cache |
| DashboardPage.CatchThenRelease | src/app/dashboard/page.tsx:185 | a caught item with a fresh integer id is offered for release, and releasing it gives the cache back |
| DashboardPage.DashboardView.constructor | src/app/dashboard/page.tsx:43-55 | the initial state: loading, type `'all'`, nothing searched, nothing busy |
| DashboardPage.DashboardView.Screen | src/app/dashboard/page.tsx:272-422 | the loading text comes first, then the error, then the spinner or the cards of `Displayed`, with `EmptyNotice` beside either |
| DashboardPage.DashboardView.Load | src/app/dashboard/page.tsx:57-100 | without a token the view redirects; on success the list is loaded and the select offers `'all'`, then each type once in ascending order; a failure shows the fixed message or the exception's message |
| DashboardPage.DashboardView.SetSearchTerm | src/app/dashboard/page.tsx:303 | typing sets the search term to the input's value |
| DashboardPage.DashboardView.ClearSearch | src/app/dashboard/page.tsx:308-311 | the clear button empties the term and the catalog results |
| DashboardPage.DashboardView.SetSearchOnlyOwn | src/app/dashboard/page.tsx:328 | the switch sets "own only" to its checked state |
| DashboardPage.DashboardView.SelectType | src/app/dashboard/page.tsx:343 | the select sets the selected type to the chosen option |
| DashboardPage.DashboardView.Search | src/app/dashboard/page.tsx:102-139 | a request goes out exactly when the query is not blank and "own only" is off; otherwise the results are cleared; the results are the details of the first twenty matches, or the error is shown |
| DashboardPage.DashboardView.View | src/app/dashboard/page.tsx:236-238 | clicking a card opens its detail view |
| DashboardPage.DashboardView.CloseView | src/app/dashboard/page.tsx:433 | the close button of the detail view clears the selection |
| DashboardPage.DashboardView.HandleCatch | src/app/dashboard/page.tsx:149-197 | without a token the view redirects; on success it appends the created item, resets term, results and type, and reloads; on failure only the error changes; the busy marker is cleared in every case |
| DashboardPage.DashboardView.HandleRelease | src/app/dashboard/page.tsx:240-270 | on success every item with the id is dropped; on failure only the error changes; the busy marker is cleared in every case |
| Auth.RequestFor | src/app/components/AuthForm.tsx:34-40 | the endpoint is login exactly in login mode; the body carries email and password, and a confirmation exactly in register mode |
| Auth.Submit | src/app/components/AuthForm.tsx:23-82 | the outcome of a submit for each kind of answer; the lemmas below state what it holds |
| Auth.SubmitShowsOneNotice | src/app/components/AuthForm.tsx:25-26 | a submit clears both notices first, so afterwards at most one is shown, and it comes from this submit |
| Auth.MismatchBlocksRequest | src/app/components/AuthForm.tsx:29-32 | a request is sent exactly when the register passwords agree; a mismatch only sets its error |
| Auth.FailureKeepsForm | src/app/components/AuthForm.tsx:54-58 | a failed request shows the server message, or the fallback when that is empty; it changes no field or mode and stores nothing |
| Auth.RegisterSuccess | src/app/components/AuthForm.tsx:61-67 | a registration switches to login mode, keeps the email, clears both passwords and shows its notice |
| Auth.LoginSuccess | src/app/components/AuthForm.tsx:68-74 | a login always shows its notice; the token is stored and the dashboard opened exactly when the answer carries one |
| Auth.RegisterThenLogin | src/app/components/AuthForm.tsx:61-67 | after a registration, the next submit logs in with the same email and no confirmation |
| Auth.WithMode | src/app/components/AuthForm.tsx:88 | a mode button sets the mode and changes nothing else |
| Auth.ModeButtonsIdempotent | src/app/components/AuthForm.tsx:96 | pressing a mode button twice equals pressing it once, whatever the earlier mode |
| Auth.RedirectOnMount | src/app/components/AuthForm.tsx:17-20 | the mount redirects exactly when a non-empty token is stored |
| Auth.LoginThenMountRedirects | src/app/components/AuthForm.tsx:71-74 | a login that stored a token makes the next mount redirect |
| Auth.AuthForm.Mount | src/app/components/AuthForm.tsx:15-21 | the mount redirects exactly when `RedirectOnMount` says so |
| Auth.AuthForm.SetEmail | src/app/components/AuthForm.tsx:114 | typing sets the email to the input's value |
| Auth.AuthForm.SetPassword | src/app/components/AuthForm.tsx:127 | typing sets the password to the input's value |
| Auth.AuthForm.SetConfirmPassword | src/app/components/AuthForm.tsx:141 | typing sets the confirmation to the input's value |
| Auth.AuthForm.HandleSubmit | src/app/components/AuthForm.tsx:23-82 | the field-by-field handler ends in the state, request, token and navigation that `Submit` describes |
| Auth.AuthForm.ShowLogin | src/app/components/AuthForm.tsx:88 | the login button sets login mode only |
| Auth.AuthForm.ShowRegister | src/app/components/AuthForm.tsx:96 | the register button sets register mode only |

## Left out

- I/O: `fetch`, `localStorage`, `router.push`, `window.location.reload` and the
  console calls. Answers and the stored token are inputs; requests, redirects,
  token writes and reloads are outputs.
- Concurrency: the detail fetches run at the same time, and a handler can read
  a stale list after an earlier update. Both are modelled as one sequential
  step. `Common.FetchAll` reports the reason of the first failing fetch in
  order, not the first in time.
- The 500 ms debounce of the card search is timer-based. `DashboardView.Search`
  takes the query directly.
- Randomness: the shuffle of the catalog index is an input. `OpenCatchPicker`
  requires only that it is a permutation of the index.
- `Text.CompareStrings`: does not model `localeCompare` and its locale
  tables. It is code-point order, a total order that returns 0 only for equal
  names. Per ECMA-402, `localeCompare` is only a total preorder: it returns 0
  for distinct strings that are canonically equivalent, such as a precomposed
  and a decomposed accented letter. For such names the model's
  `c == 0 <==> a == b`, and the classes of equal keys that
  `PokemonTable.VisibleStable` speaks of, differ from the program's.
- `DashboardPage.TypeOrder`: the default `sort` compares UTF-16 code units.
  The model compares code points with `Text.CompareStrings`. The two orders
  can differ only on strings that hold characters above U+FFFF.
- `Text.Lower`: lower-cases only the ASCII letters, not all of Unicode.
- `Text.ParseInt`: does not model the `0x` prefix. Decimal digits are the only
  ones a catalog url contains.
- Numbers: heights and weights are exact reals, not IEEE doubles, so `/10` does
  not round. Ids in the table view are integers. The card view's ids can also
  be NaN, as `DashboardPage.Num`.
- `|| 0` on a height or weight also turns NaN into 0. NaN is not modelled for
  these fields.
- The `stats` field of the owned item is never read by these views.
- The HTML `required` and `type="email"` checks of the auth form happen before
  the submit handler runs.
- `err instanceof Error ? ... : fallback`: every exception is modelled as an
  `Error` with a message, so the non-`Error` fallbacks never show.
- The dashboard's own-only branch also computes the owned matches and never
  uses them. Only its effect, clearing the catalog results, is modelled.
- `DashboardPage.IsPokeAPIPokemon`: the `'url' in pokemon` test is the variant
  tag of `DisplayItem`. An object of the catalog interface without a `url` key
  is not distinguished from one with it.
- The card view's detail buttons also close the detail view. That is
  `DashboardView.CloseView` after the handler. The busy-state `disabled`
  attributes of those buttons are not modelled.
- JSX layout, CSS classes, the spinner component and the other files of the
  repository: `Dashboard.tsx`, `Spinner.tsx`, `page.tsx` and
  `dashboard/pokemons/page.tsx`.
