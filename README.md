# Pokédex client and test-sheet scripts, modelled in Dafny

This project models the in-memory logic of a Japanese Pokédex web client and
of three Python scripts that record test results in a spreadsheet. The
network, the browser and the file system are not modelled.

Client:

- **Filtering and search** (`FilterPokemon`). The multi-dimension filter: a
  type OR-selection, height and weight bounds in tenths, and a generation
  OR-selection. The case-insensitive search over both names and two spellings
  of the number.
- **Favourites** (`LocalStorage`, `UseFavorites`). The favourites record in
  browser storage and the hook's in-memory mirror of it.
- **Paging** (`Pagination`, `UsePokemonData`). The page-number window, the
  item range, the page slice, the page count, and the schedule of 100-entry
  batches in which records are loaded.
- **Records and the evolution tree** (`PokemonApi`). Record building from the
  remote documents: identifiers from URLs, first Japanese text with
  fallbacks, descriptions. The pre-order flattening of the evolution tree.
  Every remote lookup is a parameter: an oracle that may fail.
- **Translation tables** (`TranslatePokemon`). Type, stat, generation and
  game-title tables, and the type colours.
- **View state** (`FilterModal`, `FilterTags`, `FavoritesPage`,
  `PokemonList`, `PokemonDetailPage`). The filter dialog, filter tags and
  their removal, the page handlers, query-parameter merging, and the detail
  page's neighbour and back navigation.

Scripts: `UpdateTestResults`, `TestRunner` and `UpdateCsvResults` rewrite the
rows of the sheet. The rows read from the file are a parameter, the rows
written back are the result, and the run date is a parameter.

Layout:

- `Wrappers.dfy`, `Seqs.dfy` and `Text.dfy` hold the JavaScript built-ins the
  model needs: `filter`, `find`, `slice`, `includes`, `toLowerCase`, `trim`,
  `padStart`, `parseInt`, `split` and `join`. `toLowerCase` folds the capitals
  of Basic Latin, Latin-1, Greek, Cyrillic and the full-width Latin letters
  (see "Left out"). `parseInt` reads a decimal numeral, or a hexadecimal one
  after a `0x` or `0X` prefix.
- `Records.dfy` holds the record the list pages show.
- Every other file models one source file.
- Heights, weights and filter bounds are integer tenths.

## Model

| member | source | states |
|---|---|---|
| FilterPokemon.FilterPokemons | pokemon-pokedex/src/utils/filterPokemon.js:9-46 | null conditions return the input unchanged; the result is never longer and holds only input items |
| FilterPokemon.KeepIffAllDimensions | pokemon-pokedex/src/utils/filterPokemon.js:12-45 | an item is kept iff it passes the type, height, weight and generation checks (AND across dimensions, OR inside a selection) |
| FilterPokemon.FilterPokemonsSubsequence | pokemon-pokedex/src/utils/filterPokemon.js:12-45 | the result is an order-preserving subsequence of the input |
| FilterPokemon.FilterPokemonsMembership | pokemon-pokedex/src/utils/filterPokemon.js:12-45 | an item is in the result iff it is in the input and passes every active dimension |
| FilterPokemon.FilterPokemonsMultiplicity | pokemon-pokedex/src/utils/filterPokemon.js:12-45 | a kept item keeps its multiplicity and a dropped one has none: nothing is added or altered |
| FilterPokemon.FilterPokemonsNoConstraint | pokemon-pokedex/src/utils/filterPokemon.js:14-42 | empty or missing selections and undefined bounds return the input unchanged |
| FilterPokemon.GenerationExcludesUnlabelled | pokemon-pokedex/src/utils/filterPokemon.js:38-42 | an active generation selection excludes every item that has no generation |
| FilterPokemon.SearchPokemons | pokemon-pokedex/src/utils/filterPokemon.js:51-66 | a missing, empty or blank query returns the input unchanged; the result holds only input items |
| FilterPokemon.SearchPokemonsMembership | pokemon-pokedex/src/utils/filterPokemon.js:54-65 | for a non-blank query, an item is kept iff the lower-cased trimmed query occurs in its lower-cased Japanese name, its lower-cased name, its decimal number or its 3-digit padded number |
| FilterPokemon.SearchPokemonsSubsequence | pokemon-pokedex/src/utils/filterPokemon.js:56-66 | the search result is an order-preserving subsequence of the input |
| FilterPokemon.SearchCaseInsensitive | pokemon-pokedex/src/utils/filterPokemon.js:54 | queries equal up to case give the same result |
| FilterPokemon.DecimalMatchImpliesPaddedMatch | pokemon-pokedex/src/utils/filterPokemon.js:62-63 | a query found in the decimal number is also found in the padded number |
| FilterPokemon.DigitsAreNormalized | pokemon-pokedex/src/utils/filterPokemon.js:54 | a digit query is unchanged by lower-casing and trimming |
| FilterPokemon.SearchFindsMatching | pokemon-pokedex/src/utils/filterPokemon.js:56-65 | every input item matching the normalised query is found |
| FilterPokemon.SearchFindsById | pokemon-pokedex/src/utils/filterPokemon.js:62 | an item is found by its plain number ("6") |
| FilterPokemon.SearchFindsLetterAnyCase | pokemon-pokedex/src/utils/filterPokemon.js:54-58 | a one-letter query, lower-cased, finds every item whose Japanese name holds that letter in either case (`ｚ` finds `ポリゴンＺ`) |
| Text.LowerFullWidth | pokemon-pokedex/src/utils/filterPokemon.js:58 | the full-width capital Ｚ lowers to ｚ, so `ポリゴンＺ` lower-cases to `ポリゴンｚ` |
| FilterPokemon.SearchFindsByPaddedId | pokemon-pokedex/src/utils/filterPokemon.js:63 | an item is found by its padded number ("006") |
| LocalStorage.ReadFavorites | pokemon-pokedex/src/utils/localStorage.js:4-12 | the stored list, or the empty list when the key is missing or the text does not parse |
| LocalStorage.WithFavorite | pokemon-pokedex/src/utils/localStorage.js:15-21 | the added number is present, membership grows by exactly that number, and a duplicate-free list stays duplicate-free |
| LocalStorage.WithFavoriteIdempotent | pokemon-pokedex/src/utils/localStorage.js:17-20 | adding twice is adding once |
| LocalStorage.WithFavoriteLength | pokemon-pokedex/src/utils/localStorage.js:17-20 | the list grows by one iff the number was absent |
| LocalStorage.RemoveUndoesAdd | pokemon-pokedex/src/utils/localStorage.js:15-32 | removing a number just added to a list without it restores the list exactly |
| Seqs.ToggleTwiceAbsent | pokemon-pokedex/src/utils/localStorage.js:44-50 | toggling an absent number twice restores the list exactly |
| Seqs.ToggleTwicePresent | pokemon-pokedex/src/utils/localStorage.js:44-50 | toggling a present number twice restores membership, but the number ends up last |
| Seqs.ToggledMembership | pokemon-pokedex/src/utils/localStorage.js:44-50 | a toggle leaves the membership of every other value unchanged |
| LocalStorage.FavoritesStore.constructor | pokemon-pokedex/src/utils/localStorage.js:1 | the store starts with the given stored value |
| LocalStorage.FavoritesStore.AddFavorite | pokemon-pokedex/src/utils/localStorage.js:15-25 | nothing is written when the number is stored; otherwise the list is written with the number appended |
| LocalStorage.FavoritesStore.RemoveFavorite | pokemon-pokedex/src/utils/localStorage.js:28-36 | the list is always written without any occurrence of the number; other numbers keep their membership |
| LocalStorage.FavoritesStore.ToggleFavorite | pokemon-pokedex/src/utils/localStorage.js:44-50 | the stored list is toggled: the number's membership flips, other numbers' do not, and a duplicate-free list stays so |
| UseFavorites.FavoritesHook.constructor | pokemon-pokedex/src/hooks/useFavorites.js:5 | the list starts empty |
| UseFavorites.FavoritesHook.Mount | pokemon-pokedex/src/hooks/useFavorites.js:7-9 | the list becomes the stored list, so hook and store agree |
| UseFavorites.FavoritesHook.ToggleFavorite | pokemon-pokedex/src/hooks/useFavorites.js:11-19 | the decision uses the in-memory list; a present number is removed from the store and filtered out of the list, an absent one is added and appended; a list in sync stays in sync; the count moves by one |
| Pagination.GetPageNumbers | pokemon-pokedex/src/components/Pagination.jsx:13-31 | the push loops produce exactly the page-number window |
| Pagination.FewPagesAllOffered | pokemon-pokedex/src/components/Pagination.jsx:17-20 | with at most five pages the list is 1..totalPages, empty for none |
| Pagination.ManyPagesWindow | pokemon-pokedex/src/components/Pagination.jsx:21-28 | otherwise it is the run from max(1, current-2) to min(total, start+4) |
| Pagination.PageNumbersInRange | pokemon-pokedex/src/components/Pagination.jsx:15-28 | at most five numbers, each between 1 and totalPages |
| Pagination.CurrentPageOffered | pokemon-pokedex/src/components/Pagination.jsx:22-23 | an existing current page is always offered |
| Pagination.WindowShrinksNearEnd | pokemon-pokedex/src/components/Pagination.jsx:22-27 | with many pages the window is full iff at least two pages follow the current one |
| Pagination.ButtonsEnabledIffTargetExists | pokemon-pokedex/src/components/Pagination.jsx:40-68 | on an existing page, "previous" and "next" are enabled iff the page they lead to exists |
| UsePokemonData.BatchesShape | pokemon-pokedex/src/hooks/usePokemonData.js:38-47 | the first batch is [0,100); no batch is wider than 100; each starts where the previous one ended |
| UsePokemonData.LaterBatchesShape | pokemon-pokedex/src/hooks/usePokemonData.js:42-47 | later batches are non-empty, at most 100 wide, contiguous, and start at the loop's first index |
| UsePokemonData.LaterBatchesCover | pokemon-pokedex/src/hooks/usePokemonData.js:42-48 | the later batches, cut from the index, are the index from their start on |
| UsePokemonData.BatchesCover | pokemon-pokedex/src/hooks/usePokemonData.js:38-48 | all batches, cut from the index, cover it exactly, in order, without overlap |
| UsePokemonData.AccumulatedIsPrefix | pokemon-pokedex/src/hooks/usePokemonData.js:34-55 | what the loader accumulates is the records of a prefix of the index; the whole index when every batch succeeds |
| UsePokemonData.FetchClamped | pokemon-pokedex/src/utils/pokemonApi.js:22 | a range past the end of the index fetches what the index holds, as `slice` clamps |
| UsePokemonData.FilteredIsSearchThenFilter | pokemon-pokedex/src/hooks/usePokemonData.js:61-77 | the listed items are the search followed by the filter; nothing when no details are loaded |
| UsePokemonData.SearchAndFilterCommute | pokemon-pokedex/src/hooks/usePokemonData.js:64-74 | search and filter can be applied in either order |
| UsePokemonData.FilteredMembership | pokemon-pokedex/src/hooks/usePokemonData.js:61-77 | an item is listed iff it is loaded, matched by a non-blank term, and kept by non-null conditions |
| UsePokemonData.TotalCount | pokemon-pokedex/src/hooks/usePokemonData.js:88 | the count of listed items never exceeds the loaded ones |
| UsePokemonData.PageSlice | pokemon-pokedex/src/hooks/usePokemonData.js:80-84 | a page never holds more than the page size |
| UsePokemonData.TotalPages | pokemon-pokedex/src/components/FavoritesPage.jsx:99 | the ceiling: the fewest pages that hold every item |
| UsePokemonData.ItemOnItsPage | pokemon-pokedex/src/hooks/usePokemonData.js:80-84 | item i is item i mod size of page i div size + 1 |
| UsePokemonData.PageNonEmptyIffInRange | pokemon-pokedex/src/hooks/usePokemonData.js:80-84 | a page is non-empty iff its number is between 1 and the page count |
| UsePokemonData.ItemRangeMatchesPage | pokemon-pokedex/src/components/Pagination.jsx:34-35 | on a non-empty page, startItem..endItem counts exactly the items shown, and they are those items |
| UsePokemonData.PokemonData.constructor | pokemon-pokedex/src/hooks/usePokemonData.js:6-11 | nothing loaded, the index loading, no error |
| UsePokemonData.PokemonData.LoadAllPokemonList | pokemon-pokedex/src/hooks/usePokemonData.js:14-28 | the index on success; otherwise the list error message; loading ends either way |
| UsePokemonData.PokemonData.LoadAllDetails | pokemon-pokedex/src/hooks/usePokemonData.js:31-58 | nothing happens for an empty index; a failed first batch keeps the old details; otherwise the details are the batches' records appended in order up to the first failure; loading ends |
| PokemonApi.IdFromUrl | pokemon-pokedex/src/utils/pokemonApi.js:26 | the identifier is a non-empty segment of the URL without '/' |
| PokemonApi.TrailingSlashIgnored | pokemon-pokedex/src/utils/pokemonApi.js:26 | a trailing slash does not change the identifier |
| PokemonApi.IdOfResourceUrl | pokemon-pokedex/src/utils/pokemonApi.js:26 | the identifier of prefix/id and prefix/id/ is id |
| PokemonApi.FirstJa | pokemon-pokedex/src/utils/pokemonApi.js:41-43 | the text of the first 'ja' entry; none iff no entry is 'ja' |
| PokemonApi.TextOr | pokemon-pokedex/src/utils/pokemonApi.js:43 | a missing or empty text gives the fallback, otherwise the text |
| PokemonApi.BatchDescription | pokemon-pokedex/src/utils/pokemonApi.js:46-48 | the batch description has no line break |
| PokemonApi.BatchDescriptionStartsFull | pokemon-pokedex/src/utils/pokemonApi.js:85-88 | the batch description is a prefix of the full description |
| PokemonApi.DescriptionsHaveNoLineBreaks | pokemon-pokedex/src/utils/pokemonApi.js:85-88 | the full description has no line break; with no 'ja' text both descriptions are empty |
| PokemonApi.BatchRecord | pokemon-pokedex/src/utils/pokemonApi.js:50-61 | a batch record never has a generation |
| PokemonApi.FetchAll | pokemon-pokedex/src/utils/pokemonApi.js:25-33 | on success there is one record per entry |
| PokemonApi.FetchPokemonDetails | pokemon-pokedex/src/utils/pokemonApi.js:20-67 | on success there is one record per entry of the slice |
| PokemonApi.FetchPokemonDetailsRecords | pokemon-pokedex/src/utils/pokemonApi.js:22-62 | success iff every entry of the slice is looked up; record k is built from slice entry k |
| PokemonApi.FetchAllConcat | pokemon-pokedex/src/utils/pokemonApi.js:25-33 | looking up two runs of entries is looking up their concatenation |
| PokemonApi.FetchAdjacentRanges | pokemon-pokedex/src/utils/pokemonApi.js:22 | fetching [a,b) then [b,c) gives the records of [a,c) |
| PokemonApi.EntryFor | pokemon-pokedex/src/utils/pokemonApi.js:126-148 | the entry carries the URL identifier, name and URL; a failed lookup sets the Japanese name to the species name |
| PokemonApi.SkeletonMembership | pokemon-pokedex/src/utils/pokemonApi.js:125-157 | the flattened list mentions exactly the species of the tree |
| PokemonApi.EvolutionEntries | pokemon-pokedex/src/utils/pokemonApi.js:122-159 | one entry per node in pre-order, starting with the root |
| PokemonApi.LookupsOnlyDecideJapaneseNames | pokemon-pokedex/src/utils/pokemonApi.js:129-148 | failing lookups change only Japanese names: length, identifiers, names and URLs do not depend on them |
| PokemonApi.EvolutionCollector.Traverse | pokemon-pokedex/src/utils/pokemonApi.js:125-155 | the accumulator grows by the node's entry, then each child's subtree, in order |
| PokemonApi.ParseEvolutionChain | pokemon-pokedex/src/utils/pokemonApi.js:122-159 | the resolved list is the pre-order entry list of the chain |
| PokemonApi.DetailRecord | pokemon-pokedex/src/utils/pokemonApi.js:100-114 | Japanese name, full description, first 'ja' genus or '', and the species' generation |
| PokemonApi.FetchPokemonFullDetailsAsWritten | pokemon-pokedex/src/utils/pokemonApi.js:70-119 | as written, the evolution field is a pending promise, or the empty list |
| PokemonApi.FetchPokemonFullDetails | pokemon-pokedex/src/utils/pokemonApi.js:70-119 | corrected: the evolution field is the parsed chain, or the empty list without one; success iff both documents and the chain load |
| PokemonApi.FullDetailsAgreeOutsideEvolution | pokemon-pokedex/src/utils/pokemonApi.js:91-95 | both versions succeed together and agree on everything but the evolution field |
| TranslatePokemon.LookupOr | pokemon-pokedex/src/utils/translatePokemon.js:27 | a listed non-empty value is returned; an unlisted key gives the fallback |
| TranslatePokemon.TypeTablesShape | pokemon-pokedex/src/utils/translatePokemon.js:4-23 | the type-name and colour tables list the same 18 types, with no empty value |
| TranslatePokemon.TypeTables | pokemon-pokedex/src/utils/translatePokemon.js:111-133 | a listed type gets its Japanese name and colour; any other keeps its name and gets '#68A090' |
| TranslatePokemon.StatTableShape | pokemon-pokedex/src/utils/translatePokemon.js:31-38 | no stat name is empty |
| TranslatePokemon.StatTable | pokemon-pokedex/src/utils/translatePokemon.js:41-43 | a listed stat gets its Japanese name; any other is unchanged |
| TranslatePokemon.TypeValuesAreNotKeys | pokemon-pokedex/src/utils/translatePokemon.js:4-23 | no Japanese type name is an English key |
| TranslatePokemon.StatValuesAreNotKeys | pokemon-pokedex/src/utils/translatePokemon.js:31-38 | no Japanese stat name is an English key |
| TranslatePokemon.TranslationsIdempotent | pokemon-pokedex/src/utils/translatePokemon.js:26-43 | translating an already translated name changes nothing |
| TranslatePokemon.GenerationTableAligned | pokemon-pokedex/src/utils/translatePokemon.js:46-92 | nine generations, each with as many Japanese titles as games |
| TranslatePokemon.LabelIn | pokemon-pokedex/src/utils/translatePokemon.js:95-97 | a listed generation with a label gets it; an unlisted one keeps its name |
| TranslatePokemon.IndexOf | pokemon-pokedex/src/utils/translatePokemon.js:102 | the position of the first occurrence, none iff absent |
| TranslatePokemon.GameNameIn | pokemon-pokedex/src/utils/translatePokemon.js:100-108 | a game no generation lists keeps its name |
| TranslatePokemon.GameNameFirstMatch | pokemon-pokedex/src/utils/translatePokemon.js:100-108 | the first generation listing a game gives the title at its first position there |
| TranslatePokemon.UnlistedGameUnchanged | pokemon-pokedex/src/utils/translatePokemon.js:107 | an unlisted game keeps its name |
| TranslatePokemon.GenerationGamesDistinct | pokemon-pokedex/src/utils/translatePokemon.js:46-92 | no game is listed twice in the table |
| TranslatePokemon.DistinctGamesTranslate | pokemon-pokedex/src/utils/translatePokemon.js:100-108 | with distinct games, every game gets the title beside it |
| TranslatePokemon.ListedGameTranslated | pokemon-pokedex/src/utils/translatePokemon.js:100-108 | every listed game gets the Japanese title at its own position |
| FilterModal.FilterModalState.constructor | pokemon-pokedex/src/components/FilterModal.jsx:8-11 | nothing selected; height 3..200 and weight 10..10000 tenths |
| FilterModal.FilterModalState.Initialize | pokemon-pokedex/src/components/FilterModal.jsx:14-21 | no filters leave the state unchanged; otherwise types and generations are copied (or emptied) and both ranges reset to the defaults |
| FilterModal.FilterModalState.ToggleType | pokemon-pokedex/src/components/FilterModal.jsx:24-30 | the type selection is toggled; membership flips; no duplicates are introduced; other fields unchanged |
| FilterModal.FilterModalState.ToggleGeneration | pokemon-pokedex/src/components/FilterModal.jsx:33-39 | the same for the generation selection |
| FilterModal.FilterModalState.HandleClear | pokemon-pokedex/src/components/FilterModal.jsx:42-47 | back to the initial state |
| FilterModal.ConditionsFrom | pokemon-pokedex/src/components/FilterModal.jsx:50-58 | the emitted conditions define both selections and all four bounds |
| FilterModal.DefaultsStillRestrict | pokemon-pokedex/src/components/FilterModal.jsx:50-58 | applying the untouched dialog keeps exactly the items with height 3..200 and weight 10..10000 tenths |
| FilterModal.ReopenLosesRanges | pokemon-pokedex/src/components/FilterModal.jsx:14-20 | reopening on applied conditions restores the selections but not the ranges |
| FilterTags.ActiveFilterTags | pokemon-pokedex/src/components/FavoritesPage.jsx:161-209 | null conditions show no tag |
| FilterTags.ActiveFilterTagsCount | pokemon-pokedex/src/components/FavoritesPage.jsx:161-209 | the tag count is the selection sizes plus one per range with a defined bound |
| FilterTags.WithoutValue | pokemon-pokedex/src/components/FavoritesPage.jsx:145-148 | a remaining list is non-empty and lacks the value; an emptied one is deleted |
| FilterTags.RemoveTag | pokemon-pokedex/src/components/FavoritesPage.jsx:139-158 | null conditions stay null; surviving conditions hold at least one key |
| FilterTags.RemoveTagFails | pokemon-pokedex/src/components/FavoritesPage.jsx:144-153 | removal raises iff the tag's list key is missing |
| FilterTags.RemoveTagCollapses | pokemon-pokedex/src/components/FavoritesPage.jsx:156 | the conditions become null iff no key remains |
| FilterTags.RemoveTypeTag | pokemon-pokedex/src/components/FavoritesPage.jsx:144-148 | every occurrence of the type goes; an emptied list is deleted; the other keys are kept |
| FilterTags.RemoveGenerationTag | pokemon-pokedex/src/components/FavoritesPage.jsx:149-153 | the same for generations |
| FilterTags.RemovingTypeTagDropsIt | pokemon-pokedex/src/components/FavoritesPage.jsx:139-158 | after removing a type tag, the tags shown are the old ones without that tag |
| FilterTags.RemovingGenerationTagDropsIt | pokemon-pokedex/src/components/FavoritesPage.jsx:139-158 | the same for a generation tag |
| FilterTags.RemovingRangeTagKeepsIt | pokemon-pokedex/src/components/FavoritesPage.jsx:144-156 | removing a height or weight tag leaves every tag shown |
| PokemonDetailPage.NeighbourNavigation | pokemon-pokedex/src/components/PokemonDetailPage.jsx:34-44 | previous and next navigate to id-1 and id+1 iff their buttons are enabled |
| PokemonDetailPage.NextThenPrevious | pokemon-pokedex/src/components/PokemonDetailPage.jsx:34-44 | next then previous returns to the same number below 1025 |
| PokemonDetailPage.BackToList | pokemon-pokedex/src/components/PokemonDetailPage.jsx:50-61 | the list page gets page, size, conditions and scroll from the card state, with 1, 20, null and 0 for missing or falsy ones |
| PokemonDetailPage.DisplayNumberReadsBack | pokemon-pokedex/src/components/PokemonDetailPage.jsx:128 | the displayed number has at least 3 digits, parses back to the id, and equals the plain number from 3 digits on |
| PokemonDetailPage.EvolutionRowShape | pokemon-pokedex/src/components/PokemonDetailPage.jsx:194-196 | every entry but the last is followed by an arrow: 2n-1 items, arrows exactly at odd positions |
| PokemonDetailPage.EvolutionSectionNeverShown | pokemon-pokedex/src/components/PokemonDetailPage.jsx:181 | as written, the evolution section is never shown |
| PokemonDetailPage.EvolutionSectionShownForChains | pokemon-pokedex/src/components/PokemonDetailPage.jsx:181 | corrected, the section is shown iff the species has an evolution chain, and it lists the chain |
| FavoritesPage.ResolveFavorites | pokemon-pokedex/src/components/FavoritesPage.jsx:47-58 | the resolution loop gives, in favourites order, the first index entry numbered as each favourite, skipping misses |
| FavoritesPage.ResolvedEntries | pokemon-pokedex/src/components/FavoritesPage.jsx:47-58 | no more entries than favourites, each from the index and numbered as some favourite |
| FavoritesPage.ResolvedAllFound | pokemon-pokedex/src/components/FavoritesPage.jsx:49-57 | when every favourite is found, entry k is the first entry numbered as favourite k |
| FavoritesPage.FoundIffListed | pokemon-pokedex/src/components/FavoritesPage.jsx:50-55 | a favourite is found iff some index entry's URL number parses to it |
| FavoritesPage.FavoritesPage.constructor | pokemon-pokedex/src/components/FavoritesPage.jsx:18-25 | page 1, 20 per page, no search, null conditions, nothing loaded, loading |
| FavoritesPage.FavoritesPage.LoadFavoritePokemons | pokemon-pokedex/src/components/FavoritesPage.jsx:31-71 | no favourites give no records and no fetch; otherwise the resolved entries' records, or the error message with the old records; loading ends |
| FavoritesPage.FavoritesPage.Displayed | pokemon-pokedex/src/components/FavoritesPage.jsx:93-97 | the current page holds at most one page size of cards |
| FavoritesPage.FavoritesPage.PageCount | pokemon-pokedex/src/components/FavoritesPage.jsx:99 | the ceiling of the filtered count over the page size: enough pages for every listed favourite, and no empty last page |
| FavoritesPage.DisplayedAreListed | pokemon-pokedex/src/components/FavoritesPage.jsx:74-97 | every card on the current page is a loaded favourite that the search finds and the filter keeps |
| FavoritesPage.DisplayedNonEmptyIffInRange | pokemon-pokedex/src/components/FavoritesPage.jsx:93-99 | the current page shows cards iff it lies between 1 and `totalPages` |
| FavoritesPage.BackCarriesView | pokemon-pokedex/src/components/FavoritesPage.jsx:101-110 | the state a card click sends (`FavoritesPage.FavoritesPage.CardClickState`) is marked as coming from the favourites page, and after the back button the list page shows this page's page, size and conditions |
| FavoritesPage.FavoritesPage.HandlePageChange | pokemon-pokedex/src/components/FavoritesPage.jsx:113-116 | only the page changes |
| FavoritesPage.FavoritesPage.HandleItemsPerPageChange | pokemon-pokedex/src/components/FavoritesPage.jsx:118-121 | new size, page 1 |
| FavoritesPage.FavoritesPage.HandleFilterApply | pokemon-pokedex/src/components/FavoritesPage.jsx:123-126 | new conditions, page 1 |
| FavoritesPage.FavoritesPage.HandleClearFilters | pokemon-pokedex/src/components/FavoritesPage.jsx:128-132 | null conditions, empty search, page 1, and every loaded favourite listed |
| FavoritesPage.FavoritesPage.HandleSearchChange | pokemon-pokedex/src/components/FavoritesPage.jsx:134-137 | new term, page 1 |
| FavoritesPage.FavoritesPage.HandleRemoveFilterTag | pokemon-pokedex/src/components/FavoritesPage.jsx:139-158 | nothing on null conditions or a raising removal; otherwise the reduced conditions and page 1 |
| PokemonList.ApplyParam | pokemon-pokedex/src/components/PokemonList.jsx:44-50 | one set or delete touches only its own key |
| PokemonList.MergedParamsLookup | pokemon-pokedex/src/components/PokemonList.jsx:42-52 | a key no update names is untouched; a named key ends with the last update's value, or deleted when that value is null, undefined or empty |
| PokemonList.NumberParamReadsBack | pokemon-pokedex/src/components/PokemonList.jsx:18-25 | a number a handler writes reads back as itself |
| PokemonList.SearchParamReadsBack | pokemon-pokedex/src/components/PokemonList.jsx:26-28 | a search term a handler writes reads back as itself |
| PokemonList.Restore | pokemon-pokedex/src/components/PokemonList.jsx:55-60 | without state the view stays; otherwise only truthy page, size and conditions are taken |
| PokemonList.BackRestoresView | pokemon-pokedex/src/components/PokemonList.jsx:55-79 | for a list page with a non-zero page and size, the state its card click sends (`PokemonList.PokemonList.CardClickState`), passed through the detail page's back button and the restore effect, gives back that page's own page, size and conditions, whatever the scroll position |
| Text.ParseIntOfHex | pokemon-pokedex/src/components/PokemonList.jsx:18-25 | after a `0x` prefix, any non-empty run of hexadecimal digits is read whole, in base 16 |
| Text.ParseIntHexTwo | pokemon-pokedex/src/components/PokemonList.jsx:20 | for example, `?page=0x2` reads as page 2 |
| Text.ParseIntHexEmpty | pokemon-pokedex/src/components/PokemonList.jsx:20 | a bare `0x` with no hexadecimal digit reads as `NaN` |
| PokemonList.PokemonList.constructor | pokemon-pokedex/src/components/PokemonList.jsx:18-29 | page, size and search from the query, defaulting to 1, 20 and ''; null conditions |
| PokemonList.PokemonList.UpdateURLParams | pokemon-pokedex/src/components/PokemonList.jsx:42-52 | the query after each update in turn; the view is unchanged |
| PokemonList.PokemonList.RestoreFromState | pokemon-pokedex/src/components/PokemonList.jsx:55-68 | the view becomes the restored view; search and query unchanged |
| PokemonList.PokemonList.HandlePageChange | pokemon-pokedex/src/components/PokemonList.jsx:81-85 | the page, in the state and the query |
| PokemonList.PokemonList.HandleItemsPerPageChange | pokemon-pokedex/src/components/PokemonList.jsx:87-91 | the size and page 1, in the state and the query |
| PokemonList.PokemonList.HandleFilterApply | pokemon-pokedex/src/components/PokemonList.jsx:93-97 | the conditions and page 1; the query gets page=1 |
| PokemonList.PokemonList.HandleClearFilters | pokemon-pokedex/src/components/PokemonList.jsx:99-104 | null conditions, empty search, page 1; the search parameter deleted and page=1 |
| PokemonList.PokemonList.HandleSearchChange | pokemon-pokedex/src/components/PokemonList.jsx:106-110 | the term and page 1; the query reads back the term and page=1 |
| PokemonList.PokemonList.PageCount | pokemon-pokedex/src/components/PokemonList.jsx:134 | the page count is the ceiling of the total over the page size: enough pages for every item, and no empty last page |
| PokemonList.PokemonList.HandleRemoveFilterTag | pokemon-pokedex/src/components/PokemonList.jsx:112-132 | the favourites page's rule, plus page=1 in the query |
| UpdateTestResults.Padded | pokemon-pokedex/update_test_results.py:29-30 | the row is kept as a prefix and filled with empty cells up to the width |
| UpdateTestResults.PadRow | pokemon-pokedex/update_test_results.py:29-30 | the padding loop pads to the width |
| UpdateTestResults.RecordedRowCells | pokemon-pokedex/update_test_results.py:29-34 | a recorded row has at least 13 cells, the date at 10, the result at 11, the note at 12 only when non-empty, every other cell as before or empty |
| UpdateTestResults.TestDictKeys | pokemon-pokedex/update_test_results.py:21 | a number is a key iff some entry carries it |
| UpdateTestResults.TestDictLastWins | pokemon-pokedex/update_test_results.py:21 | the last entry carrying a number decides its result and note |
| UpdateTestResults.UpdatedSheet | pokemon-pokedex/update_test_results.py:23-34 | the row count is unchanged |
| UpdateTestResults.UpdateTestResultsRows | pokemon-pokedex/update_test_results.py:14-38 | the loop writes back exactly the updated sheet |
| UpdateTestResults.UpdatedSheetRows | pokemon-pokedex/update_test_results.py:23-34 | the header and every unselected row are unchanged; a selected row is recorded with the last entry for its number |
| TestRunner.FirstMatch | pokemon-pokedex/test_runner.py:23-34 | the first non-header row starting with the test number, none iff there is none |
| TestRunner.UpdateTestResultAsWritten | pokemon-pokedex/test_runner.py:16-38 | the loop as written: stops at the first match, pads to 12 |
| TestRunner.AsWrittenFailsExactly | pokemon-pokedex/test_runner.py:28-32 | as written, the run raises iff a row matches, a note is given, and the row had at most 12 cells |
| TestRunner.AsWrittenShortRowWithNote | pokemon-pokedex/test_runner.py:28-32 | a one-cell row with a note raises the index error |
| TestRunner.TestRunner | pokemon-pokedex/test_runner.py:11-38 | corrected: the row count is unchanged |
| TestRunner.UpdateTestResult | pokemon-pokedex/test_runner.py:16-38 | the corrected loop writes back the corrected sheet |
| TestRunner.OnlyFirstMatchChanges | pokemon-pokedex/test_runner.py:23-34 | only the first matching row changes; it gets at least 13 cells, the date, the result and the note when given; no match changes nothing |
| TestRunner.CorrectedExtendsAsWritten | pokemon-pokedex/test_runner.py:28-33 | where the as-written run succeeds, the corrected one differs at most by a trailing empty cell |
| TestRunner.CorrectedShortRowWithNote | pokemon-pokedex/test_runner.py:28-32 | the corrected run writes the note into the one-cell row |
| UpdateCsvResults.UpdatedSheet | pokemon-pokedex/update_csv_results.py:20-37 | the row count is unchanged |
| UpdateCsvResults.UpdateCsvResults | pokemon-pokedex/update_csv_results.py:20-37 | the loop writes back exactly the updated sheet |
| UpdateCsvResults.HeldNotesNonEmpty | pokemon-pokedex/update_csv_results.py:13-17 | every held test has a note |
| UpdateCsvResults.UpdatedRowIsRecorded | pokemon-pokedex/update_csv_results.py:24-37 | a numbered row is updated as the batch recorder records the held status and note, or OK with no note |
| UpdateCsvResults.UpdatedSheetRows | pokemon-pokedex/update_csv_results.py:20-37 | rows that are the header, empty or not numbered are unchanged; numbered rows get at least 13 cells, the date, and the held status and note or OK with the old note |
| UpdateCsvResults.HeaderUnchanged | pokemon-pokedex/update_csv_results.py:20 | the header row is never touched |

## Left out

- Network I/O and concurrency: every request is an oracle field of `PokemonApi.Api` that either answers or fails. `Promise.all` parallelism, retries, timing and the legacy wrappers `getPokemons`, `getPokemonById`, `getPokemonSpecies` and `getPokemonWithDetails` are not modelled.
- Rendering, routing and browser APIs are not modelled: JSX, CSS, `App.js`, `Navigation.jsx`, `SearchBar.jsx`, `FavoriteButton.jsx`, `PokemonCard.jsx`, `PokemonDetail.jsx`, keyboard listeners, `setTimeout`, scrolling and `window.location.reload`.
- The search debounce is not part of this model; the pages filter with the search term directly.
- Floating point: slider values and `heightMin * 10` are exact integer tenths here. JavaScript's rounding of those products is not modelled, nor is the `toFixed(1)` display.
- Stat-bar percentages and the tag texts of the height and weight tags are display only.
- Storage: `localStorage` and `JSON.parse`/`stringify` become a field that holds a list of numbers, nothing, or unparsable text. Valid JSON that is not an array is not modelled, and neither are storage write errors.
- React: state batching, stale closures and effect ordering are not modelled. Each handler updates its state at once.
- Query parameters are a map from key to value. The key order of `URLSearchParams`, repeated keys and the `navigate` call are not modelled.
- Table lookups see only the listed keys. JavaScript's inherited object keys (`constructor`, `toString`) are not modelled.
- Type colours are modelled only through `GetTypeColor`. The badge colours of the filter tags are not modelled.
- PokemonList.PokemonList.constructor: requires the `page` and `items` parameters to parse as numbers when present, because a `NaN` page or size is not modelled.
- UsePokemonData.TotalPages: requires a page size of at least 1, because the `Infinity`/`NaN` page count of a zero size is not modelled; the same holds for `FavoritesPage.FavoritesPage.PageCount` and `PokemonList.PokemonList.PageCount`.
- FilterPokemon.SearchPokemons / Text.ToLower: `toLowerCase` is modelled only for the capitals that lower to one character at a fixed distance: A to Z, the Latin-1 capitals, Greek, Cyrillic and the full-width Latin letters. Other scripts (Latin Extended, Armenian, Georgian, Roman numerals, circled letters and more), the two-character lower case of U+0130 and the final form of sigma are not modelled: the model leaves those characters as they are, where JavaScript changes them.
- FilterPokemon.SearchPokemonsMembership: "lower-cased" means `Text.ToLower`, so the membership rule is stated only for the folding described in the line above.
- FilterPokemon.SearchCaseInsensitive: covers queries that are equal once `Text.ToLower` is applied. Queries that differ only in the case of letters outside the alphabets listed above are not covered.
- Text.ParseInt: numerals are read as exact integers. JavaScript's rounding of numerals beyond 2^53 is not modelled.
- Python `str.isdigit` is modelled on ASCII digits. Other Unicode digits are not modelled.
- The scripts' CSV reading and writing, their printed messages and `__main__` blocks (the argument check of `test_runner.py` and the hard-coded result list of `update_test_results.py`) are not modelled.
- The scripts' run date is one parameter per run. `datetime.now()` is read once per updated row in `update_test_results.py` and `test_runner.py`, and a run across midnight is not modelled.
- The back button of the detail page always returns to the list page, even when the card was opened from the favourites page (`fromFavorites` is carried but never read). The model reproduces this and does not treat it as a defect.

## Findings

| source | as written | input that shows it | evidently intended | confidence | as-written member | corrected member |
|---|---|---|---|---|---|---|
| pokemon-pokedex/src/utils/pokemonApi.js:94 | `evolutionChain` is assigned the promise returned by the async `parseEvolutionChain`, without `await` | any species document with an `evolution_chain` whose chain document loads | the resolved list of entries, so that the detail page shows the evolution section | high, not executed | PokemonDetailPage.EvolutionSectionNeverShown | PokemonDetailPage.EvolutionSectionShownForChains |
| pokemon-pokedex/test_runner.py:28-32 | the matched row is padded to 12 cells, then the note is written into cell 12 | rows `[["No"], ["1"]]`, test number "1", note "memo": `IndexError`, and the file is not rewritten | pad to 13 cells, as `update_test_results.py:29-30` does, so the note lands in the 13th column | high, not executed | TestRunner.AsWrittenShortRowWithNote | TestRunner.CorrectedShortRowWithNote |
