/**
 * The favourites page: it resolves the favourite numbers to index entries,
 * loads their records, and lists them with the same search, filter, paging
 * and tag rules as the list page.
 */
module FavoritesPage {
  import opened Wrappers
  import opened Seqs
  import opened Text
  import opened Records
  import opened FilterPokemon
  import opened PokemonApi
  import opened UsePokemonData
  import opened FilterTags
  import opened PokemonDetailPage
  import PokemonList

  /** The message shown when the favourites cannot be loaded. */
  const FAVORITES_ERROR: string := "お気に入りポケモンの取得に失敗しました"

  // ---------------------------------------------------------------------
  // Resolving favourite numbers
  // ---------------------------------------------------------------------

  /** `parseInt(url.split('/').filter(Boolean).pop())`; `None` is `NaN`. */
  function UrlNumber(url: string): Option<int> {
    match IdFromUrl(url)
    case None => None
    case Some(id) => ParseInt(id)
  }

  predicate HasNumber(entry: Named, favoriteId: int) {
    UrlNumber(entry.url) == Some(favoriteId)
  }

  function NumberIs(favoriteId: int): Named -> bool {
    entry => HasNumber(entry, favoriteId)
  }

  /** The entries found for the favourites: for each, in order, the first entry with its number. */
  function Resolved(list: seq<Named>, favorites: seq<int>): seq<Named>
    decreases |favorites|
  {
    if favorites == [] then []
    else
      var last := favorites[|favorites| - 1];
      Resolved(list, favorites[..|favorites| - 1])
      + match Find(list, NumberIs(last)) case Some(e) => [e] case None => []
  }

  /** The resolution loop: each favourite's first matching entry is appended; a miss is skipped. */
  method ResolveFavorites(list: seq<Named>, favorites: seq<int>) returns (favoritePokemonData: seq<Named>)
    ensures favoritePokemonData == Resolved(list, favorites)
  {
    favoritePokemonData := [];
    for k := 0 to |favorites|
      invariant favoritePokemonData == Resolved(list, favorites[..k])
    {
      assert favorites[..k + 1][..k] == favorites[..k];
      var pokemon := Find(list, NumberIs(favorites[k]));
      if pokemon.Some? {
        favoritePokemonData := favoritePokemonData + [pokemon.value];
      }
    }
    assert favorites[..|favorites|] == favorites;
  }

  /**
   * No more entries than favourites, each taken from the index and carrying
   * the number of some favourite.
   */
  lemma {:induction false} ResolvedEntries(list: seq<Named>, favorites: seq<int>)
    ensures |Resolved(list, favorites)| <= |favorites|
    ensures forall e :: e in Resolved(list, favorites) ==>
      e in list && exists k :: 0 <= k < |favorites| && HasNumber(e, favorites[k])
    decreases |favorites|
  {
    if favorites != [] {
      var init := favorites[..|favorites| - 1];
      ResolvedEntries(list, init);
      forall e | e in Resolved(list, favorites)
        ensures e in list && exists k :: 0 <= k < |favorites| && HasNumber(e, favorites[k])
      {
        if e in Resolved(list, init) {
          var k :| 0 <= k < |init| && HasNumber(e, init[k]);
          assert favorites[k] == init[k];
        } else {
          assert HasNumber(e, favorites[|favorites| - 1]);
        }
      }
    }
  }

  /**
   * When every favourite has an entry, there is one entry per favourite, in
   * favourites order, each the first entry of the index with that number.
   */
  lemma {:induction false} ResolvedAllFound(list: seq<Named>, favorites: seq<int>)
    requires forall k :: 0 <= k < |favorites| ==> Find(list, NumberIs(favorites[k])).Some?
    ensures |Resolved(list, favorites)| == |favorites|
    ensures forall k :: 0 <= k < |favorites| ==>
      Some(Resolved(list, favorites)[k]) == Find(list, NumberIs(favorites[k]))
    decreases |favorites|
  {
    if favorites != [] {
      var n := |favorites|;
      var init := favorites[..n - 1];
      assert forall k :: 0 <= k < |init| ==> init[k] == favorites[k];
      ResolvedAllFound(list, init);
      var found := Find(list, NumberIs(favorites[n - 1]));
      var r := Resolved(list, favorites);
      assert r == Resolved(list, init) + [found.value];
      forall k | 0 <= k < n ensures Some(r[k]) == Find(list, NumberIs(favorites[k])) {
        if k < n - 1 {
          assert r[k] == Resolved(list, init)[k] && init[k] == favorites[k];
        }
      }
    }
  }

  /** A favourite has an entry exactly when some entry of the index carries its number. */
  lemma FoundIffListed(list: seq<Named>, favoriteId: int)
    ensures Find(list, NumberIs(favoriteId)).Some? <==> exists e :: e in list && HasNumber(e, favoriteId)
  {
    if e :| e in list && HasNumber(e, favoriteId) {
      var i :| 0 <= i < |list| && list[i] == e;
      assert NumberIs(favoriteId)(list[i]);
    }
  }

  // ---------------------------------------------------------------------
  // What the page shows
  // ---------------------------------------------------------------------

  /** A card on the current page is a loaded favourite that the search and the filter keep. */
  lemma DisplayedAreListed(f: FavoritesPage, p: Pokemon)
    requires p in f.Displayed()
    ensures p in f.favoritePokemons
    ensures IsBlankQuery(Some(f.searchTerm)) || Matches(p, NormalizedQuery(f.searchTerm))
    ensures f.filterConditions.None? || Keep(p, f.filterConditions.value)
  {
    var start := (f.currentPage - 1) * f.itemsPerPage;
    SliceMembers(f.Filtered(), start, start + f.itemsPerPage, p);
    FilteredMembership(f.favoritePokemons, f.searchTerm, f.filterConditions, p);
  }

  /** The current page shows cards exactly when it is one of the `totalPages` pages. */
  lemma DisplayedNonEmptyIffInRange(f: FavoritesPage)
    requires f.itemsPerPage >= 1 && f.currentPage >= 0
    ensures f.Displayed() != [] <==> 1 <= f.currentPage <= f.PageCount()
  {
    PageNonEmptyIffInRange(f.Filtered(), f.currentPage, f.itemsPerPage);
  }

  /**
   * A card clicked here is marked as coming from the favourites page, and
   * the detail page's back button then lands on the list page showing this
   * page's page number, page size and conditions.
   */
  lemma BackCarriesView(f: FavoritesPage, scrollPosition: int)
    requires f.currentPage != 0 && f.itemsPerPage != 0
    ensures f.CardClickState(scrollPosition).fromFavorites
    ensures PokemonList.Restore(PokemonList.FRESH_VIEW, Some(BackToList(Some(f.CardClickState(scrollPosition)))))
      == PokemonList.View(f.currentPage, f.itemsPerPage, f.filterConditions)
  {
  }

  // ---------------------------------------------------------------------
  // The page's state
  // ---------------------------------------------------------------------

  class FavoritesPage {
    var currentPage: int
    var itemsPerPage: int
    var searchTerm: string
    var filterConditions: Option<Conditions>
    var favoritePokemons: seq<Pokemon>
    var loading: bool
    var error: Option<string>

    /** The first render. */
    constructor()
      ensures currentPage == 1 && itemsPerPage == 20 && searchTerm == "" && filterConditions.None?
      ensures favoritePokemons == [] && loading && error.None?
    {
      currentPage := 1;
      itemsPerPage := 20;
      searchTerm := "";
      filterConditions := None;
      favoritePokemons := [];
      loading := true;
      error := None;
    }

    /**
     * `loadFavoritePokemons`: nothing to fetch without favourites; otherwise
     * the index, the resolved entries and their records, or an error.
     */
    method LoadFavoritePokemons(api: Api, favorites: seq<int>)
      modifies this
      ensures !loading
      ensures currentPage == old(currentPage) && itemsPerPage == old(itemsPerPage)
      ensures searchTerm == old(searchTerm) && filterConditions == old(filterConditions)
      ensures |favorites| == 0 ==> favoritePokemons == [] && error == old(error)
      ensures |favorites| > 0 && api.list.None? ==>
        favoritePokemons == old(favoritePokemons) && error == Some(FAVORITES_ERROR)
      ensures |favorites| > 0 && api.list.Some? ==>
        var found := FetchAll(api, Resolved(api.list.value, favorites));
        (found.Some? ==> favoritePokemons == found.value && error.None?)
        && (found.None? ==> favoritePokemons == old(favoritePokemons) && error == Some(FAVORITES_ERROR))
    {
      if |favorites| == 0 {
        favoritePokemons := [];
        loading := false;
        return;
      }
      loading := true;
      error := None;
      var allPokemonList := FetchAllPokemonList(api);
      if allPokemonList.None? {
        error := Some(FAVORITES_ERROR);
        loading := false;
        return;
      }
      var favoritePokemonData := ResolveFavorites(allPokemonList.value, favorites);
      assert Slice(favoritePokemonData, 0, |favoritePokemonData|) == favoritePokemonData;
      var details := FetchPokemonDetails(api, favoritePokemonData, 0, |favoritePokemonData|);
      if details.None? {
        error := Some(FAVORITES_ERROR);
        loading := false;
        return;
      }
      favoritePokemons := details.value;
      loading := false;
    }

    /** `filteredPokemons`, by the same rule as the list page. */
    function Filtered(): seq<Pokemon>
      reads this
    {
      FilteredPokemons(favoritePokemons, searchTerm, filterConditions)
    }

    /** `displayedPokemons`: the current page of the filtered list. */
    function Displayed(): (r: seq<Pokemon>)
      reads this
      ensures itemsPerPage >= 0 ==> |r| <= itemsPerPage
    {
      PageSlice(Filtered(), currentPage, itemsPerPage)
    }

    /** `totalPages`. */
    function PageCount(): (r: nat)
      reads this
      requires itemsPerPage >= 1
      ensures r * itemsPerPage >= |Filtered()|
      ensures r == 0 || (r - 1) * itemsPerPage < |Filtered()|
    {
      TotalPages(|Filtered()|, itemsPerPage)
    }

    /** The state a card click sends to the detail page. */
    function CardClickState(scrollPosition: int): CardState
      reads this
    {
      CardState(currentPage, itemsPerPage, filterConditions, scrollPosition, true)
    }

    /** `handlePageChange`: only the page changes. */
    method HandlePageChange(page: int)
      modifies this
      ensures currentPage == page
      ensures itemsPerPage == old(itemsPerPage) && searchTerm == old(searchTerm)
      ensures filterConditions == old(filterConditions) && favoritePokemons == old(favoritePokemons)
    {
      currentPage := page;
    }

    /** `handleItemsPerPageChange`: the new size, back to page 1. */
    method HandleItemsPerPageChange(count: int)
      modifies this
      ensures itemsPerPage == count && currentPage == 1
      ensures searchTerm == old(searchTerm) && filterConditions == old(filterConditions)
      ensures favoritePokemons == old(favoritePokemons)
    {
      itemsPerPage := count;
      currentPage := 1;
    }

    /** `handleFilterApply`: the new conditions, back to page 1. */
    method HandleFilterApply(conditions: Conditions)
      modifies this
      ensures filterConditions == Some(conditions) && currentPage == 1
      ensures itemsPerPage == old(itemsPerPage) && searchTerm == old(searchTerm)
      ensures favoritePokemons == old(favoritePokemons)
    {
      filterConditions := Some(conditions);
      currentPage := 1;
    }

    /** `handleClearFilters`: no conditions, no search, page 1; every favourite is listed again. */
    method HandleClearFilters()
      modifies this
      ensures filterConditions.None? && searchTerm == "" && currentPage == 1
      ensures itemsPerPage == old(itemsPerPage) && favoritePokemons == old(favoritePokemons)
      ensures Filtered() == favoritePokemons
    {
      filterConditions := None;
      searchTerm := "";
      currentPage := 1;
    }

    /** `handleSearchChange`: the new term, back to page 1. */
    method HandleSearchChange(term: string)
      modifies this
      ensures searchTerm == term && currentPage == 1
      ensures itemsPerPage == old(itemsPerPage) && filterConditions == old(filterConditions)
      ensures favoritePokemons == old(favoritePokemons)
    {
      searchTerm := term;
      currentPage := 1;
    }

    /**
     * `handleRemoveFilterTag`: nothing happens without conditions or when
     * the handler raises; otherwise the reduced conditions and page 1.
     */
    method HandleRemoveFilterTag(kind: TagKind, value: string)
      modifies this
      ensures itemsPerPage == old(itemsPerPage) && searchTerm == old(searchTerm)
      ensures favoritePokemons == old(favoritePokemons)
      ensures old(filterConditions).None? || RemoveTag(old(filterConditions), kind, value).TypeError? ==>
        filterConditions == old(filterConditions) && currentPage == old(currentPage)
      ensures old(filterConditions).Some? && RemoveTag(old(filterConditions), kind, value).Updated? ==>
        filterConditions == RemoveTag(old(filterConditions), kind, value).conditions && currentPage == 1
    {
      if filterConditions.None? {
        return;
      }
      var removal := RemoveTag(filterConditions, kind, value);
      if removal.TypeError? {
        return;
      }
      filterConditions := removal.conditions;
      currentPage := 1;
    }
  }
}
