/**
 * The list page's own state: page, page size, search term and filter
 * conditions, mirrored into the address bar's query parameters, and
 * restored from them on load and from the detail page on the way back.
 */
module PokemonList {
  import opened Wrappers
  import opened Text
  import opened FilterPokemon
  import opened UsePokemonData
  import opened FilterTags
  import opened PokemonDetailPage

  // ---------------------------------------------------------------------
  // Query parameters
  // ---------------------------------------------------------------------

  /** The query parameters, one value per key. */
  type Params = map<string, string>

  /** One `[key, value]` of `updateURLParams`; `None` is `null` or `undefined`. */
  type ParamUpdate = (string, Option<string>)

  /** A value is written when it is present and not the empty string. */
  predicate Writes(value: Option<string>) {
    value.Some? && |value.value| > 0
  }

  /** One step of the `forEach`: `set` a written value, `delete` otherwise. */
  function ApplyParam(params: Params, update: ParamUpdate): (r: Params)
    ensures forall k :: k != update.0 ==> (k in r <==> k in params) && (k in r ==> r[k] == params[k])
  {
    if Writes(update.1) then params[update.0 := update.1.value] else params - {update.0}
  }

  /** The parameters after every update, in order. */
  function MergedParams(params: Params, updates: seq<ParamUpdate>): Params
    decreases |updates|
  {
    if updates == [] then params
    else ApplyParam(MergedParams(params, updates[..|updates| - 1]), updates[|updates| - 1])
  }

  /** The value the last update for `key` gives it, if any update names `key`. */
  function LastUpdate(updates: seq<ParamUpdate>, key: string): (r: Option<Option<string>>)
    ensures r.None? <==> forall i :: 0 <= i < |updates| ==> updates[i].0 != key
    decreases |updates|
  {
    if updates == [] then None
    else if updates[|updates| - 1].0 == key then Some(updates[|updates| - 1].1)
    else LastUpdate(updates[..|updates| - 1], key)
  }

  /**
   * A key no update names keeps its value (or its absence); a key that is
   * named holds the last value given to it when that value is written, and
   * is deleted otherwise.
   */
  lemma {:induction false} MergedParamsLookup(params: Params, updates: seq<ParamUpdate>, key: string)
    ensures LastUpdate(updates, key).None? ==>
      (key in MergedParams(params, updates) <==> key in params)
      && (key in params ==> MergedParams(params, updates)[key] == params[key])
    ensures LastUpdate(updates, key).Some? ==>
      (key in MergedParams(params, updates) <==> Writes(LastUpdate(updates, key).value))
      && (Writes(LastUpdate(updates, key).value) ==>
            MergedParams(params, updates)[key] == LastUpdate(updates, key).value.value)
    decreases |updates|
  {
    if updates != [] {
      MergedParamsLookup(params, updates[..|updates| - 1], key);
    }
  }

  /** A number parameter: `value ? parseInt(value) : fallback`, where the value parses. */
  predicate NumericParam(params: Params, key: string) {
    key in params && |params[key]| > 0 ==> ParseInt(params[key]).Some?
  }

  function NumberParam(params: Params, key: string, fallback: int): int
    requires NumericParam(params, key)
  {
    if key in params && |params[key]| > 0 then ParseInt(params[key]).value else fallback
  }

  /** `get('search') || ''`. */
  function SearchParam(params: Params): string {
    if "search" in params then params["search"] else ""
  }

  /** A number written by a handler reads back as itself. */
  lemma NumberParamReadsBack(params: Params, key: string, n: nat, fallback: int)
    ensures NumericParam(ApplyParam(params, (key, Some(IntToString(n)))), key)
    ensures NumberParam(ApplyParam(params, (key, Some(IntToString(n)))), key, fallback) == n
  {
    ParseIntOfNatToString(n);
  }

  /** A search term written by a handler reads back as itself, the empty one included. */
  lemma SearchParamReadsBack(params: Params, term: string)
    ensures SearchParam(ApplyParam(params, ("search", Some(term)))) == term
  {
  }

  // ---------------------------------------------------------------------
  // Coming back from the detail page
  // ---------------------------------------------------------------------

  /** The part of the page's state that survives a visit to the detail page. */
  datatype View = View(page: int, itemsPerPage: int, filterConditions: Option<Conditions>)

  /** The restore effect: only the truthy fields of the incoming state are taken. */
  function Restore(view: View, state: Option<ListState>): (r: View)
    ensures state.None? ==> r == view
    ensures state.Some? ==>
      r.page == (if state.value.page != 0 then state.value.page else view.page)
      && r.itemsPerPage == (if state.value.itemsPerPage != 0 then state.value.itemsPerPage else view.itemsPerPage)
      && r.filterConditions == (if state.value.filterConditions.Some? then state.value.filterConditions else view.filterConditions)
  {
    match state
    case None => view
    case Some(s) =>
      View(
        if s.page != 0 then s.page else view.page,
        if s.itemsPerPage != 0 then s.itemsPerPage else view.itemsPerPage,
        if s.filterConditions.Some? then s.filterConditions else view.filterConditions)
  }

  /** The view of a freshly mounted list page reached without query parameters. */
  const FRESH_VIEW: View := View(1, 20, None)

  /**
   * A card click, the detail page's back button and the restore effect
   * bring back the page, the page size and the conditions the list page
   * had, whatever the scroll position.
   */
  lemma BackRestoresView(l: PokemonList, scrollPosition: int)
    requires l.currentPage != 0 && l.itemsPerPage != 0
    ensures Restore(FRESH_VIEW, Some(BackToList(Some(l.CardClickState(scrollPosition))))) == l.CurrentView()
  {
  }

  // ---------------------------------------------------------------------
  // The page's state
  // ---------------------------------------------------------------------

  class PokemonList {
    var currentPage: int
    var itemsPerPage: int
    var searchTerm: string
    var filterConditions: Option<Conditions>
    var urlParams: Params

    /** The view part of the state. */
    function CurrentView(): View
      reads this
    {
      View(currentPage, itemsPerPage, filterConditions)
    }

    /** The first render: page, page size and search from the query parameters. */
    constructor(params: Params)
      requires NumericParam(params, "page") && NumericParam(params, "items")
      ensures currentPage == NumberParam(params, "page", 1)
      ensures itemsPerPage == NumberParam(params, "items", 20)
      ensures searchTerm == SearchParam(params) && filterConditions.None? && urlParams == params
    {
      currentPage := NumberParam(params, "page", 1);
      itemsPerPage := NumberParam(params, "items", 20);
      searchTerm := SearchParam(params);
      filterConditions := None;
      urlParams := params;
    }

    /** `updateURLParams(newParams)`: each entry in turn sets or deletes its key. */
    method UpdateURLParams(updates: seq<ParamUpdate>)
      modifies this
      ensures urlParams == MergedParams(old(urlParams), updates)
      ensures CurrentView() == old(CurrentView()) && searchTerm == old(searchTerm)
    {
      for k := 0 to |updates|
        invariant urlParams == MergedParams(old(urlParams), updates[..k])
        invariant CurrentView() == old(CurrentView()) && searchTerm == old(searchTerm)
      {
        assert updates[..k + 1][..k] == updates[..k];
        var (key, value) := updates[k];
        if value.Some? && |value.value| > 0 {
          urlParams := urlParams[key := value.value];
        } else {
          urlParams := urlParams - {key};
        }
      }
      assert updates[..|updates|] == updates;
    }

    /** The restore effect on the state handed back by the detail page. */
    method RestoreFromState(state: Option<ListState>)
      modifies this
      ensures CurrentView() == Restore(old(CurrentView()), state)
      ensures searchTerm == old(searchTerm) && urlParams == old(urlParams)
    {
      if state.Some? {
        var s := state.value;
        if s.page != 0 {
          currentPage := s.page;
        }
        if s.itemsPerPage != 0 {
          itemsPerPage := s.itemsPerPage;
        }
        if s.filterConditions.Some? {
          filterConditions := s.filterConditions;
        }
      }
    }

    /** The state a card click sends to the detail page. */
    function CardClickState(scrollPosition: int): CardState
      reads this
    {
      CardState(currentPage, itemsPerPage, filterConditions, scrollPosition, false)
    }

    /** `handlePageChange`: the page, in the state and in the query. */
    method HandlePageChange(page: int)
      modifies this
      ensures currentPage == page && itemsPerPage == old(itemsPerPage)
      ensures searchTerm == old(searchTerm) && filterConditions == old(filterConditions)
      ensures urlParams == MergedParams(old(urlParams), [("page", Some(IntToString(page)))])
    {
      currentPage := page;
      UpdateURLParams([("page", Some(IntToString(page)))]);
    }

    /** `handleItemsPerPageChange`: the size, back to page 1, both in the query. */
    method HandleItemsPerPageChange(count: int)
      modifies this
      ensures itemsPerPage == count && currentPage == 1
      ensures searchTerm == old(searchTerm) && filterConditions == old(filterConditions)
      ensures urlParams == MergedParams(old(urlParams), [("items", Some(IntToString(count))), ("page", Some("1"))])
    {
      itemsPerPage := count;
      currentPage := 1;
      UpdateURLParams([("items", Some(IntToString(count))), ("page", Some("1"))]);
    }

    /** `handleFilterApply`: the conditions, back to page 1. */
    method HandleFilterApply(conditions: Conditions)
      modifies this
      ensures filterConditions == Some(conditions) && currentPage == 1
      ensures itemsPerPage == old(itemsPerPage) && searchTerm == old(searchTerm)
      ensures urlParams == MergedParams(old(urlParams), [("page", Some("1"))])
    {
      filterConditions := Some(conditions);
      currentPage := 1;
      UpdateURLParams([("page", Some("1"))]);
    }

    /** `handleClearFilters`: no conditions, no search (the parameter is deleted), page 1. */
    method HandleClearFilters()
      modifies this
      ensures filterConditions.None? && searchTerm == "" && currentPage == 1
      ensures itemsPerPage == old(itemsPerPage)
      ensures urlParams == MergedParams(old(urlParams), [("search", Some("")), ("page", Some("1"))])
      ensures "search" !in urlParams && urlParams["page"] == "1"
    {
      filterConditions := None;
      searchTerm := "";
      currentPage := 1;
      UpdateURLParams([("search", Some("")), ("page", Some("1"))]);
    }

    /** `handleSearchChange`: the term, back to page 1, both in the query. */
    method HandleSearchChange(term: string)
      modifies this
      ensures searchTerm == term && currentPage == 1
      ensures itemsPerPage == old(itemsPerPage) && filterConditions == old(filterConditions)
      ensures urlParams == MergedParams(old(urlParams), [("search", Some(term)), ("page", Some("1"))])
      ensures SearchParam(urlParams) == term && urlParams["page"] == "1"
    {
      searchTerm := term;
      currentPage := 1;
      UpdateURLParams([("search", Some(term)), ("page", Some("1"))]);
    }

    /**
     * `handleRemoveFilterTag`: nothing happens without conditions or when
     * the handler raises; otherwise the reduced conditions and page 1.
     */
    method HandleRemoveFilterTag(kind: TagKind, value: string)
      modifies this
      ensures itemsPerPage == old(itemsPerPage) && searchTerm == old(searchTerm)
      ensures old(filterConditions).None? || RemoveTag(old(filterConditions), kind, value).TypeError? ==>
        filterConditions == old(filterConditions) && currentPage == old(currentPage) && urlParams == old(urlParams)
      ensures old(filterConditions).Some? && RemoveTag(old(filterConditions), kind, value).Updated? ==>
        filterConditions == RemoveTag(old(filterConditions), kind, value).conditions && currentPage == 1
        && urlParams == MergedParams(old(urlParams), [("page", Some("1"))])
    {
      if filterConditions.None? {
        return;
      }
      var removal := RemoveTag(filterConditions, kind, value);
      if removal.TypeError? {
        return;
      }
      filterConditions := removal.conditions;
      currentPage := 1;
      UpdateURLParams([("page", Some("1"))]);
    }

    /** `totalPages`, from the hook's `totalCount`. */
    function PageCount(totalCount: nat): (r: nat)
      reads this
      requires itemsPerPage >= 1
      ensures r * itemsPerPage >= totalCount
      ensures r == 0 || (r - 1) * itemsPerPage < totalCount
    {
      TotalPages(totalCount, itemsPerPage)
    }
  }
}
