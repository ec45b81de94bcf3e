/**
 * The catalogue data hook: loads the index, then the item records in
 * batches of one hundred, and derives the filtered list and the current page.
 */
module UsePokemonData {
  import opened Wrappers
  import opened Seqs
  import opened Text
  import opened Records
  import opened FilterPokemon
  import opened PokemonApi
  import Pagination

  /** The number of index entries each batch looks up. */
  const BATCH_SIZE: nat := 100

  // ---------------------------------------------------------------------
  // The batch schedule
  // ---------------------------------------------------------------------

  /** The batches after the first: `[i, min(i + 100, n))` for i = start, start + 100, ... below n. */
  function LaterBatches(start: nat, n: nat): seq<(nat, nat)>
    decreases n - start
  {
    if start < n then [(start, Pagination.Min(start + BATCH_SIZE, n) as nat)] + LaterBatches(start + BATCH_SIZE, n)
    else []
  }

  /** Every batch the loader requests for an index of `n` entries, in request order. */
  function Batches(n: nat): seq<(nat, nat)> {
    [(0, BATCH_SIZE)] + LaterBatches(BATCH_SIZE, n)
  }

  /** Later batches are non-empty, at most 100 wide, and each starts where the previous ended. */
  lemma {:induction false} LaterBatchesShape(start: nat, n: nat)
    ensures forall k :: 0 <= k < |LaterBatches(start, n)| ==>
      LaterBatches(start, n)[k].0 < LaterBatches(start, n)[k].1 <= n
      && LaterBatches(start, n)[k].1 - LaterBatches(start, n)[k].0 <= BATCH_SIZE
    ensures LaterBatches(start, n) != [] ==> LaterBatches(start, n)[0].0 == start
    ensures forall k :: 0 <= k < |LaterBatches(start, n)| - 1 ==>
      LaterBatches(start, n)[k].1 == LaterBatches(start, n)[k + 1].0
    decreases n - start
  {
    if start < n {
      LaterBatchesShape(start + BATCH_SIZE, n);
      var rest := LaterBatches(start + BATCH_SIZE, n);
      assert LaterBatches(start, n)[1..] == rest;
    }
  }

  /**
   * No batch is wider than 100, the first is `[0, 100)`, and each batch
   * starts where the previous one ended.
   */
  lemma BatchesShape(n: nat)
    ensures Batches(n)[0] == (0, BATCH_SIZE)
    ensures forall k :: 0 <= k < |Batches(n)| ==> Batches(n)[k].1 - Batches(n)[k].0 <= BATCH_SIZE
    ensures forall k :: 0 <= k < |Batches(n)| - 1 ==> Batches(n)[k].1 == Batches(n)[k + 1].0
  {
    LaterBatchesShape(BATCH_SIZE, n);
    var later := LaterBatches(BATCH_SIZE, n);
    assert Batches(n)[1..] == later;
  }

  function SliceFn(list: seq<Named>): ((nat, nat)) -> seq<Named> {
    (b: (nat, nat)) => Slice(list, b.0, b.1)
  }

  /** The later batches, cut out of the index, are the index from `start` on. */
  lemma {:induction false} LaterBatchesCover(list: seq<Named>, start: nat)
    requires start <= |list|
    ensures Flatten(Map(SliceFn(list), LaterBatches(start, |list|))) == list[start..]
    decreases |list| - start
  {
    var n := |list|;
    if start < n {
      var next := start + BATCH_SIZE;
      LaterBatchCut(list, start);
      if next <= n {
        LaterBatchesCover(list, next);
        assert list[start..] == list[start..next] + list[next..];
      } else {
        assert LaterBatches(next, n) == [];
      }
    }
  }

  /** The first later batch, cut out of the index, followed by the rest. */
  lemma LaterBatchCut(list: seq<Named>, start: nat)
    requires start < |list|
    ensures Flatten(Map(SliceFn(list), LaterBatches(start, |list|)))
      == list[start..Pagination.Min(start + BATCH_SIZE, |list|)]
        + Flatten(Map(SliceFn(list), LaterBatches(start + BATCH_SIZE, |list|)))
  {
    var n := |list|;
    var end := Pagination.Min(start + BATCH_SIZE, n);
    var rest := LaterBatches(start + BATCH_SIZE, n);
    assert LaterBatches(start, n) == [(start, end as nat)] + rest;
    MapConcat(SliceFn(list), [(start, end as nat)], rest);
    var piece := Slice(list, start, end);
    assert Map(SliceFn(list), [(start, end as nat)]) == [piece];
    assert piece == list[start..end];
    FlattenConcat([piece], Map(SliceFn(list), rest));
    assert Flatten([piece]) == piece + Flatten([]);
  }

  /** The batches, cut out of the index, cover it exactly, in order and without overlap. */
  lemma BatchesCover(list: seq<Named>)
    ensures Flatten(Map(SliceFn(list), Batches(|list|))) == list
  {
    var n := |list|;
    var later := LaterBatches(BATCH_SIZE, n);
    MapConcat(SliceFn(list), [(0, BATCH_SIZE)], later);
    FlattenConcat([Slice(list, 0, BATCH_SIZE)], Map(SliceFn(list), later));
    if BATCH_SIZE <= n {
      LaterBatchesCover(list, BATCH_SIZE);
      assert list == list[..BATCH_SIZE] + list[BATCH_SIZE..];
    } else {
      assert later == [];
    }
  }

  // ---------------------------------------------------------------------
  // Accumulating the batches
  // ---------------------------------------------------------------------

  /**
   * The records the batches deliver, in request order, up to the first
   * batch that fails.
   */
  function Accumulated(api: Api, list: seq<Named>, batches: seq<(nat, nat)>): seq<Pokemon>
    decreases |batches|
  {
    if batches == [] then []
    else match FetchPokemonDetails(api, list, batches[0].0, batches[0].1)
      case None => []
      case Some(records) => records + Accumulated(api, list, batches[1..])
  }

  /** Every batch succeeds. */
  predicate AllSucceed(api: Api, list: seq<Named>, batches: seq<(nat, nat)>) {
    forall k :: 0 <= k < |batches| ==> FetchPokemonDetails(api, list, batches[k].0, batches[k].1).Some?
  }

  /** The batches run from `from` to `to`, each starting where the previous one ended. */
  predicate Chain(batches: seq<(nat, nat)>, from: nat, to: nat)
    decreases |batches|
  {
    if batches == [] then from == to
    else batches[0].0 == from && from <= batches[0].1 && Chain(batches[1..], batches[0].1, to)
  }

  /** The later batches from `start` form a chain ending at the end of the index. */
  lemma {:induction false} LaterBatchesChain(start: nat, n: nat)
    requires start <= n
    ensures Chain(LaterBatches(start, n), start, n)
    decreases n - start
  {
    if start < n {
      var next := start + BATCH_SIZE;
      if next <= n {
        LaterBatchesChain(next, n);
      }
      assert LaterBatches(start, n)[1..] == LaterBatches(next, n);
    }
  }

  /** One step of the loader: the batch at `start`, then the ones after it. */
  lemma LaterAccumulatedStep(api: Api, list: seq<Named>, start: nat, n: nat)
    requires start < n
    ensures var batch := FetchPokemonDetails(api, list, start, Pagination.Min(start + BATCH_SIZE, n));
      Accumulated(api, list, LaterBatches(start, n)) ==
        if batch.None? then [] else batch.value + Accumulated(api, list, LaterBatches(start + BATCH_SIZE, n))
  {
    var batches := LaterBatches(start, n);
    assert batches[0] == (start, Pagination.Min(start + BATCH_SIZE, n) as nat);
    assert batches[1..] == LaterBatches(start + BATCH_SIZE, n);
  }

  /** The loader's first step: the first batch, then the later ones. */
  lemma FirstAccumulatedStep(api: Api, list: seq<Named>)
    requires FetchPokemonDetails(api, list, 0, BATCH_SIZE).Some?
    ensures FetchPokemonDetails(api, list, 0, BATCH_SIZE).value
      + Accumulated(api, list, LaterBatches(BATCH_SIZE, |list|)) == Accumulated(api, list, Batches(|list|))
  {
    var batches := Batches(|list|);
    assert batches[0] == (0, BATCH_SIZE);
    assert batches[1..] == LaterBatches(BATCH_SIZE, |list|);
  }

  /** One turn of the loader's loop keeps `acc` followed by what is left equal to the whole. */
  lemma AccumulateStep(api: Api, list: seq<Named>, acc: seq<Pokemon>, start: nat, whole: seq<Pokemon>)
    requires start < |list|
    requires acc + Accumulated(api, list, LaterBatches(start, |list|)) == whole
    ensures var batch := FetchPokemonDetails(api, list, start, Pagination.Min(start + BATCH_SIZE, |list|));
      (batch.None? ==> acc == whole)
      && (batch.Some? ==> (acc + batch.value) + Accumulated(api, list, LaterBatches(start + BATCH_SIZE, |list|)) == whole)
  {
    var n := |list|;
    var batch := FetchPokemonDetails(api, list, start, Pagination.Min(start + BATCH_SIZE, n));
    LaterAccumulatedStep(api, list, start, n);
    if batch.None? {
      assert acc + [] == acc;
    } else {
      var rest := Accumulated(api, list, LaterBatches(start + BATCH_SIZE, n));
      assert acc + (batch.value + rest) == (acc + batch.value) + rest;
    }
  }

  /** A chain never runs backwards. */
  lemma {:induction false} ChainOrdered(batches: seq<(nat, nat)>, from: nat, to: nat)
    requires Chain(batches, from, to)
    ensures from <= to
    decreases |batches|
  {
    if batches != [] {
      ChainOrdered(batches[1..], batches[0].1, to);
    }
  }

  /** An empty range is fetched without any lookup. */
  lemma FetchEmptyRange(api: Api, list: seq<Named>, at: nat)
    ensures FetchPokemonDetails(api, list, at, at) == Some([])
  {
    assert Slice(list, at, at) == [];
  }

  /**
   * Fetching a chain of batches delivers the records of an initial part of
   * its range, and of all of it when every batch succeeds.
   */
  lemma {:induction false} ChainAccumulated(api: Api, list: seq<Named>, batches: seq<(nat, nat)>, from: nat, to: nat)
    requires Chain(batches, from, to)
    ensures exists m: nat :: (from <= m <= to &&
      FetchPokemonDetails(api, list, from, m) == Some(Accumulated(api, list, batches)))
    ensures AllSucceed(api, list, batches) ==>
      FetchPokemonDetails(api, list, from, to) == Some(Accumulated(api, list, batches))
    decreases |batches|
  {
    FetchEmptyRange(api, list, from);
    ChainOrdered(batches, from, to);
    if batches != [] {
      var mid := batches[0].1;
      var rest := batches[1..];
      var first := FetchPokemonDetails(api, list, from, mid);
      if first.None? {
        assert Accumulated(api, list, batches) == [];
        assert FetchPokemonDetails(api, list, from, from) == Some(Accumulated(api, list, batches));
        assert !AllSucceed(api, list, batches) by {
          assert !FetchPokemonDetails(api, list, batches[0].0, batches[0].1).Some?;
        }
      } else {
        ChainAccumulated(api, list, rest, mid, to);
        var acc := Accumulated(api, list, rest);
        assert Accumulated(api, list, batches) == first.value + acc;
        var m: nat :| mid <= m <= to && FetchPokemonDetails(api, list, mid, m) == Some(acc);
        FetchAdjacentRanges(api, list, from, mid, m);
        assert FetchPokemonDetails(api, list, from, m) == Some(Accumulated(api, list, batches));
        if AllSucceed(api, list, batches) {
          assert AllSucceed(api, list, rest) by {
            forall k | 0 <= k < |rest|
              ensures FetchPokemonDetails(api, list, rest[k].0, rest[k].1).Some?
            {
              assert rest[k] == batches[k + 1];
            }
          }
          FetchAdjacentRanges(api, list, from, mid, to);
        }
      }
    }
  }

  /** A range reaching past the end of the index fetches what the index holds. */
  lemma FetchClamped(api: Api, list: seq<Named>, from: nat, to: nat)
    requires |list| <= to
    ensures FetchPokemonDetails(api, list, from, to) == FetchPokemonDetails(api, list, from, |list|)
  {
  }

  /**
   * The loaded records are the records of an initial run of the index,
   * and of the whole index when every batch succeeds.
   */
  lemma AccumulatedIsPrefix(api: Api, list: seq<Named>)
    ensures exists m: nat :: (m <= |list| &&
      FetchPokemonDetails(api, list, 0, m) == Some(Accumulated(api, list, Batches(|list|))))
    ensures AllSucceed(api, list, Batches(|list|)) ==>
      FetchPokemonDetails(api, list, 0, |list|) == Some(Accumulated(api, list, Batches(|list|)))
  {
    var n := |list|;
    var batches := Batches(n);
    var to: nat := if n < BATCH_SIZE then BATCH_SIZE else n;
    assert batches[1..] == LaterBatches(BATCH_SIZE, n);
    if n <= BATCH_SIZE {
      assert LaterBatches(BATCH_SIZE, n) == [];
      assert Chain(batches[1..], BATCH_SIZE, BATCH_SIZE);
    } else {
      LaterBatchesChain(BATCH_SIZE, n);
    }
    assert Chain(batches, 0, to);
    ChainAccumulated(api, list, batches, 0, to);
    var acc := Accumulated(api, list, batches);
    var m: nat :| m <= to && FetchPokemonDetails(api, list, 0, m) == Some(acc);
    if m > n {
      FetchClamped(api, list, 0, m);
      assert FetchPokemonDetails(api, list, 0, n) == Some(acc);
    } else {
      assert FetchPokemonDetails(api, list, 0, m) == Some(acc);
    }
    FetchClamped(api, list, 0, to);
  }

  // ---------------------------------------------------------------------
  // Filtering and paging
  // ---------------------------------------------------------------------

  /** A search term is applied only when it is non-blank. */
  predicate SearchActive(searchTerm: string) {
    |searchTerm| > 0 && |Trim(searchTerm)| > 0
  }

  /**
   * `filteredPokemons`: nothing before any record is loaded; otherwise the
   * search for a non-blank term, then the filter for present conditions.
   */
  function FilteredPokemons(details: seq<Pokemon>, searchTerm: string, conditions: Option<Conditions>): seq<Pokemon> {
    if |details| == 0 then []
    else
      var afterSearch := if SearchActive(searchTerm) then SearchPokemons(details, Some(searchTerm)) else details;
      if conditions.Some? then FilterPokemons(afterSearch, conditions) else afterSearch
  }

  /** The guards are redundant: the result is the search followed by the filter. */
  lemma FilteredIsSearchThenFilter(details: seq<Pokemon>, searchTerm: string, conditions: Option<Conditions>)
    ensures FilteredPokemons(details, searchTerm, conditions) ==
      FilterPokemons(SearchPokemons(details, Some(searchTerm)), conditions)
  {
    if |details| == 0 {
      if conditions.Some? {
        assert SearchPokemons(details, Some(searchTerm)) == [];
      }
    }
  }

  /** The search and the filter may be applied in either order. */
  lemma SearchAndFilterCommute(details: seq<Pokemon>, searchTerm: string, c: Conditions)
    ensures FilterPokemons(SearchPokemons(details, Some(searchTerm)), Some(c)) ==
      SearchPokemons(FilterPokemons(details, Some(c)), Some(searchTerm))
  {
    if !IsBlankQuery(Some(searchTerm)) {
      FilterCommutes(KeepFn(c), MatchesFn(NormalizedQuery(searchTerm)), details);
    }
  }

  /** An item is listed exactly when it is loaded, found by the search and kept by the filter. */
  lemma FilteredMembership(details: seq<Pokemon>, searchTerm: string, conditions: Option<Conditions>, p: Pokemon)
    ensures p in FilteredPokemons(details, searchTerm, conditions) <==>
      p in details
      && (IsBlankQuery(Some(searchTerm)) || Matches(p, NormalizedQuery(searchTerm)))
      && (conditions.None? || Keep(p, conditions.value))
  {
    FilteredIsSearchThenFilter(details, searchTerm, conditions);
    var found := SearchPokemons(details, Some(searchTerm));
    if !IsBlankQuery(Some(searchTerm)) {
      SearchPokemonsMembership(details, searchTerm, p);
    }
    if conditions.Some? {
      FilterPokemonsMembership(found, conditions.value, p);
      KeepIffAllDimensions(p, conditions.value);
    }
  }

  /** `totalCount`: the number of listed items, never more than are loaded. */
  function TotalCount(details: seq<Pokemon>, searchTerm: string, conditions: Option<Conditions>): (r: nat)
    ensures r <= |details|
  {
    |FilteredPokemons(details, searchTerm, conditions)|
  }

  /** The items of page `page` of size `size`: `filtered.slice((page - 1) * size, page * size)`. */
  function PageSlice<T>(filtered: seq<T>, page: int, size: int): (r: seq<T>)
    ensures size >= 0 ==> |r| <= size
  {
    Slice(filtered, (page - 1) * size, (page - 1) * size + size)
  }

  /** `Math.ceil(count / size)` for a positive page size: the fewest pages that hold every item. */
  function TotalPages(count: nat, size: int): (r: nat)
    requires size >= 1
    ensures r * size >= count
    ensures r == 0 || (r - 1) * size < count
  {
    (count + size - 1) / size
  }

  /** Item `i` of the list is item `i % size` of page `i / size + 1`. */
  lemma ItemOnItsPage<T>(filtered: seq<T>, size: int, i: nat)
    requires size >= 1 && i < |filtered|
    ensures i % size < |PageSlice(filtered, i / size + 1, size)|
    ensures PageSlice(filtered, i / size + 1, size)[i % size] == filtered[i]
  {
    var r := i % size;
    PageOfItem(filtered, i, size);
    var end := if i - r + size <= |filtered| then i - r + size else |filtered|;
    assert Slice(filtered, i - r, i - r + size) == filtered[i - r..end];
  }

  /** The page holding item `i` starts `i % size` items before it. */
  lemma PageOfItem<T>(filtered: seq<T>, i: nat, size: int)
    requires size >= 1
    ensures 0 <= i % size < size && i % size <= i
    ensures PageSlice(filtered, i / size + 1, size) == Slice(filtered, i - i % size, i - i % size + size)
  {
    assert (i / size + 1 - 1) * size == i - i % size;
  }

  lemma MulMonotone(a: int, b: int, c: int)
    requires a <= b && c >= 0
    ensures a * c <= b * c
  {
  }

  lemma PageInRangeNonEmpty<T>(filtered: seq<T>, page: int, size: int, total: nat)
    requires size >= 1 && 1 <= page <= total && (total - 1) * size < |filtered|
    ensures PageSlice(filtered, page, size) != []
  {
    var start := (page - 1) * size;
    MulMonotone(page - 1, total - 1, size);
    MulMonotone(0, page - 1, size);
    SliceFrom(filtered, start, start + size);
  }

  /** A slice from an existing position towards a later end holds that position's item. */
  lemma SliceFrom<T>(s: seq<T>, from: int, to: int)
    requires 0 <= from < |s| && from < to
    ensures Slice(s, from, to) != [] && Slice(s, from, to)[0] == s[from]
  {
  }

  lemma PageBeyondEmpty<T>(filtered: seq<T>, page: int, size: int, total: nat)
    requires size >= 1 && total < page && total * size >= |filtered|
    ensures PageSlice(filtered, page, size) == []
  {
    var start := (page - 1) * size;
    MulMonotone(total, page - 1, size);
    assert SliceIndex(start, |filtered|) == |filtered|;
  }

  /** A page exists (is non-empty) exactly when its number is between 1 and the page count. */
  lemma PageNonEmptyIffInRange<T>(filtered: seq<T>, page: int, size: int)
    requires size >= 1 && page >= 0
    ensures PageSlice(filtered, page, size) != [] <==> 1 <= page <= TotalPages(|filtered|, size)
  {
    var total := TotalPages(|filtered|, size);
    if page == 0 {
      assert SliceIndex((page - 1) * size + size, |filtered|) == 0;
    } else if page <= total {
      PageInRangeNonEmpty(filtered, page, size, total);
    } else {
      PageBeyondEmpty(filtered, page, size, total);
    }
  }

  /**
   * On a non-empty page, the control's item range numbers exactly the items
   * of the page: `startItem` is the first, `endItem` the last.
   */
  lemma ItemRangeMatchesPage<T>(filtered: seq<T>, page: int, size: int)
    requires size >= 1 && page >= 1 && PageSlice(filtered, page, size) != []
    ensures Pagination.EndItem(page, size, |filtered|) - Pagination.StartItem(page, size) + 1
      == |PageSlice(filtered, page, size)|
    ensures forall k :: 0 <= k < |PageSlice(filtered, page, size)| ==>
      PageSlice(filtered, page, size)[k] == filtered[Pagination.StartItem(page, size) - 1 + k]
  {
    var start := (page - 1) * size;
    PageEnd(page, size);
    var n := |filtered|;
    var end := if start + size <= n then start + size else n;
    assert PageSlice(filtered, page, size) == filtered[start..end];
  }

  /** The first position of page `page` and the one after its last. */
  lemma PageEnd(page: int, size: int)
    requires size >= 1 && page >= 1
    ensures (page - 1) * size >= 0
    ensures (page - 1) * size + size == page * size
  {
    MulMonotone(0, page - 1, size);
  }

  // ---------------------------------------------------------------------
  // The hook's state
  // ---------------------------------------------------------------------

  /** The message shown when the index cannot be fetched. */
  const LIST_ERROR: string := "ポケモンリストの取得に失敗しました"

  /** The state of one instance of the hook. */
  class PokemonData {
    var allPokemonList: seq<Named>
    var allPokemonDetails: seq<Pokemon>
    var loading: bool
    var detailsLoading: bool
    var error: Option<string>

    /** The first render: nothing loaded, the index loading. */
    constructor()
      ensures allPokemonList == [] && allPokemonDetails == []
      ensures loading && !detailsLoading && error.None?
    {
      allPokemonList := [];
      allPokemonDetails := [];
      loading := true;
      detailsLoading := false;
      error := None;
    }

    /** Step 1, `loadAllPokemonList`: the index, or an error message. */
    method LoadAllPokemonList(api: Api)
      modifies this
      ensures !loading
      ensures api.list.Some? ==> allPokemonList == api.list.value && error == old(error)
      ensures api.list.None? ==> allPokemonList == old(allPokemonList) && error == Some(LIST_ERROR)
      ensures allPokemonDetails == old(allPokemonDetails) && detailsLoading == old(detailsLoading)
    {
      loading := true;
      var list := FetchAllPokemonList(api);
      if list.Some? {
        allPokemonList := list.value;
        loading := false;
      } else {
        error := Some(LIST_ERROR);
        loading := false;
      }
    }

    /**
     * Step 2, `loadAllDetails`: the first hundred records replace the
     * details, each later batch is appended in order, and the first failure
     * stops loading, keeping what was loaded.
     */
    method LoadAllDetails(api: Api)
      modifies this
      ensures allPokemonList == old(allPokemonList) && loading == old(loading) && error == old(error)
      ensures |allPokemonList| == 0 ==>
        allPokemonDetails == old(allPokemonDetails) && detailsLoading == old(detailsLoading)
      ensures |allPokemonList| > 0 ==> !detailsLoading
      ensures |allPokemonList| > 0 && FetchPokemonDetails(api, allPokemonList, 0, BATCH_SIZE).None? ==>
        allPokemonDetails == old(allPokemonDetails)
      ensures |allPokemonList| > 0 && FetchPokemonDetails(api, allPokemonList, 0, BATCH_SIZE).Some? ==>
        allPokemonDetails == Accumulated(api, allPokemonList, Batches(|allPokemonList|))
    {
      var list := allPokemonList;
      var n := |list|;
      if n == 0 {
        return;
      }
      detailsLoading := true;
      var firstBatch := FetchPokemonDetails(api, list, 0, BATCH_SIZE);
      if firstBatch.None? {
        detailsLoading := false;
        return;
      }
      allPokemonDetails := firstBatch.value;
      FirstAccumulatedStep(api, list);
      ghost var whole := Accumulated(api, list, Batches(n));
      var i: nat := BATCH_SIZE;
      while i < n
        invariant allPokemonList == list && loading == old(loading) && error == old(error)
        invariant allPokemonDetails + Accumulated(api, list, LaterBatches(i, n)) == whole
        decreases n - i
      {
        var end := Pagination.Min(i + BATCH_SIZE, n);
        var batch := FetchPokemonDetails(api, list, i, end);
        AccumulateStep(api, list, allPokemonDetails, i, whole);
        if batch.None? {
          detailsLoading := false;
          return;
        }
        allPokemonDetails := allPokemonDetails + batch.value;
        i := i + BATCH_SIZE;
      }
      assert LaterBatches(i, n) == [];
      assert allPokemonDetails + [] == allPokemonDetails;
      detailsLoading := false;
    }

    /** Step 3, the filtered list of the loaded records. */
    function Filtered(searchTerm: string, conditions: Option<Conditions>): seq<Pokemon>
      reads this
    {
      FilteredPokemons(allPokemonDetails, searchTerm, conditions)
    }

    /** Step 4, `displayedPokemons`: the current page of the filtered list. */
    function Displayed(currentPage: int, itemsPerPage: int, searchTerm: string, conditions: Option<Conditions>): seq<Pokemon>
      reads this
    {
      PageSlice(Filtered(searchTerm, conditions), currentPage, itemsPerPage)
    }
  }
}
