/**
 * The detail page's navigation rules and the pieces of its rendering that
 * are computed: the previous and next targets, the state handed back to the
 * list, the padded number and the arrows of the evolution row.
 */
module PokemonDetailPage {
  import opened Wrappers
  import opened Text
  import opened FilterPokemon
  import opened PokemonApi

  /** The highest number the next button leads to. */
  const LAST_ID: int := 1025

  // ---------------------------------------------------------------------
  // Previous and next
  // ---------------------------------------------------------------------

  /** `handlePrevious`: the item navigated to, if any. */
  function PreviousTarget(id: int): Option<int> {
    if id > 1 then Some(id - 1) else None
  }

  /** `handleNext`: the item navigated to, if any. */
  function NextTarget(id: int): Option<int> {
    if id < LAST_ID then Some(id + 1) else None
  }

  predicate PreviousDisabled(id: int) {
    id <= 1
  }

  predicate NextDisabled(id: int) {
    id >= LAST_ID
  }

  /**
   * A button is enabled exactly when its handler navigates; the target is
   * the neighbouring number, and from a number in 1..1025 it stays in 1..1025.
   */
  lemma NeighbourNavigation(id: int)
    ensures PreviousTarget(id).Some? <==> !PreviousDisabled(id)
    ensures NextTarget(id).Some? <==> !NextDisabled(id)
    ensures PreviousTarget(id).Some? ==> PreviousTarget(id).value == id - 1
    ensures NextTarget(id).Some? ==> NextTarget(id).value == id + 1
    ensures 1 <= id <= LAST_ID ==>
      (PreviousTarget(id).Some? ==> 1 <= PreviousTarget(id).value <= LAST_ID)
      && (NextTarget(id).Some? ==> 1 <= NextTarget(id).value <= LAST_ID)
  {
  }

  /** Next then previous comes back, except from the last number. */
  lemma NextThenPrevious(id: int)
    requires 1 <= id < LAST_ID
    ensures PreviousTarget(NextTarget(id).value) == Some(id)
  {
  }

  // ---------------------------------------------------------------------
  // Back to the list
  // ---------------------------------------------------------------------

  /** The navigation state a card click sends to this page. */
  datatype CardState = CardState(
    fromPage: int,
    itemsPerPage: int,
    filterConditions: Option<Conditions>,
    scrollPosition: int,
    fromFavorites: bool)

  /** The navigation state this page sends back to the list page. */
  datatype ListState = ListState(
    page: int,
    itemsPerPage: int,
    filterConditions: Option<Conditions>,
    scrollPosition: int)

  /** JavaScript's `n || fallback` on a number: zero is falsy. */
  function OrNumber(n: int, fallback: int): int {
    if n != 0 then n else fallback
  }

  /**
   * `handleBackToList`: page 1, 20 items, no conditions and the top of the
   * page unless the incoming state says otherwise. The target is always the
   * list page, also when the card was clicked on the favourites page.
   */
  function BackToList(state: Option<CardState>): (r: ListState)
    ensures r.page != 0 && r.itemsPerPage != 0
    ensures state.None? ==> r == ListState(1, 20, None, 0)
    ensures state.Some? ==>
      r.page == (if state.value.fromPage != 0 then state.value.fromPage else 1)
      && r.itemsPerPage == (if state.value.itemsPerPage != 0 then state.value.itemsPerPage else 20)
      && r.filterConditions == state.value.filterConditions
      && r.scrollPosition == state.value.scrollPosition
  {
    match state
    case None => ListState(1, 20, None, 0)
    case Some(s) =>
      ListState(OrNumber(s.fromPage, 1), OrNumber(s.itemsPerPage, 20), s.filterConditions, OrNumber(s.scrollPosition, 0))
  }

  // ---------------------------------------------------------------------
  // Rendering
  // ---------------------------------------------------------------------

  /** `pokemon.id.toString().padStart(3, '0')`. */
  function DisplayNumber(id: nat): string {
    PadStart(NatToString(id), 3, '0')
  }

  /**
   * The number has at least three digits, reads back as the identifier, and
   * from 100 on is the plain decimal form.
   */
  lemma DisplayNumberReadsBack(id: nat)
    ensures |DisplayNumber(id)| >= 3
    ensures forall i :: 0 <= i < |DisplayNumber(id)| ==> IsDigit(DisplayNumber(id)[i])
    ensures ParseInt(DisplayNumber(id)) == Some(id)
    ensures |NatToString(id)| >= 3 ==> DisplayNumber(id) == NatToString(id)
  {
    ParseIntOfPadded(id, 3);
    PaddedDigits(NatToString(id));
  }

  /** Whether the evolution section is shown: a non-empty list (a promise has no length). */
  predicate ShowsEvolutionSection(field: EvolutionField) {
    field.Listed? && |field.entries| > 0
  }

  /** An item of the evolution row: an entry, or the arrow after it. */
  datatype RowItem = Entry(entry: EvolutionEntry) | Arrow

  /** The evolution row: every entry, each but the last followed by an arrow. */
  function EvolutionRow(chain: seq<EvolutionEntry>): seq<RowItem>
    decreases |chain|
  {
    if |chain| == 0 then []
    else if |chain| == 1 then [Entry(chain[0])]
    else [Entry(chain[0]), Arrow] + EvolutionRow(chain[1..])
  }

  /** Entry `i` sits at position `2i` and every odd position holds an arrow: |chain| - 1 arrows. */
  lemma {:induction false} EvolutionRowShape(chain: seq<EvolutionEntry>)
    requires |chain| > 0
    ensures |EvolutionRow(chain)| == 2 * |chain| - 1
    ensures forall i :: 0 <= i < |chain| ==> EvolutionRow(chain)[2 * i] == Entry(chain[i])
    ensures forall j :: 0 <= j < |EvolutionRow(chain)| ==> (EvolutionRow(chain)[j] == Arrow <==> j % 2 == 1)
    decreases |chain|
  {
    if |chain| > 1 {
      EvolutionRowShape(chain[1..]);
      var row := EvolutionRow(chain);
      var tail := EvolutionRow(chain[1..]);
      assert row == [Entry(chain[0]), Arrow] + tail;
      forall i | 1 <= i < |chain| ensures row[2 * i] == Entry(chain[i]) {
        assert row[2 * i] == tail[2 * (i - 1)];
        assert chain[1..][i - 1] == chain[i];
      }
      forall j | 2 <= j < |row| ensures row[j] == Arrow <==> j % 2 == 1 {
        assert row[j] == tail[j - 2];
      }
    }
  }

  // ---------------------------------------------------------------------
  // The evolution section under both versions of the full lookup
  // ---------------------------------------------------------------------

  /** As written, the page never shows an evolution section. */
  lemma EvolutionSectionNeverShown(api: Api, pokemonId: string)
    requires FetchPokemonFullDetailsAsWritten(api, pokemonId).Some?
    ensures !ShowsEvolutionSection(FetchPokemonFullDetailsAsWritten(api, pokemonId).value.evolutionChain)
  {
  }

  /**
   * With the list awaited, the section is shown exactly when the species has
   * an evolution chain, and it shows one entry per species of the chain.
   */
  lemma EvolutionSectionShownForChains(api: Api, pokemonId: string)
    requires FetchPokemonFullDetails(api, pokemonId).Some?
    ensures ShowsEvolutionSection(FetchPokemonFullDetails(api, pokemonId).value.evolutionChain) <==>
      api.species(SpeciesUrlOf(pokemonId)).value.evolutionChain.Some?
    ensures api.species(SpeciesUrlOf(pokemonId)).value.evolutionChain.Some? ==>
      |FetchPokemonFullDetails(api, pokemonId).value.evolutionChain.entries|
        == |Skeleton(api.chain(api.species(SpeciesUrlOf(pokemonId)).value.evolutionChain.value).value)|
  {
  }
}
