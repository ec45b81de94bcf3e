/**
 * The filter dialog: four pieces of state edited by toggles and a clear
 * button, and read once when the dialog is applied. Ranges are held in
 * tenths, the unit the filter compares in: the default height range
 * 0.3 m to 20 m is (3, 200) and the default weight range 1 kg to 1000 kg is
 * (10, 10000).
 */
module FilterModal {
  import opened Wrappers
  import opened Seqs
  import opened Records
  import opened FilterPokemon

  const DEFAULT_HEIGHT_RANGE: (int, int) := (3, 200)
  const DEFAULT_WEIGHT_RANGE: (int, int) := (10, 10000)

  /** The state of one open dialog. */
  class FilterModalState {
    var selectedTypes: seq<string>
    var heightRange: (int, int)
    var weightRange: (int, int)
    var selectedGenerations: seq<string>

    /** Nothing selected and both ranges at their defaults. */
    predicate Cleared()
      reads this
    {
      selectedTypes == [] && heightRange == DEFAULT_HEIGHT_RANGE
      && weightRange == DEFAULT_WEIGHT_RANGE && selectedGenerations == []
    }

    /** The initial state. */
    constructor()
      ensures Cleared()
    {
      selectedTypes := [];
      heightRange := DEFAULT_HEIGHT_RANGE;
      weightRange := DEFAULT_WEIGHT_RANGE;
      selectedGenerations := [];
    }

    /**
     * The initialisation effect. A conditions object has no `heightRange` or
     * `weightRange` key, so the ranges always fall back to their defaults;
     * only the selections are restored. Without initial filters nothing changes.
     */
    method Initialize(initialFilters: Option<Conditions>)
      modifies this
      ensures initialFilters.None? ==>
        selectedTypes == old(selectedTypes) && heightRange == old(heightRange)
        && weightRange == old(weightRange) && selectedGenerations == old(selectedGenerations)
      ensures initialFilters.Some? ==>
        selectedTypes == initialFilters.value.types.GetOr([])
        && selectedGenerations == initialFilters.value.generations.GetOr([])
        && heightRange == DEFAULT_HEIGHT_RANGE && weightRange == DEFAULT_WEIGHT_RANGE
    {
      if initialFilters.Some? {
        var c := initialFilters.value;
        selectedTypes := c.types.GetOr([]);
        heightRange := DEFAULT_HEIGHT_RANGE;
        weightRange := DEFAULT_WEIGHT_RANGE;
        selectedGenerations := c.generations.GetOr([]);
      }
    }

    /** `toggleType`: a selected type is removed (every occurrence), another is appended. */
    method ToggleType(typeName: string)
      modifies this
      ensures selectedTypes == Toggled(old(selectedTypes), typeName)
      ensures typeName in selectedTypes <==> typeName !in old(selectedTypes)
      ensures NoDuplicates(old(selectedTypes)) ==> NoDuplicates(selectedTypes)
      ensures heightRange == old(heightRange) && weightRange == old(weightRange)
      ensures selectedGenerations == old(selectedGenerations)
    {
      if NoDuplicates(selectedTypes) {
        ToggledNoDuplicates(selectedTypes, typeName);
      }
      selectedTypes := Toggled(selectedTypes, typeName);
    }

    /** `toggleGeneration`: the same toggle over the generation selection. */
    method ToggleGeneration(generation: string)
      modifies this
      ensures selectedGenerations == Toggled(old(selectedGenerations), generation)
      ensures generation in selectedGenerations <==> generation !in old(selectedGenerations)
      ensures NoDuplicates(old(selectedGenerations)) ==> NoDuplicates(selectedGenerations)
      ensures selectedTypes == old(selectedTypes)
      ensures heightRange == old(heightRange) && weightRange == old(weightRange)
    {
      if NoDuplicates(selectedGenerations) {
        ToggledNoDuplicates(selectedGenerations, generation);
      }
      selectedGenerations := Toggled(selectedGenerations, generation);
    }

    /** `handleClear`: back to the initial state. */
    method HandleClear()
      modifies this
      ensures Cleared()
    {
      selectedTypes := [];
      heightRange := DEFAULT_HEIGHT_RANGE;
      weightRange := DEFAULT_WEIGHT_RANGE;
      selectedGenerations := [];
    }

    /** `handleApply`: the conditions object handed to the page. */
    function Applied(): Conditions
      reads this
    {
      ConditionsFrom(selectedTypes, heightRange, weightRange, selectedGenerations)
    }
  }

  /** The conditions object the dialog emits: every key defined. */
  function ConditionsFrom(types: seq<string>, heightRange: (int, int), weightRange: (int, int), generations: seq<string>): (r: Conditions)
    ensures r.types == Some(types) && r.generations == Some(generations)
    ensures r.heightMin.Some? && r.heightMax.Some? && r.weightMin.Some? && r.weightMax.Some?
  {
    Conditions(Some(types), Some(heightRange.0), Some(heightRange.1),
      Some(weightRange.0), Some(weightRange.1), Some(generations))
  }

  /** What a dialog applied without any change emits. */
  const DEFAULT_CONDITIONS: Conditions := ConditionsFrom([], DEFAULT_HEIGHT_RANGE, DEFAULT_WEIGHT_RANGE, [])

  /**
   * Applying the dialog untouched still filters: it keeps exactly the items
   * from 0.3 m to 20 m and from 1 kg to 1000 kg.
   */
  lemma DefaultsStillRestrict(items: seq<Pokemon>, p: Pokemon)
    ensures p in FilterPokemons(items, Some(DEFAULT_CONDITIONS)) <==>
      p in items && 3 <= p.height <= 200 && 10 <= p.weight <= 10000
  {
    FilterPokemonsMembership(items, DEFAULT_CONDITIONS, p);
  }

  /**
   * Reopening the dialog on what it emitted restores the selections but not
   * the ranges: the selections survive, any range other than the default is lost.
   */
  lemma ReopenLosesRanges(types: seq<string>, heightRange: (int, int), weightRange: (int, int), generations: seq<string>)
    ensures ConditionsFrom(types, heightRange, weightRange, generations).types.GetOr([]) == types
    ensures ConditionsFrom(types, heightRange, weightRange, generations).generations.GetOr([]) == generations
    ensures ConditionsFrom(types, DEFAULT_HEIGHT_RANGE, DEFAULT_WEIGHT_RANGE, generations)
      == ConditionsFrom(types, heightRange, weightRange, generations)
      <==> heightRange == DEFAULT_HEIGHT_RANGE && weightRange == DEFAULT_WEIGHT_RANGE
  {
  }
}
