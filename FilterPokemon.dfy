/**
 * The filter and search engine: two order-preserving filters over the
 * in-memory item collection.
 */
module FilterPokemon {
  import opened Wrappers
  import opened Seqs
  import opened Text
  import opened Records

  /**
   * The filter conditions object. Every field may be absent (`undefined`).
   * The four bounds are integer tenths, the unit of `height` and `weight`.
   */
  datatype Conditions = Conditions(
    types: Option<seq<string>>,
    heightMin: Option<int>,
    heightMax: Option<int>,
    weightMin: Option<int>,
    weightMax: Option<int>,
    generations: Option<seq<string>>)

  // ---------------------------------------------------------------------
  // The dimensions of a filter, each on its own
  // ---------------------------------------------------------------------

  /** A list selection is active when it is present and non-empty. */
  predicate Active(selection: Option<seq<string>>) {
    selection.Some? && selection.value != []
  }

  /** Category dimension: some type of the item is selected (OR within the dimension). */
  predicate TypeCheck(p: Pokemon, c: Conditions) {
    !Active(c.types) || exists t :: t in p.types && t.typeName in c.types.value
  }

  /** Height dimension: each present bound holds. */
  predicate HeightCheck(p: Pokemon, c: Conditions) {
    (c.heightMin.Some? ==> c.heightMin.value <= p.height)
    && (c.heightMax.Some? ==> p.height <= c.heightMax.value)
  }

  /** Weight dimension: each present bound holds. */
  predicate WeightCheck(p: Pokemon, c: Conditions) {
    (c.weightMin.Some? ==> c.weightMin.value <= p.weight)
    && (c.weightMax.Some? ==> p.weight <= c.weightMax.value)
  }

  /** Generation dimension: the item's generation is one of the selected ones. */
  predicate GenerationCheck(p: Pokemon, c: Conditions) {
    !Active(c.generations) || (p.generation.Some? && p.generation.value in c.generations.value)
  }

  // ---------------------------------------------------------------------
  // filterPokemons
  // ---------------------------------------------------------------------

  /** The filter callback, as a chain of early exits. */
  predicate Keep(p: Pokemon, c: Conditions) {
    if Active(c.types) && !(exists t :: t in p.types && t.typeName in c.types.value) then false
    else if c.heightMin.Some? && p.height < c.heightMin.value then false
    else if c.heightMax.Some? && p.height > c.heightMax.value then false
    else if c.weightMin.Some? && p.weight < c.weightMin.value then false
    else if c.weightMax.Some? && p.weight > c.weightMax.value then false
    else if Active(c.generations) && !(p.generation.Some? && p.generation.value in c.generations.value) then false
    else true
  }

  /** An item is kept exactly when it passes every dimension (AND across dimensions). */
  lemma KeepIffAllDimensions(p: Pokemon, c: Conditions)
    ensures Keep(p, c) <==> TypeCheck(p, c) && HeightCheck(p, c) && WeightCheck(p, c) && GenerationCheck(p, c)
  {
  }

  function KeepFn(c: Conditions): Pokemon -> bool {
    p => Keep(p, c)
  }

  /** `filterPokemons(pokemons, conditions)`; `None` is a null or missing conditions object. */
  function FilterPokemons(items: seq<Pokemon>, conditions: Option<Conditions>): (r: seq<Pokemon>)
    ensures conditions.None? ==> r == items
    ensures |r| <= |items|
    ensures forall p :: p in r ==> p in items
  {
    if conditions.None? then items else Filter(KeepFn(conditions.value), items)
  }

  /** The result is an order-preserving subsequence of the input. */
  lemma FilterPokemonsSubsequence(items: seq<Pokemon>, conditions: Option<Conditions>)
    ensures IsSubsequence(FilterPokemons(items, conditions), items)
  {
    if conditions.Some? {
      FilterIsSubsequence(KeepFn(conditions.value), items);
    } else {
      SubsequenceReflexive(items);
    }
  }

  lemma {:induction false} SubsequenceReflexive<T>(s: seq<T>)
    ensures IsSubsequence(s, s)
    decreases |s|
  {
    if s != [] {
      SubsequenceReflexive(s[1..]);
    }
  }

  /** Which items survive: those that pass every dimension of the conditions. */
  lemma FilterPokemonsMembership(items: seq<Pokemon>, c: Conditions, p: Pokemon)
    ensures p in FilterPokemons(items, Some(c)) <==>
      p in items && TypeCheck(p, c) && HeightCheck(p, c) && WeightCheck(p, c) && GenerationCheck(p, c)
  {
    FilterMembership(KeepFn(c), items, p);
  }

  /** Every surviving item keeps its multiplicity; no item is added or altered. */
  lemma FilterPokemonsMultiplicity(items: seq<Pokemon>, c: Conditions, p: Pokemon)
    ensures multiset(FilterPokemons(items, Some(c)))[p] == if Keep(p, c) then multiset(items)[p] else 0
  {
    FilterMultiplicity(KeepFn(c), items, p);
  }

  /** Conditions that constrain nothing return the input unchanged. */
  lemma FilterPokemonsNoConstraint(items: seq<Pokemon>, c: Conditions)
    requires !Active(c.types) && !Active(c.generations)
    requires c.heightMin.None? && c.heightMax.None? && c.weightMin.None? && c.weightMax.None?
    ensures FilterPokemons(items, Some(c)) == items
  {
    FilterAllKept(KeepFn(c), items);
  }

  /** An active generation selection excludes every item that has no generation. */
  lemma GenerationExcludesUnlabelled(items: seq<Pokemon>, c: Conditions)
    requires Active(c.generations)
    requires forall i :: 0 <= i < |items| ==> items[i].generation.None?
    ensures FilterPokemons(items, Some(c)) == []
  {
    FilterNoneKept(KeepFn(c), items);
  }

  // ---------------------------------------------------------------------
  // searchPokemons
  // ---------------------------------------------------------------------

  /** A search query that is missing, empty or white space only is ignored. */
  predicate IsBlankQuery(query: Option<string>) {
    query.None? || |query.value| == 0 || |Trim(query.value)| == 0
  }

  /** The match test of the search callback for a normalised query `q`. */
  predicate Matches(p: Pokemon, q: string) {
    Contains(ToLower(p.nameJa), q)
    || Contains(ToLower(p.name), q)
    || Contains(NatToString(p.id), q)
    || Contains(PadStart(NatToString(p.id), 3, '0'), q)
  }

  function MatchesFn(q: string): Pokemon -> bool {
    p => Matches(p, q)
  }

  /** The query as the search compares it: lower-cased, then trimmed. */
  function NormalizedQuery(query: string): string {
    Trim(ToLower(query))
  }

  /** `searchPokemons(pokemons, searchQuery)`. */
  function SearchPokemons(items: seq<Pokemon>, query: Option<string>): (r: seq<Pokemon>)
    ensures IsBlankQuery(query) ==> r == items
    ensures |r| <= |items|
    ensures forall p :: p in r ==> p in items
  {
    if IsBlankQuery(query) then items
    else Filter(MatchesFn(NormalizedQuery(query.value)), items)
  }

  /** Which items a non-blank query keeps: those whose names or number contain it. */
  lemma SearchPokemonsMembership(items: seq<Pokemon>, query: string, p: Pokemon)
    requires !IsBlankQuery(Some(query))
    ensures p in SearchPokemons(items, Some(query)) <==> p in items && Matches(p, NormalizedQuery(query))
  {
    FilterMembership(MatchesFn(NormalizedQuery(query)), items, p);
  }

  /** The search result is an order-preserving subsequence of the input. */
  lemma SearchPokemonsSubsequence(items: seq<Pokemon>, query: Option<string>)
    ensures IsSubsequence(SearchPokemons(items, query), items)
  {
    if IsBlankQuery(query) {
      SubsequenceReflexive(items);
    } else {
      FilterIsSubsequence(MatchesFn(NormalizedQuery(query.value)), items);
    }
  }

  /**
   * A one-letter query finds every item whose Japanese name holds that
   * letter in either case: `ｚ` finds `ポリゴンＺ` (see `Text.LowerFullWidth`).
   */
  lemma SearchFindsLetterAnyCase(items: seq<Pokemon>, p: Pokemon, i: int)
    requires p in items && 0 <= i < |p.nameJa| && !IsWhitespace(p.nameJa[i])
    ensures p in SearchPokemons(items, Some([LowerChar(p.nameJa[i])]))
  {
    var q := [LowerChar(p.nameJa[i])];
    assert !IsBlankQuery(Some(q)) && Matches(p, NormalizedQuery(q)) by {
      LowerCharIdempotent(p.nameJa[i]);
      LowerCharWhitespace(p.nameJa[i]);
      PlainCharNormalized(q[0]);
      NameLetterMatches(p, i);
    }
    SearchPokemonsMembership(items, q, p);
  }

  /** The lower case of any letter of the Japanese name matches the item. */
  lemma NameLetterMatches(p: Pokemon, i: int)
    requires 0 <= i < |p.nameJa|
    ensures Matches(p, [LowerChar(p.nameJa[i])])
  {
    var q := [LowerChar(p.nameJa[i])];
    var name := ToLower(p.nameJa);
    assert name[i..i + 1] == q;
    assert OccursAt(name, q, i);
    ContainsAt(name, q);
  }

  /** A one-character query that is neither a capital nor white space is its own normal form. */
  lemma PlainCharNormalized(c: char)
    requires LowerChar(c) == c && !IsWhitespace(c)
    ensures !IsBlankQuery(Some([c]))
    ensures NormalizedQuery([c]) == [c]
  {
    assert ToLower([c]) == [c];
    assert TrimStart([c]) == [c];
    assert TrimEnd([c]) == [c];
  }

  /** Search is case-insensitive: queries equal up to case give the same result. */
  lemma SearchCaseInsensitive(items: seq<Pokemon>, q1: string, q2: string)
    requires ToLower(q1) == ToLower(q2)
    ensures SearchPokemons(items, Some(q1)) == SearchPokemons(items, Some(q2))
  {
    ToLowerKeepsBlank(q1);
    ToLowerKeepsBlank(q2);
  }

  /** The plain decimal number test never matches where the padded one does not. */
  lemma DecimalMatchImpliesPaddedMatch(id: nat, q: string)
    requires Contains(NatToString(id), q)
    ensures Contains(PadStart(NatToString(id), 3, '0'), q)
  {
    PadStartKeepsContains(NatToString(id), 3, '0', q);
  }

  /** A digit string is already in normal form: lower-casing and trimming leave it. */
  lemma DigitsAreNormalized(d: string)
    requires |d| >= 1 && forall i :: 0 <= i < |d| ==> IsDigit(d[i])
    ensures ToLower(d) == d && Trim(d) == d && NormalizedQuery(d) == d
  {
    forall i | 0 <= i < |d| ensures ToLower(d)[i] == d[i] {
      DigitIsPlain(d[i]);
    }
    assert ToLower(d) == d;
    DigitIsPlain(d[0]);
    assert TrimStart(d) == d;
    DigitIsPlain(d[|d| - 1]);
    assert TrimEnd(d) == d;
  }

  lemma DigitIsPlain(c: char)
    requires IsDigit(c)
    ensures LowerChar(c) == c && !IsWhitespace(c)
  {
  }

  /** A number padded with zeros is still a digit string. */
  lemma PaddedDigits(d: string)
    requires forall i :: 0 <= i < |d| ==> IsDigit(d[i])
    ensures forall i :: 0 <= i < |PadStart(d, 3, '0')| ==> IsDigit(PadStart(d, 3, '0')[i])
  {
    var padded := PadStart(d, 3, '0');
    forall i | 0 <= i < |padded| ensures IsDigit(padded[i]) {
      if i < |padded| - |d| {
        assert padded[i] == '0';
      } else {
        assert padded[i] == d[i - (|padded| - |d|)];
      }
    }
  }

  /** A non-blank query finds every item that matches its normal form. */
  lemma SearchFindsMatching(items: seq<Pokemon>, p: Pokemon, q: string)
    requires p in items
    requires |NormalizedQuery(q)| >= 1 && Matches(p, NormalizedQuery(q))
    ensures p in SearchPokemons(items, Some(q))
  {
    ToLowerKeepsBlank(q);
    SearchPokemonsMembership(items, q, p);
  }

  /** An item is found by its number written plainly ("6"). */
  lemma SearchFindsById(items: seq<Pokemon>, p: Pokemon)
    requires p in items
    ensures p in SearchPokemons(items, Some(NatToString(p.id)))
  {
    var d := NatToString(p.id);
    assert |NormalizedQuery(d)| >= 1 && Matches(p, NormalizedQuery(d)) by {
      DigitsAreNormalized(d);
      ContainsSelf(d);
    }
    SearchFindsMatching(items, p, d);
  }

  /** An item is found by its number padded to three digits ("006"). */
  lemma SearchFindsByPaddedId(items: seq<Pokemon>, p: Pokemon)
    requires p in items
    ensures p in SearchPokemons(items, Some(PadStart(NatToString(p.id), 3, '0')))
  {
    var padded := PadStart(NatToString(p.id), 3, '0');
    assert |NormalizedQuery(padded)| >= 1 && Matches(p, NormalizedQuery(padded)) by {
      PaddedDigits(NatToString(p.id));
      DigitsAreNormalized(padded);
      ContainsSelf(padded);
    }
    SearchFindsMatching(items, p, padded);
  }
}
