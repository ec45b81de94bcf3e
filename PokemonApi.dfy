/**
 * Normalisation of the remote catalogue's documents into the records the
 * application keeps. Each remote lookup is an oracle of an `Api` value
 * that either answers with a document or fails.
 */
module PokemonApi {
  import opened Wrappers
  import opened Seqs
  import opened Text
  import opened Records

  const BASE_URL: string := "https://pokeapi.co/api/v2"

  /** The number of catalogue entries the index request asks for (generations 1 to 9). */
  const TOTAL_POKEMON: nat := 1025

  // ---------------------------------------------------------------------
  // Remote documents
  // ---------------------------------------------------------------------

  /** An index entry, or a species reference: `{ name, url }`. */
  datatype Named = Named(name: string, url: string)

  /** A localised text: a `names`, `flavor_text_entries` or `genera` entry. */
  datatype LangText = LangText(text: string, language: string)

  /** The item document (`/pokemon/{id}`). */
  datatype PokemonDoc = PokemonDoc(
    id: nat, name: string, types: seq<TypeSlot>, height: int, weight: int,
    sprites: string, stats: seq<StatEntry>, abilities: seq<string>)

  /** The species document (`/pokemon-species/{id}`). */
  datatype SpeciesDoc = SpeciesDoc(
    names: seq<LangText>, flavorTextEntries: seq<LangText>,
    evolutionChain: Option<string>, generation: string, genera: seq<LangText>)

  /** A node of an evolution-chain document: a species and what it evolves to. */
  datatype ChainNode = ChainNode(species: Named, evolvesTo: seq<ChainNode>)

  /**
   * The remote catalogue: the index request, and lookups by URL of item,
   * species and evolution-chain documents. `None` is a failed request.
   */
  datatype Api = Api(
    list: Option<seq<Named>>,
    pokemon: string -> Option<PokemonDoc>,
    species: string -> Option<SpeciesDoc>,
    chain: string -> Option<ChainNode>)

  /** `fetchAllPokemonList()`: the entries of the index, or a failure. */
  function FetchAllPokemonList(api: Api): Option<seq<Named>> {
    api.list
  }

  // ---------------------------------------------------------------------
  // Identifiers from URLs
  // ---------------------------------------------------------------------

  predicate NonEmpty(s: string) {
    |s| > 0
  }

  /** `url.split('/').filter(Boolean).pop()`: the last non-empty path segment. */
  function IdFromUrl(url: string): (r: Option<string>)
    ensures r.Some? ==> r.value in Split(url, '/') && |r.value| > 0 && '/' !in r.value
  {
    var segments := Filter(NonEmpty, Split(url, '/'));
    if segments == [] then None
    else
      assert segments[|segments| - 1] in segments;
      SplitPiecesLackSeparator(url, '/');
      Some(segments[|segments| - 1])
  }

  /** A trailing slash does not change the identifier. */
  lemma TrailingSlashIgnored(url: string)
    ensures IdFromUrl(url + "/") == IdFromUrl(url)
  {
    assert url + "/" == url + ['/'] + [];
    SplitAround(url, '/', []);
    FilterConcat(NonEmpty, Split(url, '/'), [[]]);
  }

  /** The identifier of `prefix/id` and of `prefix/id/` is `id`. */
  lemma IdOfResourceUrl(prefix: string, id: string)
    requires |id| > 0 && '/' !in id
    ensures IdFromUrl(prefix + "/" + id) == Some(id)
    ensures IdFromUrl(prefix + "/" + id + "/") == Some(id)
  {
    assert prefix + "/" + id == prefix + ['/'] + id;
    SplitAround(prefix, '/', id);
    SplitWithoutSeparator(id, '/');
    FilterConcat(NonEmpty, Split(prefix, '/'), [id]);
    TrailingSlashIgnored(prefix + "/" + id);
  }

  /** The species URL built from an identifier; a missing one is spelled `undefined`. */
  function SpeciesUrl(id: Option<string>): string {
    BASE_URL + "/pokemon-species/" + (if id.Some? then id.value else "undefined")
  }

  // ---------------------------------------------------------------------
  // Japanese texts
  // ---------------------------------------------------------------------

  predicate IsJa(t: LangText) {
    t.language == "ja"
  }

  function TextOf(t: LangText): string {
    t.text
  }

  /** Position `i` holds the first Japanese entry. */
  predicate FirstJaAt(entries: seq<LangText>, i: int) {
    0 <= i < |entries| && IsJa(entries[i]) && forall j :: 0 <= j < i ==> !IsJa(entries[j])
  }

  /** `entries.find(e => e.language.name === 'ja')`, projected to its text. */
  function FirstJa(entries: seq<LangText>): (r: Option<string>)
    ensures r.None? <==> forall i :: 0 <= i < |entries| ==> !IsJa(entries[i])
    ensures forall i :: FirstJaAt(entries, i) ==> r == Some(entries[i].text)
  {
    match FirstIndex(entries, IsJa)
    case None => None
    case Some(k) => Some(entries[k].text)
  }

  /** `found?.text || fallback`: a missing or empty text gives the fallback. */
  function TextOr(found: Option<string>, fallback: string): (r: string)
    ensures found.Some? && |found.value| > 0 ==> r == found.value
    ensures found.None? || |found.value| == 0 ==> r == fallback
  {
    if found.Some? && |found.value| > 0 then found.value else fallback
  }

  /** The Japanese name: the first `ja` name, else the fallback. */
  function JaName(names: seq<LangText>, fallback: string): string {
    TextOr(FirstJa(names), fallback)
  }

  /** The batch description: the first `ja` flavour text without line breaks, else empty. */
  function BatchDescription(entries: seq<LangText>): (r: string)
    ensures '\n' !in r
  {
    match FirstJa(entries)
    case None => ""
    case Some(t) => TextOr(Some(StripNewlines(t)), "")
  }

  /** Every `ja` flavour text, in document order. */
  function JaTexts(entries: seq<LangText>): seq<string> {
    Map(TextOf, Filter(IsJa, entries))
  }

  /** The full description: every `ja` flavour text without line breaks, joined by spaces. */
  function FullDescription(entries: seq<LangText>): string {
    Join(Map(StripNewlines, JaTexts(entries)), " ")
  }

  /** The first text of a non-empty filter is the text at the first matching index. */
  lemma {:induction false} FilterFirstIsFirstJa(entries: seq<LangText>)
    requires Filter(IsJa, entries) != []
    ensures FirstJa(entries) == Some(Filter(IsJa, entries)[0].text)
    decreases |entries|
  {
    if !IsJa(entries[0]) {
      FilterFirstIsFirstJa(entries[1..]);
      assert FirstIndex(entries[1..], IsJa).Some?;
    }
  }

  /** The batch description is where the full description starts. */
  lemma BatchDescriptionStartsFull(entries: seq<LangText>)
    ensures BatchDescription(entries) <= FullDescription(entries)
  {
    var ja := Filter(IsJa, entries);
    if ja == [] {
      assert FirstJa(entries).None? by {
        FilterNoneKeptConverse(entries);
      }
    } else {
      FilterFirstIsFirstJa(entries);
      JoinStartsWithFirst(Map(StripNewlines, JaTexts(entries)), " ");
    }
  }

  lemma FilterNoneKeptConverse(entries: seq<LangText>)
    requires Filter(IsJa, entries) == []
    ensures forall i :: 0 <= i < |entries| ==> !IsJa(entries[i])
  {
    forall i | 0 <= i < |entries| ensures !IsJa(entries[i]) {
      FilterMembership(IsJa, entries, entries[i]);
    }
  }

  /** Neither description contains a line break; with no `ja` text both are empty. */
  lemma DescriptionsHaveNoLineBreaks(entries: seq<LangText>)
    ensures '\n' !in FullDescription(entries)
    ensures (forall i :: 0 <= i < |entries| ==> !IsJa(entries[i])) ==>
      BatchDescription(entries) == "" && FullDescription(entries) == ""
  {
    JoinAvoids(Map(StripNewlines, JaTexts(entries)), " ", '\n');
    if forall i :: 0 <= i < |entries| ==> !IsJa(entries[i]) {
      FilterNoneKept(IsJa, entries);
    }
  }

  // ---------------------------------------------------------------------
  // fetchPokemonDetails: batch records
  // ---------------------------------------------------------------------

  /** The record built from an index entry's two documents; it has no generation. */
  function BatchRecord(p: PokemonDoc, s: SpeciesDoc): (r: Pokemon)
    ensures r.generation.None?
  {
    Pokemon(
      id := p.id, name := p.name, nameJa := JaName(s.names, p.name),
      types := p.types, height := p.height, weight := p.weight,
      sprites := p.sprites, stats := p.stats,
      description := BatchDescription(s.flavorTextEntries),
      evolutionChainUrl := s.evolutionChain, generation := None)
  }

  /** The two lookups for one index entry and the record they give. */
  function LookupEntry(api: Api, entry: Named): Option<Pokemon> {
    var p := api.pokemon(entry.url);
    var s := api.species(SpeciesUrl(IdFromUrl(entry.url)));
    if p.Some? && s.Some? then Some(BatchRecord(p.value, s.value)) else None
  }

  function LookupFn(api: Api): Named -> Option<Pokemon> {
    entry => LookupEntry(api, entry)
  }

  /** All entries looked up together: one record per entry, or a failure if any lookup fails. */
  function FetchAll(api: Api, entries: seq<Named>): (r: Option<seq<Pokemon>>)
    ensures r.Some? ==> |r.value| == |entries|
  {
    Collect(Map(LookupFn(api), entries))
  }

  /** `fetchPokemonDetails(pokemonList, startIndex, endIndex)`. */
  function FetchPokemonDetails(api: Api, list: seq<Named>, start: int, end: int): (r: Option<seq<Pokemon>>)
    ensures r.Some? ==> |r.value| == |Slice(list, start, end)|
  {
    FetchAll(api, Slice(list, start, end))
  }

  /**
   * A batch succeeds exactly when every lookup for the slice succeeds, and
   * then holds one record per slice entry, in slice order, none with a generation.
   */
  lemma FetchPokemonDetailsRecords(api: Api, list: seq<Named>, start: int, end: int)
    ensures FetchPokemonDetails(api, list, start, end).Some? <==>
      forall i :: 0 <= i < |Slice(list, start, end)| ==> LookupEntry(api, Slice(list, start, end)[i]).Some?
    ensures FetchPokemonDetails(api, list, start, end).Some? ==>
      forall i :: 0 <= i < |Slice(list, start, end)| ==>
        LookupEntry(api, Slice(list, start, end)[i]) == Some(FetchPokemonDetails(api, list, start, end).value[i])
        && FetchPokemonDetails(api, list, start, end).value[i].generation.None?
  {
    CollectElements(Map(LookupFn(api), Slice(list, start, end)));
  }

  /** Looking up two runs of entries is looking up their concatenation. */
  lemma FetchAllConcat(api: Api, a: seq<Named>, b: seq<Named>)
    ensures FetchAll(api, a + b) == Both(FetchAll(api, a), FetchAll(api, b))
  {
    MapConcat(LookupFn(api), a, b);
    CollectConcat(Map(LookupFn(api), a), Map(LookupFn(api), b));
  }

  /** Two adjacent ranges fetched one after the other give the records of the joint range. */
  lemma FetchAdjacentRanges(api: Api, list: seq<Named>, a: int, b: int, c: int)
    requires 0 <= a <= b <= c
    ensures FetchPokemonDetails(api, list, a, c) ==
      Both(FetchPokemonDetails(api, list, a, b), FetchPokemonDetails(api, list, b, c))
  {
    var n := |list|;
    var i, j, k := SliceIndex(a, n), SliceIndex(b, n), SliceIndex(c, n);
    assert list[i..k] == list[i..j] + list[j..k];
    FetchAllConcat(api, list[i..j], list[j..k]);
  }

  // ---------------------------------------------------------------------
  // parseEvolutionChain
  // ---------------------------------------------------------------------

  /** One entry of an evolution list. */
  datatype EvolutionEntry = EvolutionEntry(id: Option<string>, name: string, nameJa: string, url: string)

  /**
   * The entry for one species reference: its Japanese name comes from its
   * species document, and a failed lookup falls back to the species name.
   */
  function EntryFor(api: Api, species: Named): (r: EvolutionEntry)
    ensures r.id == IdFromUrl(species.url) && r.name == species.name && r.url == species.url
    ensures api.species(SpeciesUrl(r.id)).None? ==> r.nameJa == species.name
  {
    var id := IdFromUrl(species.url);
    var nameJa :=
      match api.species(SpeciesUrl(id))
      case Some(doc) => JaName(doc.names, species.name)
      case None => species.name;
    EvolutionEntry(id, species.name, nameJa, species.url)
  }

  function EntryFn(api: Api): Named -> EvolutionEntry {
    species => EntryFor(api, species)
  }

  /** The species of a chain, depth first in pre-order: a node, then each child's subtree in order. */
  function Skeleton(node: ChainNode): seq<Named>
    decreases node, 1
  {
    [node.species] + SkeletonAll(node.evolvesTo)
  }

  /** The pre-order species of a sequence of sibling subtrees, in order. */
  function SkeletonAll(nodes: seq<ChainNode>): seq<Named>
    decreases nodes, 0
  {
    if nodes == [] then [] else Skeleton(nodes[0]) + SkeletonAll(nodes[1..])
  }

  /** `species` occurs somewhere in the tree under `node`. */
  predicate InTree(species: Named, node: ChainNode)
    decreases node
  {
    node.species == species || exists k :: 0 <= k < |node.evolvesTo| && InTree(species, node.evolvesTo[k])
  }

  /** The flattened list mentions exactly the species of the tree. */
  lemma {:induction false} SkeletonMembership(node: ChainNode, species: Named)
    ensures species in Skeleton(node) <==> InTree(species, node)
    decreases node, 1
  {
    SkeletonAllMembership(node.evolvesTo, species);
  }

  lemma {:induction false} SkeletonAllMembership(nodes: seq<ChainNode>, species: Named)
    ensures species in SkeletonAll(nodes) <==> exists k :: 0 <= k < |nodes| && InTree(species, nodes[k])
    decreases nodes, 0
  {
    if nodes != [] {
      SkeletonMembership(nodes[0], species);
      SkeletonAllMembership(nodes[1..], species);
      if exists k :: 0 <= k < |nodes| && InTree(species, nodes[k]) {
        var k :| 0 <= k < |nodes| && InTree(species, nodes[k]);
        if k > 0 {
          assert nodes[1..][k - 1] == nodes[k];
        }
      }
      if exists k :: 0 <= k < |nodes[1..]| && InTree(species, nodes[1..][k]) {
        var k :| 0 <= k < |nodes[1..]| && InTree(species, nodes[1..][k]);
        assert nodes[k + 1] == nodes[1..][k];
      }
    }
  }

  /** The evolution list of a chain, as `parseEvolutionChain` resolves to it. */
  function EvolutionEntries(api: Api, chain: ChainNode): (r: seq<EvolutionEntry>)
    ensures |r| == |Skeleton(chain)| && r[0] == EntryFor(api, chain.species)
    ensures forall i :: 0 <= i < |r| ==> r[i] == EntryFor(api, Skeleton(chain)[i])
  {
    Map(EntryFn(api), Skeleton(chain))
  }

  /**
   * Lookups decide only the Japanese names: under any two answers the lists
   * have the same length and agree on every identifier, name and URL, and
   * an entry differs only where the two answers for its species differ.
   */
  lemma LookupsOnlyDecideJapaneseNames(api1: Api, api2: Api, chain: ChainNode)
    ensures |EvolutionEntries(api1, chain)| == |EvolutionEntries(api2, chain)|
    ensures forall i :: 0 <= i < |EvolutionEntries(api1, chain)| ==>
      var e1, e2 := EvolutionEntries(api1, chain)[i], EvolutionEntries(api2, chain)[i];
      e1.id == e2.id && e1.name == e2.name && e1.url == e2.url
      && (api1.species(SpeciesUrl(e1.id)) == api2.species(SpeciesUrl(e1.id)) ==> e1 == e2)
  {
  }

  /** The accumulator `traverse` pushes into. */
  class EvolutionCollector {
    var evolutionList: seq<EvolutionEntry>

    constructor()
      ensures evolutionList == []
    {
      evolutionList := [];
    }

    /** `traverse(node)`: the node's entry, then each child's subtree, depth first. */
    method Traverse(api: Api, node: ChainNode)
      modifies this
      ensures evolutionList == old(evolutionList) + Map(EntryFn(api), Skeleton(node))
      decreases node
    {
      ghost var head := evolutionList + [EntryFor(api, node.species)];
      evolutionList := evolutionList + [EntryFor(api, node.species)];
      for k := 0 to |node.evolvesTo|
        invariant evolutionList == head + Map(EntryFn(api), SkeletonAll(node.evolvesTo[..k]))
      {
        TraverseStep(api, node.evolvesTo, k, head);
        Traverse(api, node.evolvesTo[k]);
      }
      NodeEntries(api, node, old(evolutionList));
    }
  }

  lemma {:induction false} SkeletonAllConcat(a: seq<ChainNode>, b: seq<ChainNode>)
    ensures SkeletonAll(a + b) == SkeletonAll(a) + SkeletonAll(b)
    decreases |a|
  {
    if a == [] {
      assert a + b == b;
    } else {
      SkeletonAllConcat(a[1..], b);
      assert (a + b)[0] == a[0] && (a + b)[1..] == a[1..] + b;
    }
  }

  /** A node's entry followed by its children's entries are the entries of its subtree. */
  lemma NodeEntries(api: Api, node: ChainNode, prefix: seq<EvolutionEntry>)
    ensures prefix + [EntryFor(api, node.species)] + Map(EntryFn(api), SkeletonAll(node.evolvesTo[..|node.evolvesTo|]))
      == prefix + Map(EntryFn(api), Skeleton(node))
  {
    assert node.evolvesTo[..|node.evolvesTo|] == node.evolvesTo;
    MapConcat(EntryFn(api), [node.species], SkeletonAll(node.evolvesTo));
  }

  /** Traversing child `k` after children `0..k` extends the list by that child's entries. */
  lemma TraverseStep(api: Api, nodes: seq<ChainNode>, k: nat, prefix: seq<EvolutionEntry>)
    requires k < |nodes|
    ensures prefix + Map(EntryFn(api), SkeletonAll(nodes[..k + 1]))
      == prefix + Map(EntryFn(api), SkeletonAll(nodes[..k])) + Map(EntryFn(api), Skeleton(nodes[k]))
  {
    SkeletonAllSnoc(nodes, k);
    MapConcat(EntryFn(api), SkeletonAll(nodes[..k]), Skeleton(nodes[k]));
  }

  lemma SkeletonAllSnoc(nodes: seq<ChainNode>, k: nat)
    requires k < |nodes|
    ensures SkeletonAll(nodes[..k + 1]) == SkeletonAll(nodes[..k]) + Skeleton(nodes[k])
  {
    assert nodes[..k + 1] == nodes[..k] + [nodes[k]];
    SkeletonAllConcat(nodes[..k], [nodes[k]]);
    assert SkeletonAll([nodes[k]]) == Skeleton(nodes[k]) + SkeletonAll([]);
  }

  /** `parseEvolutionChain(chain)`: the resolved list of entries, one per node, in pre-order. */
  method ParseEvolutionChain(api: Api, chain: ChainNode) returns (evolutionList: seq<EvolutionEntry>)
    ensures evolutionList == EvolutionEntries(api, chain)
  {
    var collector := new EvolutionCollector();
    collector.Traverse(api, chain);
    evolutionList := collector.evolutionList;
  }

  // ---------------------------------------------------------------------
  // fetchPokemonFullDetails
  // ---------------------------------------------------------------------

  /**
   * The `evolutionChain` field of a full record: a list of entries, or a
   * promise that was never awaited.
   */
  datatype EvolutionField = Listed(entries: seq<EvolutionEntry>) | Pending

  /** The record the detail page shows. */
  datatype PokemonDetail = PokemonDetail(
    id: nat, name: string, nameJa: string, types: seq<TypeSlot>,
    height: int, weight: int, sprites: string, stats: seq<StatEntry>,
    abilities: seq<string>, description: string, evolutionChain: EvolutionField,
    generation: string, genus: string)

  function PokemonUrl(pokemonId: string): string {
    BASE_URL + "/pokemon/" + pokemonId
  }

  function SpeciesUrlOf(pokemonId: string): string {
    BASE_URL + "/pokemon-species/" + pokemonId
  }

  /** The full record from the two documents and an evolution field. */
  function DetailRecord(p: PokemonDoc, s: SpeciesDoc, chain: EvolutionField): (r: PokemonDetail)
    ensures r.nameJa == JaName(s.names, p.name)
    ensures r.description == FullDescription(s.flavorTextEntries)
    ensures r.genus == TextOr(FirstJa(s.genera), "")
    ensures r.generation == s.generation && r.evolutionChain == chain
  {
    PokemonDetail(
      id := p.id, name := p.name, nameJa := JaName(s.names, p.name),
      types := p.types, height := p.height, weight := p.weight,
      sprites := p.sprites, stats := p.stats, abilities := p.abilities,
      description := FullDescription(s.flavorTextEntries),
      evolutionChain := chain, generation := s.generation,
      genus := TextOr(FirstJa(s.genera), ""))
  }

  /**
   * `fetchPokemonFullDetails(pokemonId)` as written: when the species has an
   * evolution chain, the chain document is fetched, but the list built from
   * it is left as an unawaited promise.
   */
  function FetchPokemonFullDetailsAsWritten(api: Api, pokemonId: string): (r: Option<PokemonDetail>)
    ensures r.Some? ==> r.value.evolutionChain == Pending || r.value.evolutionChain == Listed([])
  {
    var p := api.pokemon(PokemonUrl(pokemonId));
    var s := api.species(SpeciesUrlOf(pokemonId));
    if p.None? || s.None? then None
    else if s.value.evolutionChain.None? then Some(DetailRecord(p.value, s.value, Listed([])))
    else if api.chain(s.value.evolutionChain.value).None? then None
    else Some(DetailRecord(p.value, s.value, Pending))
  }

  /**
   * `fetchPokemonFullDetails(pokemonId)` with the evolution list awaited:
   * the chain is flattened into its entries.
   */
  function FetchPokemonFullDetails(api: Api, pokemonId: string): (r: Option<PokemonDetail>)
    ensures r.Some? ==> r.value.evolutionChain.Listed?
    ensures r.Some? <==>
      api.pokemon(PokemonUrl(pokemonId)).Some? && api.species(SpeciesUrlOf(pokemonId)).Some?
      && (api.species(SpeciesUrlOf(pokemonId)).value.evolutionChain.Some? ==>
            api.chain(api.species(SpeciesUrlOf(pokemonId)).value.evolutionChain.value).Some?)
    ensures r.Some? && api.species(SpeciesUrlOf(pokemonId)).value.evolutionChain.Some? ==>
      r.value.evolutionChain.entries ==
        EvolutionEntries(api, api.chain(api.species(SpeciesUrlOf(pokemonId)).value.evolutionChain.value).value)
  {
    var p := api.pokemon(PokemonUrl(pokemonId));
    var s := api.species(SpeciesUrlOf(pokemonId));
    if p.None? || s.None? then None
    else if s.value.evolutionChain.None? then Some(DetailRecord(p.value, s.value, Listed([])))
    else
      match api.chain(s.value.evolutionChain.value)
      case None => None
      case Some(chain) => Some(DetailRecord(p.value, s.value, Listed(EvolutionEntries(api, chain))))
  }

  /** Apart from the evolution field, the two versions build the same record. */
  lemma FullDetailsAgreeOutsideEvolution(api: Api, pokemonId: string)
    ensures FetchPokemonFullDetailsAsWritten(api, pokemonId).Some? <==> FetchPokemonFullDetails(api, pokemonId).Some?
    ensures FetchPokemonFullDetails(api, pokemonId).Some? ==>
      FetchPokemonFullDetailsAsWritten(api, pokemonId).value ==
        FetchPokemonFullDetails(api, pokemonId).value.(evolutionChain := FetchPokemonFullDetailsAsWritten(api, pokemonId).value.evolutionChain)
  {
  }
}
