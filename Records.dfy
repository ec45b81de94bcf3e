/**
 * The catalogue item as the application holds it in memory, after the
 * remote documents have been normalised. Heights and weights are integers
 * in tenths of a metre and tenths of a kilogram, as the remote API gives them.
 */
module Records {
  import opened Wrappers

  /** One entry of `types`: `{ slot, type: { name } }`. */
  datatype TypeSlot = TypeSlot(slot: int, typeName: string)

  /** One entry of `stats`: `{ base_stat, stat: { name } }`. */
  datatype StatEntry = StatEntry(statName: string, baseStat: int)

  /**
   * An item of the list and favourites pages. `generation` is absent on every
   * record the batch loader builds; `evolutionChainUrl` is absent when the
   * species has no evolution chain.
   */
  datatype Pokemon = Pokemon(
    id: nat,
    name: string,
    nameJa: string,
    types: seq<TypeSlot>,
    height: int,
    weight: int,
    sprites: string,
    stats: seq<StatEntry>,
    description: string,
    evolutionChainUrl: Option<string>,
    generation: Option<string>)
}
