/**
 * The favourites store: a list of item numbers kept as JSON text under the
 * browser storage key `pokemon_favorites`. The stored text is the state of a
 * `FavoritesStore`; every operation re-reads it.
 */
module LocalStorage {
  import opened Seqs

  /** The storage key the favourites live under. */
  const FAVORITES_KEY: string := "pokemon_favorites"

  /**
   * What the storage holds under the key: nothing (or the empty string), text
   * that does not parse as JSON, or a parsed array of numbers.
   */
  datatype Stored = Missing | Malformed | Ids(ids: seq<int>)

  /** `getFavorites()` on a given stored value: the parsed list, else the empty list. */
  function ReadFavorites(stored: Stored): (r: seq<int>)
    ensures stored.Ids? ==> r == stored.ids
    ensures !stored.Ids? ==> r == []
  {
    match stored
    case Ids(ids) => ids
    case _ => []
  }

  /** The list `addFavorite` leaves: unchanged when the number is present, else with it appended. */
  function WithFavorite(s: seq<int>, id: int): (r: seq<int>)
    ensures id in r
    ensures forall y :: y in r <==> y in s || y == id
    ensures NoDuplicates(s) ==> NoDuplicates(r)
  {
    if id in s then s else s + [id]
  }

  /** Adding is idempotent. */
  lemma WithFavoriteIdempotent(s: seq<int>, id: int)
    ensures WithFavorite(WithFavorite(s, id), id) == WithFavorite(s, id)
  {
  }

  /** Removing after adding an absent number gives the original list back. */
  lemma RemoveUndoesAdd(s: seq<int>, id: int)
    requires id !in s
    ensures RemoveAll(WithFavorite(s, id), id) == s
  {
    RemoveAfterAppend(s, id);
    RemoveAbsent(s, id);
  }

  /** Adding grows the list by one exactly when the number is new. */
  lemma WithFavoriteLength(s: seq<int>, id: int)
    ensures |WithFavorite(s, id)| == if id in s then |s| else |s| + 1
  {
  }

  /** The browser storage slot holding the favourites. */
  class FavoritesStore {
    var stored: Stored

    constructor(initial: Stored)
      ensures stored == initial
    {
      stored := initial;
    }

    /** `getFavorites()`. */
    function GetFavorites(): seq<int>
      reads this
    {
      ReadFavorites(stored)
    }

    /** `isFavorite(id)`. */
    function IsFavorite(id: int): bool
      reads this
    {
      id in GetFavorites()
    }

    /** `addFavorite(id)`: writes only when the number is not yet stored. */
    method AddFavorite(id: int)
      modifies this
      ensures id in old(GetFavorites()) ==> stored == old(stored)
      ensures id !in old(GetFavorites()) ==> stored == Ids(old(GetFavorites()) + [id])
      ensures GetFavorites() == WithFavorite(old(GetFavorites()), id)
      ensures IsFavorite(id)
    {
      var favorites := GetFavorites();
      if id !in favorites {
        favorites := favorites + [id];
        stored := Ids(favorites);
      }
    }

    /** `removeFavorite(id)`: always writes the list without any occurrence of the number. */
    method RemoveFavorite(id: int)
      modifies this
      ensures stored == Ids(RemoveAll(old(GetFavorites()), id))
      ensures !IsFavorite(id)
      ensures forall y :: y != id ==> (IsFavorite(y) <==> old(IsFavorite(y)))
    {
      var favorites := GetFavorites();
      var updated := RemoveAll(favorites, id);
      stored := Ids(updated);
      forall y | y != id ensures y in updated <==> y in favorites {
        RemoveAllMembership(favorites, id, y);
      }
    }

    /** `toggleFavorite(id)`: removes a stored number, adds an absent one. */
    method ToggleFavorite(id: int)
      modifies this
      ensures GetFavorites() == Toggled(old(GetFavorites()), id)
      ensures IsFavorite(id) <==> !old(IsFavorite(id))
      ensures forall y :: y != id ==> (IsFavorite(y) <==> old(IsFavorite(y)))
      ensures old(NoDuplicates(GetFavorites())) ==> NoDuplicates(GetFavorites())
    {
      ghost var before := GetFavorites();
      if IsFavorite(id) {
        RemoveFavorite(id);
      } else {
        AddFavorite(id);
      }
      forall y | y != id ensures y in GetFavorites() <==> y in before {
        ToggledMembership(before, id, y);
      }
      if NoDuplicates(before) {
        ToggledNoDuplicates(before, id);
      }
    }
  }
}
