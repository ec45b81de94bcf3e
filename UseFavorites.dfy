/**
 * The favourites hook: an in-memory copy of the favourites list, loaded
 * from the store once on mount and updated beside the store on each toggle.
 */
module UseFavorites {
  import opened Seqs
  import opened LocalStorage

  /** The state one component instance of the hook holds. */
  class FavoritesHook {
    var favorites: seq<int>
    const store: FavoritesStore

    /** The hook's first render: an empty list, before the mount effect runs. */
    constructor(store: FavoritesStore)
      ensures favorites == [] && this.store == store
    {
      favorites := [];
      this.store := store;
    }

    /** The in-memory list agrees with the store. */
    predicate InSync()
      reads this, store
    {
      favorites == store.GetFavorites()
    }

    /** The mount effect: the list is read from the store. */
    method Mount()
      modifies this
      ensures favorites == store.GetFavorites()
      ensures InSync()
    {
      favorites := store.GetFavorites();
    }

    /** `isFavorite(id)`: asks the in-memory list, not the store. */
    function IsFavorite(id: int): bool
      reads this
    {
      id in favorites
    }

    /** `favoritesCount`. */
    function FavoritesCount(): nat
      reads this
    {
      |favorites|
    }

    /**
     * `toggleFavorite(id)`: decides on the in-memory list, then updates the
     * store and the list. A stale list makes the two disagree; a list in
     * sync without duplicates stays in sync.
     */
    method ToggleFavorite(id: int)
      modifies this, store
      ensures favorites == Toggled(old(favorites), id)
      ensures IsFavorite(id) <==> !old(IsFavorite(id))
      ensures id in old(favorites) ==> store.stored == Ids(RemoveAll(old(store.GetFavorites()), id))
      ensures id !in old(favorites) ==> store.GetFavorites() == WithFavorite(old(store.GetFavorites()), id)
      ensures old(InSync()) ==> InSync()
      ensures old(NoDuplicates(favorites)) ==> NoDuplicates(favorites)
      ensures old(NoDuplicates(favorites)) ==>
        FavoritesCount() == if id in old(favorites) then old(FavoritesCount()) - 1 else old(FavoritesCount()) + 1
    {
      if id in favorites {
        if NoDuplicates(favorites) {
          RemoveAllLength(favorites, id);
        }
        store.RemoveFavorite(id);
        favorites := RemoveAll(favorites, id);
      } else {
        store.AddFavorite(id);
        favorites := favorites + [id];
      }
      if old(NoDuplicates(favorites)) {
        ToggledNoDuplicates(old(favorites), id);
      }
    }
  }
}
