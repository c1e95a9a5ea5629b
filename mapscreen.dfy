/**
 * The favourite toggle of the map screen (Map.tsx): the screen keeps its
 * own set of favourite ids and a per-place "busy" flag, flips the set
 * before the remote call returns and flips it back when the call fails.
 */
module MapScreen {
  import opened Store
  import opened Favorites

  /** `id` added when absent, removed when present. */
  function Flip(ids: set<string>, id: string): (r: set<string>)
    ensures id in r <==> id !in ids
    ensures forall x :: x != id ==> (x in r <==> x in ids)
  {
    if id in ids then ids - {id} else ids + {id}
  }

  /** Flipping twice gives the set back. */
  lemma FlipTwice(ids: set<string>, id: string)
    ensures Flip(Flip(ids, id), id) == ids
  {
  }

  /** The revert step undoes the optimistic step whichever way it went. */
  lemma RevertRestores(ids: set<string>, id: string)
    ensures (if id in ids then Flip(ids, id) + {id} else Flip(ids, id) - {id}) == ids
  {
  }

  class MapScreen {
    const sync: FavoritesSync
    var favoriteIds: set<string>
    var loadingFavById: map<string, bool>

    constructor (sync: FavoritesSync)
      ensures this.sync == sync && favoriteIds == {} && loadingFavById == map[]
    {
      this.sync := sync;
      favoriteIds := {};
      loadingFavById := map[];
    }

    /** The initial load: the screen shows whatever `fetchFavoriteIds`
        answers, and a server answer is also written to the user's cache;
        the result says whether a user is signed in (otherwise a hint to
        log in is shown). */
    method LoadFavorites(outcome: Outcome) returns (signedIn: bool)
      modifies this, sync
      ensures favoriteIds == old(sync.IdsAnswer(outcome)).0
      ensures signedIn <==> old(sync.ActiveUser()).Some?
      ensures loadingFavById == old(loadingFavById)
      ensures sync.table == old(sync.table) && sync.authUser == old(sync.authUser)
      ensures var u := old(sync.ActiveUser());
        u.Some? && outcome.Success? ==> sync.cache == old(sync.cache)[CacheKey(u.value) := Json(favoriteIds)]
      ensures old(sync.ActiveUser()).None? || outcome.Failure? ==> sync.cache == old(sync.cache)
    {
      var userId, ids, source := sync.FetchFavoriteIds(outcome);
      favoriteIds := ids;
      signedIn := userId.Some?;
    }

    /** The optimistic half of `onToggleFavorite`: the place is marked busy
        and its membership flipped; the result is `isFav`, its membership
        before the call. */
    method BeginToggle(place: Place) returns (isFav: bool)
      modifies this
      ensures isFav <==> place.id in old(favoriteIds)
      ensures favoriteIds == Flip(old(favoriteIds), place.id)
      ensures loadingFavById == old(loadingFavById)[place.id := true]
    {
      isFav := place.id in favoriteIds;
      loadingFavById := loadingFavById[place.id := true];
      var next := favoriteIds;
      if isFav {
        next := next - {place.id};
      } else {
        next := next + {place.id};
      }
      favoriteIds := next;
    }

    /** The settling half: on failure the flip is reverted, and the place
        is no longer busy. */
    method FinishToggle(place: Place, isFav: bool, res: Reply)
      modifies this
      ensures res.ok ==> favoriteIds == old(favoriteIds)
      ensures !res.ok ==> favoriteIds == if isFav then old(favoriteIds) + {place.id} else old(favoriteIds) - {place.id}
      ensures loadingFavById == old(loadingFavById)[place.id := false]
    {
      if !res.ok {
        var next := favoriteIds;
        if isFav {
          next := next + {place.id};
        } else {
          next := next - {place.id};
        }
        favoriteIds := next;
      }
      loadingFavById := loadingFavById[place.id := false];
    }

    /** `onToggleFavorite(place)`: a success leaves the place's membership
        flipped, a failure leaves the set exactly as before the call, and
        at the end the place is not busy while other flags are as they
        were. The remote side is `toggleFavorite` with the membership the
        screen saw. */
    method OnToggleFavorite(place: Place, outcome: Outcome) returns (res: Reply)
      modifies this, sync
      ensures res.ok ==> favoriteIds == Flip(old(favoriteIds), place.id)
      ensures !res.ok ==> favoriteIds == old(favoriteIds)
      ensures loadingFavById == old(loadingFavById)[place.id := false]
      ensures place.id in old(favoriteIds) ==> sync.RemoveEffect(place.id, outcome, res)
      ensures place.id !in old(favoriteIds) ==> sync.AddEffect(place, outcome, res)
      ensures old(sync.Valid()) ==> sync.Valid()
      ensures var u := old(sync.ActiveUser());
        u.Some? && old(favoriteIds) == old(sync.LoadFavoritesCache(u.value)) ==> favoriteIds == sync.LoadFavoritesCache(u.value)
      ensures var u := old(sync.ActiveUser());
        u.Some? && old(sync.Valid()) && old(favoriteIds) == old(ServerIds(sync.table, u.value)) ==> favoriteIds == ServerIds(sync.table, u.value)
    {
      ghost var u := sync.ActiveUser();
      ghost var t := sync.table;
      var isFav := BeginToggle(place);
      res := sync.ToggleFavorite(place, isFav, outcome);
      FinishToggle(place, isFav, res);
      if u.Some? && UniqueRows(t) {
        if isFav {
          DeleteEffect(t, u.value, place.id, u.value);
        } else {
          UpsertEffect(t, Payload(u.value, place), u.value);
        }
      }
    }
  }
}
