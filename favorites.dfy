/**
 * favorites.ts: favourite places kept in two places at once, a per-user
 * cache in device storage and the remote `favorite_places` table. The
 * authenticated user and the outcome of each remote call are inputs; the
 * table is the sequence of its rows.
 */
module Favorites {
  import opened Store

  const CacheKeyPrefix := "favorite_places_cache:"

  /** The storage key of one user's cache. */
  function CacheKey(userId: string): (key: string)
    ensures |key| == |CacheKeyPrefix| + |userId|
    ensures key[..|CacheKeyPrefix|] == CacheKeyPrefix && key[|CacheKeyPrefix|..] == userId
  {
    CacheKeyPrefix + userId
  }

  /** Each user has a cache of their own. */
  lemma CacheKeyInjective(u: string, v: string)
    requires CacheKey(u) == CacheKey(v)
    ensures u == v
  {
    assert u == CacheKey(u)[|CacheKeyPrefix|..];
  }

  /** How a remote call ended. */
  datatype Outcome = Success | Failure(message: string)

  /** Where `fetchFavoriteIds` took its answer from. */
  datatype Source = Server | Cache | Empty

  /** `{ ok, message? }` */
  datatype Reply = Reply(ok: bool, message: Option<string>)

  const NotAuthenticated := "Usuário não autenticado (RLS ativo)."

  /** The fields of a place that a favourite row keeps. */
  datatype Place = Place(id: string, name: string, placeType: string, address: Option<string>,
                         latitude: Option<real>, longitude: Option<real>)

  datatype Snapshot = Snapshot(name: string, placeType: string, address: Option<string>,
                               latitude: Option<real>, longitude: Option<real>)

  /** One row of `favorite_places`. */
  datatype FavoriteRow = FavoriteRow(userId: string, placeId: string, snapshot: Snapshot)

  type Table = seq<FavoriteRow>

  /** The payload `addFavorite` upserts. */
  function Payload(userId: string, place: Place): (row: FavoriteRow)
    ensures row.userId == userId && row.placeId == place.id
  {
    FavoriteRow(userId, place.id, Snapshot(place.name, place.placeType, place.address, place.latitude, place.longitude))
  }

  predicate SameKey(a: FavoriteRow, b: FavoriteRow) {
    a.userId == b.userId && a.placeId == b.placeId
  }

  /** The table's unique constraint on `(user_id, place_id)`. */
  predicate UniqueRows(t: Table) {
    forall i, j :: 0 <= i < j < |t| ==> !SameKey(t[i], t[j])
  }

  /** How many rows carry the pair `(u, p)`. */
  function KeyCount(t: Table, u: string, p: string): nat {
    if t == [] then 0
    else (if t[0].userId == u && t[0].placeId == p then 1 else 0) + KeyCount(t[1..], u, p)
  }

  /** `select ... .eq('user_id', u)`: one user's rows, in table order. */
  function RowsOf(t: Table, u: string): (rows: Table)
    ensures forall i :: 0 <= i < |rows| ==> rows[i].userId == u && rows[i] in t
    ensures forall x :: multiset(rows)[x] == if x.userId == u then multiset(t)[x] else 0
  {
    if t == [] then []
    else
      assert t == [t[0]] + t[1..];
      assert multiset(t) == multiset{t[0]} + multiset(t[1..]);
      if t[0].userId == u then [t[0]] + RowsOf(t[1..], u)
      else RowsOf(t[1..], u)
  }

  /** The server's favourite ids of `u`. */
  function ServerIds(t: Table, u: string): (ids: set<string>)
    ensures forall p :: p in ids ==> exists i :: 0 <= i < |t| && t[i].userId == u && t[i].placeId == p
    ensures forall i :: 0 <= i < |t| && t[i].userId == u ==> t[i].placeId in ids
  {
    if t == [] then {}
    else (if t[0].userId == u then {t[0].placeId} else {}) + ServerIds(t[1..], u)
  }

  /** `upsert(payload, { onConflict: 'user_id,place_id' })`: the row holding
      the same pair is overwritten, otherwise the payload is inserted. */
  function Upsert(t: Table, row: FavoriteRow): Table {
    if t == [] then [row]
    else if SameKey(t[0], row) then [row] + t[1..]
    else [t[0]] + Upsert(t[1..], row)
  }

  /** `delete().eq('user_id', u).eq('place_id', p)` */
  function DeleteRows(t: Table, u: string, p: string): Table {
    if t == [] then []
    else if t[0].userId == u && t[0].placeId == p then DeleteRows(t[1..], u, p)
    else [t[0]] + DeleteRows(t[1..], u, p)
  }

  /** Rows with a given key stay unique while the pair is counted once. */
  lemma {:induction false} UniqueCount(t: Table, u: string, p: string)
    requires UniqueRows(t)
    ensures KeyCount(t, u, p) <= 1
  {
    if t != [] {
      assert UniqueRows(t[1..]) by {
        assert forall i, j :: 0 <= i < j < |t[1..]| ==> t[1..][i] == t[i + 1] && t[1..][j] == t[j + 1];
      }
      UniqueCount(t[1..], u, p);
      if t[0].userId == u && t[0].placeId == p {
        NoOtherKey(t, u, p);
      }
    }
  }

  lemma {:induction false} ZeroCount(t: Table, u: string, p: string)
    requires forall i :: 0 <= i < |t| ==> !(t[i].userId == u && t[i].placeId == p)
    ensures KeyCount(t, u, p) == 0
  {
    if t != [] {
      ZeroCount(t[1..], u, p);
    }
  }

  lemma NoOtherKey(t: Table, u: string, p: string)
    requires UniqueRows(t) && t != [] && t[0].userId == u && t[0].placeId == p
    ensures KeyCount(t[1..], u, p) == 0
  {
    var r := t[1..];
    assert forall i :: 0 <= i < |r| ==> r[i] == t[i + 1] && !SameKey(t[0], t[i + 1]);
    ZeroCount(r, u, p);
  }

  /** After an upsert the table holds exactly one row for the pair, the row
      carries the new payload, the constraint still holds, and every user's
      server ids are as before, plus the place for the payload's own user. */
  lemma UpsertEffect(t: Table, row: FavoriteRow, v: string)
    requires UniqueRows(t)
    ensures UniqueRows(Upsert(t, row))
    ensures KeyCount(Upsert(t, row), row.userId, row.placeId) == 1
    ensures row in Upsert(t, row)
    ensures ServerIds(Upsert(t, row), v) == ServerIds(t, v) + (if v == row.userId then {row.placeId} else {})
    ensures v != row.userId ==> RowsOf(Upsert(t, row), v) == RowsOf(t, v)
  {
    UpsertKeepsUnique(t, row);
    UpsertIds(t, row, v);
  }

  /** The unique constraint survives an upsert, which leaves exactly one
      row, the payload, for its pair. */
  lemma {:induction false} UpsertKeepsUnique(t: Table, row: FavoriteRow)
    requires UniqueRows(t)
    ensures UniqueRows(Upsert(t, row))
    ensures KeyCount(Upsert(t, row), row.userId, row.placeId) == 1
    ensures row in Upsert(t, row)
  {
    if t != [] {
      var rest := t[1..];
      assert UniqueRows(rest) by {
        assert forall i, j :: 0 <= i < j < |rest| ==> rest[i] == t[i + 1] && rest[j] == t[j + 1];
      }
      if SameKey(t[0], row) {
        ReplaceHead(t, row);
      } else {
        UpsertKeepsUnique(rest, row);
        var u := Upsert(rest, row);
        var r := [t[0]] + u;
        assert r[1..] == u;
        UpsertKeys(rest, row, t[0]);
        assert forall j :: 0 < j < |r| ==> !SameKey(r[0], r[j]);
      }
    }
  }

  /** Overwriting the row that holds the pair keeps the constraint. */
  lemma ReplaceHead(t: Table, row: FavoriteRow)
    requires UniqueRows(t) && t != [] && SameKey(t[0], row)
    ensures UniqueRows([row] + t[1..])
    ensures KeyCount([row] + t[1..], row.userId, row.placeId) == 1
  {
    var rest := t[1..];
    NoOtherKey(t, row.userId, row.placeId);
    var r := [row] + rest;
    assert r[1..] == rest;
    forall i, j | 0 <= i < j < |r|
      ensures !SameKey(r[i], r[j])
    {
      assert r[j] == t[j];
      if i > 0 {
        assert r[i] == t[i];
      }
    }
  }

  /** An upsert adds its place to its own user's server ids and leaves
      every other user's rows alone. */
  lemma {:induction false} UpsertIds(t: Table, row: FavoriteRow, v: string)
    ensures ServerIds(Upsert(t, row), v) == ServerIds(t, v) + (if v == row.userId then {row.placeId} else {})
    ensures v != row.userId ==> RowsOf(Upsert(t, row), v) == RowsOf(t, v)
  {
    if t != [] {
      var rest := t[1..];
      if SameKey(t[0], row) {
        assert ([row] + rest)[1..] == rest;
      } else {
        UpsertIds(rest, row, v);
        assert ([t[0]] + Upsert(rest, row))[1..] == Upsert(rest, row);
      }
    }
  }

  /** Every key in an upserted table was there already or is the payload's. */
  lemma {:induction false} UpsertKeys(t: Table, row: FavoriteRow, x: FavoriteRow)
    requires forall i :: 0 <= i < |t| ==> !SameKey(x, t[i])
    requires !SameKey(x, row)
    ensures forall i :: 0 <= i < |Upsert(t, row)| ==> !SameKey(x, Upsert(t, row)[i])
  {
    if t != [] && !SameKey(t[0], row) {
      UpsertKeys(t[1..], row, x);
      assert forall i :: 1 <= i < |Upsert(t, row)| ==> Upsert(t, row)[i] == Upsert(t[1..], row)[i - 1];
    }
  }

  /** After a delete no row holds the pair, the constraint still holds, the
      user loses exactly that id, and other users' rows are untouched. */
  lemma DeleteEffect(t: Table, u: string, p: string, v: string)
    requires UniqueRows(t)
    ensures UniqueRows(DeleteRows(t, u, p))
    ensures KeyCount(DeleteRows(t, u, p), u, p) == 0
    ensures ServerIds(DeleteRows(t, u, p), v) == ServerIds(t, v) - (if v == u then {p} else {})
    ensures v != u ==> RowsOf(DeleteRows(t, u, p), v) == RowsOf(t, v)
  {
    DeleteKeepsUnique(t, u, p);
    DeleteIds(t, u, p, v);
  }

  /** The unique constraint survives a delete, which leaves no row for
      its pair. */
  lemma {:induction false} DeleteKeepsUnique(t: Table, u: string, p: string)
    requires UniqueRows(t)
    ensures UniqueRows(DeleteRows(t, u, p))
    ensures KeyCount(DeleteRows(t, u, p), u, p) == 0
  {
    if t != [] {
      var rest := t[1..];
      assert UniqueRows(rest) by {
        assert forall i, j :: 0 <= i < j < |rest| ==> rest[i] == t[i + 1] && rest[j] == t[j + 1];
      }
      DeleteKeepsUnique(rest, u, p);
      if !(t[0].userId == u && t[0].placeId == p) {
        var d := DeleteRows(rest, u, p);
        assert forall i :: 0 <= i < |rest| ==> !SameKey(t[0], rest[i]) by {
          assert forall i :: 0 <= i < |rest| ==> rest[i] == t[i + 1];
        }
        DeleteKeeps(rest, u, p, t[0]);
        var r := [t[0]] + d;
        assert r[1..] == d;
      }
    }
  }

  /** Under the constraint a delete takes exactly its place from its own
      user's server ids and leaves every other user's rows alone. */
  lemma {:induction false} DeleteIds(t: Table, u: string, p: string, v: string)
    requires UniqueRows(t)
    ensures ServerIds(DeleteRows(t, u, p), v) == ServerIds(t, v) - (if v == u then {p} else {})
    ensures v != u ==> RowsOf(DeleteRows(t, u, p), v) == RowsOf(t, v)
  {
    if t != [] {
      var rest := t[1..];
      assert UniqueRows(rest) by {
        assert forall i, j :: 0 <= i < j < |rest| ==> rest[i] == t[i + 1] && rest[j] == t[j + 1];
      }
      DeleteIds(rest, u, p, v);
      if t[0].userId == u && t[0].placeId == p {
        if v == u {
          NoOtherKey(t, u, p);
          DeletedGone(rest, u, p);
        }
      } else {
        var d := DeleteRows(rest, u, p);
        assert ([t[0]] + d)[1..] == d;
      }
    }
  }

  lemma {:induction false} DeleteKeeps(t: Table, u: string, p: string, x: FavoriteRow)
    requires forall i :: 0 <= i < |t| ==> !SameKey(x, t[i])
    ensures forall i :: 0 <= i < |DeleteRows(t, u, p)| ==> !SameKey(x, DeleteRows(t, u, p)[i])
  {
    if t != [] {
      DeleteKeeps(t[1..], u, p, x);
    }
  }

  /** With the pair counted nowhere, its place id is not among the user's
      server ids. */
  lemma {:induction false} DeletedGone(t: Table, u: string, p: string)
    requires KeyCount(t, u, p) == 0
    ensures p !in ServerIds(t, u)
  {
    if t != [] {
      DeletedGone(t[1..], u, p);
    }
  }

  /** The storage, the remote table and the session, as favorites.ts sees
      them. */
  class FavoritesSync {
    var cache: map<string, Raw<set<string>>>
    var table: Table
    var authUser: Option<string>

    ghost predicate Valid()
      reads this
    {
      UniqueRows(table)
    }

    constructor (authUser: Option<string>)
      ensures cache == map[] && table == [] && this.authUser == authUser && Valid()
    {
      cache := map[];
      table := [];
      this.authUser := authUser;
    }

    /** `getActiveUserId()` as its callers test it: `!userId` treats a
        missing and an empty id alike. */
    function ActiveUser(): (u: Option<string>)
      reads this
      ensures u.Some? <==> authUser.Some? && authUser.value != ""
      ensures u.Some? ==> u == authUser
    {
      if authUser.Some? && authUser.value != "" then authUser else None
    }

    /** `loadFavoritesCache(userId)`: the stored set, empty when the key is
        missing or its text does not parse. */
    function LoadFavoritesCache(userId: string): (ids: set<string>)
      reads this
      ensures CacheKey(userId) in cache && cache[CacheKey(userId)].Json? ==> ids == cache[CacheKey(userId)].value
      ensures CacheKey(userId) !in cache || cache[CacheKey(userId)].Corrupt? ==> ids == {}
    {
      Read(cache, CacheKey(userId), {})
    }

    /** `saveFavoritesCache(userId, ids)`: only this user's key changes. */
    method SaveFavoritesCache(userId: string, ids: set<string>)
      modifies this
      ensures cache == old(cache)[CacheKey(userId) := Json(ids)]
      ensures table == old(table) && authUser == old(authUser)
      ensures LoadFavoritesCache(userId) == ids
      ensures forall v :: v != userId ==> LoadFavoritesCache(v) == old(LoadFavoritesCache(v))
    {
      cache := cache[CacheKey(userId) := Json(ids)];
      forall v | v != userId ensures LoadFavoritesCache(v) == old(LoadFavoritesCache(v)) {
        if CacheKey(v) == CacheKey(userId) {
          CacheKeyInjective(v, userId);
        }
      }
    }

    /** What `fetchFavoriteIds` answers in the current state. */
    function IdsAnswer(outcome: Outcome): (answer: (set<string>, Source))
      reads this
      ensures ActiveUser().None? ==> answer == ({}, Empty)
      ensures ActiveUser().Some? && outcome.Failure? ==> answer == (LoadFavoritesCache(ActiveUser().value), Cache)
      ensures ActiveUser().Some? && outcome.Success? ==> answer == (ServerIds(table, ActiveUser().value), Server)
    {
      match ActiveUser()
      case None => ({}, Empty)
      case Some(u) => if outcome.Failure? then (LoadFavoritesCache(u), Cache) else (ServerIds(table, u), Server)
    }

    /** `fetchFavoriteIds()`: the server wins and overwrites the cache; on a
        server error the cache is the answer and stays as it was. */
    method FetchFavoriteIds(outcome: Outcome) returns (userId: Option<string>, ids: set<string>, source: Source)
      modifies this
      ensures userId == old(ActiveUser())
      ensures (ids, source) == old(IdsAnswer(outcome))
      ensures table == old(table) && authUser == old(authUser)
      ensures userId.Some? && outcome.Success? ==> cache == old(cache)[CacheKey(userId.value) := Json(ids)]
      ensures userId.None? || outcome.Failure? ==> cache == old(cache)
    {
      userId := ActiveUser();
      if userId.None? {
        return None, {}, Empty;
      }
      var u := userId.value;
      if outcome.Failure? {
        ids := LoadFavoritesCache(u);
        return userId, ids, Cache;
      }
      ids := ServerIds(table, u);
      SaveFavoritesCache(u, ids);
      source := Server;
    }

    /** `fetchFavoriteRows()`: the user's rows from the server, none when
        signed out or on a server error. */
    method FetchFavoriteRows(outcome: Outcome) returns (userId: Option<string>, rows: Table, source: Source)
      ensures userId == ActiveUser()
      ensures userId.Some? && outcome.Success? ==> rows == RowsOf(table, userId.value) && source == Server
      ensures userId.None? || outcome.Failure? ==> rows == [] && source == Empty
      ensures forall i :: 0 <= i < |rows| ==> rows[i] in table && rows[i].userId == userId.value
    {
      userId := ActiveUser();
      if userId.None? {
        return None, [], Empty;
      }
      if outcome.Failure? {
        return userId, [], Empty;
      }
      rows := RowsOf(table, userId.value);
      source := Server;
    }

    /** What `addFavorite` does: nothing without a user; otherwise the place
        is added to the cache, upserted remotely, and on a remote error
        deleted from the cache again. */
    twostate predicate AddEffect(place: Place, outcome: Outcome, res: Reply)
      reads this
    {
      && authUser == old(authUser)
      && match old(ActiveUser())
        case None => res == Reply(false, Some(NotAuthenticated)) && cache == old(cache) && table == old(table)
        case Some(u) =>
          match outcome
          case Success =>
            && res == Reply(true, None)
            && cache == old(cache)[CacheKey(u) := Json(old(LoadFavoritesCache(u)) + {place.id})]
            && table == Upsert(old(table), Payload(u, place))
          case Failure(msg) =>
            && res == Reply(false, Some(msg))
            && cache == old(cache)[CacheKey(u) := Json(old(LoadFavoritesCache(u)) - {place.id})]
            && table == old(table)
    }

    /** What `removeFavorite` does: nothing without a user; otherwise the id
        leaves the cache, the row is deleted remotely, and on a remote error
        the id is added to the cache again. */
    twostate predicate RemoveEffect(placeId: string, outcome: Outcome, res: Reply)
      reads this
    {
      && authUser == old(authUser)
      && match old(ActiveUser())
        case None => res == Reply(false, Some(NotAuthenticated)) && cache == old(cache) && table == old(table)
        case Some(u) =>
          match outcome
          case Success =>
            && res == Reply(true, None)
            && cache == old(cache)[CacheKey(u) := Json(old(LoadFavoritesCache(u)) - {placeId})]
            && table == DeleteRows(old(table), u, placeId)
          case Failure(msg) =>
            && res == Reply(false, Some(msg))
            && cache == old(cache)[CacheKey(u) := Json(old(LoadFavoritesCache(u)) + {placeId})]
            && table == old(table)
    }

    /** `addFavorite(place)` */
    method AddFavorite(place: Place, outcome: Outcome) returns (res: Reply)
      modifies this
      ensures AddEffect(place, outcome, res)
      ensures res.ok <==> old(ActiveUser()).Some? && outcome.Success?
      ensures old(Valid()) ==> Valid()
      ensures var u := old(ActiveUser());
        u.Some? && outcome.Failure? ==>
          (LoadFavoritesCache(u.value) == old(LoadFavoritesCache(u.value)) <==> place.id !in old(LoadFavoritesCache(u.value)))
    {
      var userId := ActiveUser();
      if userId.None? {
        return Reply(false, Some(NotAuthenticated));
      }
      var u := userId.value;
      var cached := LoadFavoritesCache(u);
      cached := cached + {place.id};
      SaveFavoritesCache(u, cached);
      var payload := Payload(u, place);
      if outcome.Success? {
        if UniqueRows(table) {
          UpsertEffect(table, payload, u);
        }
        table := Upsert(table, payload);
        return Reply(true, None);
      }
      var rollback := LoadFavoritesCache(u);
      assert rollback - {place.id} == old(LoadFavoritesCache(u)) - {place.id};
      rollback := rollback - {place.id};
      AddRollbackExact(old(LoadFavoritesCache(u)), place.id);
      SaveFavoritesCache(u, rollback);
      res := Reply(false, Some(outcome.message));
    }

    /** `removeFavorite(placeId)` */
    method RemoveFavorite(placeId: string, outcome: Outcome) returns (res: Reply)
      modifies this
      ensures RemoveEffect(placeId, outcome, res)
      ensures res.ok <==> old(ActiveUser()).Some? && outcome.Success?
      ensures old(Valid()) ==> Valid()
      ensures var u := old(ActiveUser());
        u.Some? && outcome.Failure? ==>
          (LoadFavoritesCache(u.value) == old(LoadFavoritesCache(u.value)) <==> placeId in old(LoadFavoritesCache(u.value)))
    {
      var userId := ActiveUser();
      if userId.None? {
        return Reply(false, Some(NotAuthenticated));
      }
      var u := userId.value;
      var cached := LoadFavoritesCache(u);
      cached := cached - {placeId};
      SaveFavoritesCache(u, cached);
      if outcome.Success? {
        if UniqueRows(table) {
          DeleteEffect(table, u, placeId, u);
        }
        table := DeleteRows(table, u, placeId);
        return Reply(true, None);
      }
      var rollback := LoadFavoritesCache(u);
      assert rollback + {placeId} == old(LoadFavoritesCache(u)) + {placeId};
      rollback := rollback + {placeId};
      RemoveRollbackExact(old(LoadFavoritesCache(u)), placeId);
      SaveFavoritesCache(u, rollback);
      res := Reply(false, Some(outcome.message));
    }

    /** `toggleFavorite(place, isCurrentlyFavorite)`: a remove exactly when
        the caller believes the place is a favourite, an add otherwise. */
    method ToggleFavorite(place: Place, isCurrentlyFavorite: bool, outcome: Outcome) returns (res: Reply)
      modifies this
      ensures isCurrentlyFavorite ==> RemoveEffect(place.id, outcome, res)
      ensures !isCurrentlyFavorite ==> AddEffect(place, outcome, res)
      ensures res.ok <==> old(ActiveUser()).Some? && outcome.Success?
      ensures old(Valid()) ==> Valid()
    {
      if isCurrentlyFavorite {
        res := RemoveFavorite(place.id, outcome);
      } else {
        res := AddFavorite(place, outcome);
      }
    }
  }

  /** The add rollback deletes unconditionally, so the cache comes back as
      it was exactly when the place was not cached before the call. */
  lemma AddRollbackExact(before: set<string>, id: string)
    ensures (before + {id}) - {id} == before <==> id !in before
  {
    if id in before {
      assert id !in (before + {id}) - {id};
    }
  }

  /** The remove rollback adds unconditionally, so the cache comes back as
      it was exactly when the place was cached before the call. */
  lemma RemoveRollbackExact(before: set<string>, id: string)
    ensures (before - {id}) + {id} == before <==> id in before
  {
    if id !in before {
      assert id in (before - {id}) + {id};
    }
  }
}
