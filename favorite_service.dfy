// Favourites: the restaurants a user has marked, one row per (user,
// restaurant) pair, added, removed, tested and listed newest first.

module FavoriteService {
  import opened Common
  import opened JavaText
  import opened Query
  import opened Entities

  // ---------------------------------------------------------------- messages

  const NoUserId: string := "User ID cannot be empty"
  const Retrieved: string := "Retrieved successfully"

  /** `user_id = ? AND restaurant_id = ?`. */
  function PairCondition(userId: int, restaurantId: int): Favorite -> bool {
    (f: Favorite) => f.userId == userId && f.restaurantId == restaurantId
  }

  /** The (user, restaurant) pairs the table holds. */
  function Pairs(favorites: seq<Favorite>): set<(int, int)> {
    set f | f in favorites :: (f.userId, f.restaurantId)
  }

  /** The pair set of a single favourite. */
  function PairOf(userId: int, restaurantId: int): set<(int, int)> {
    {(userId, restaurantId)}
  }

  /** No pair is stored twice. */
  predicate OnePerPair(favorites: seq<Favorite>) {
    forall i, j :: 0 <= i < j < |favorites| ==>
      favorites[i].userId != favorites[j].userId || favorites[i].restaurantId != favorites[j].restaurantId
  }

  /** With one row per pair, a present pair is matched by exactly one row. */
  lemma {:induction false} OnePerPairCountsOne(favorites: seq<Favorite>, userId: int, restaurantId: int)
    requires OnePerPair(favorites)
    ensures CountWhere(favorites, PairCondition(userId, restaurantId)) <= 1
  {
    if favorites != [] {
      var p := PairCondition(userId, restaurantId);
      var rest := favorites[1..];
      assert OnePerPair(rest);
      OnePerPairCountsOne(rest, userId, restaurantId);
      if p(favorites[0]) {
        forall x | x in rest ensures !p(x) {
          var i :| 0 <= i < |rest| && rest[i] == x;
          assert favorites[i + 1] == x;
        }
        CountNoMatch(rest, p);
      }
    }
  }

  // ---------------------------------------------------------------- adding and removing

  /** The data addFavorite answers with. */
  datatype Added = Added(restaurantId: int, createdAt: int)

  /** addFavorite: both ids required and the restaurant must exist (400);
    * a stored pair is refused with "Already favorited"; otherwise one row
    * is inserted, stamped now. */
  function AddFavorite(favorites: seq<Favorite>, restaurants: seq<Restaurant>, nextId: int,
                       restaurantId: Option<int>, userId: Option<int>, now: int): (Response<Added>, seq<Favorite>)
  {
    if restaurantId.None? then (ValidateFailed("Restaurant ID cannot be empty"), favorites)
    else if userId.None? then (ValidateFailed(NoUserId), favorites)
    else if SelectById(restaurants, RestaurantId, restaurantId.value).None? then
      (ValidateFailed("Restaurant not found"), favorites)
    else
      match SelectOne(favorites, PairCondition(userId.value, restaurantId.value))
      case Throws(reason) => (Error(500, "Failed to add favorite: " + reason), favorites)
      case Value(Some(_)) => (ValidateFailed("Already favorited"), favorites)
      case Value(None) =>
        (SuccessWith(Some(Added(restaurantId.value, now)), "Added to favorites successfully"),
         favorites + [Favorite(nextId, restaurantId.value, userId.value, now)])
  }

  /** removeFavorite: both ids required; an absent pair is refused as not
    * favorited; otherwise every row of the pair is deleted. */
  function RemoveFavorite(favorites: seq<Favorite>, restaurantId: Option<int>, userId: Option<int>): (Response<Void>, seq<Favorite>) {
    if restaurantId.None? then (ValidateFailed("Restaurant ID cannot be empty"), favorites)
    else if userId.None? then (ValidateFailed(NoUserId), favorites)
    else
      var p := PairCondition(userId.value, restaurantId.value);
      match SelectOne(favorites, p)
      case Throws(reason) => (Error(500, "Failed to remove favorite: " + reason), favorites)
      case Value(None) => (ValidateFailed("Not favorited"), favorites)
      case Value(Some(_)) =>
        (SuccessWith(None, "Removed from favorites successfully"), Where(favorites, (f: Favorite) => !p(f)))
  }

  /** isFavorite: a null id is never a favourite; otherwise whether the
    * checkFavorite count is positive. */
  function IsFavorite(favorites: seq<Favorite>, userId: Option<int>, restaurantId: Option<int>): (b: bool)
    ensures b <==> userId.Some? && restaurantId.Some? && (userId.value, restaurantId.value) in Pairs(favorites)
  {
    if userId.None? || restaurantId.None? then false
    else
      var p := PairCondition(userId.value, restaurantId.value);
      CountIsWhereLength(favorites, p);
      assert Where(favorites, p) != [] ==> Where(favorites, p)[0] in Where(favorites, p);
      CountWhere(favorites, p) > 0
  }

  /** An add succeeds exactly for two ids, an existing restaurant and a pair
    * not yet stored; it then stores the pair, and otherwise changes nothing.
    * A stored pair is refused with 400 while pairs are unique. */
  lemma AddFavoriteOutcome(favorites: seq<Favorite>, restaurants: seq<Restaurant>, nextId: int,
                           restaurantId: Option<int>, userId: Option<int>, now: int)
    requires OnePerPair(favorites)
    ensures var (res, after) := AddFavorite(favorites, restaurants, nextId, restaurantId, userId, now);
      && (IsSuccess(res) <==>
            && restaurantId.Some? && userId.Some?
            && SelectById(restaurants, RestaurantId, restaurantId.value).Some?
            && !IsFavorite(favorites, userId, restaurantId))
      && (!IsSuccess(res) ==> res.code == Some(400) && after == favorites)
      && (IsSuccess(res) ==>
            && after == favorites + [Favorite(nextId, restaurantId.value, userId.value, now)]
            && IsFavorite(after, userId, restaurantId)
            && Pairs(after) == Pairs(favorites) + PairOf(userId.value, restaurantId.value))
  {
    if restaurantId.Some? && userId.Some? {
      OnePerPairCountsOne(favorites, userId.value, restaurantId.value);
      var (res, after) := AddFavorite(favorites, restaurants, nextId, restaurantId, userId, now);
      if IsSuccess(res) {
        var f := Favorite(nextId, restaurantId.value, userId.value, now);
        assert f in after;
        assert forall x :: x in after <==> x in favorites || x == f;
      }
    }
  }

  /** A remove succeeds exactly for two ids naming a stored pair; it then
    * drops that pair and keeps every other row, and otherwise changes
    * nothing. */
  lemma RemoveFavoriteOutcome(favorites: seq<Favorite>, restaurantId: Option<int>, userId: Option<int>)
    requires OnePerPair(favorites)
    ensures var (res, after) := RemoveFavorite(favorites, restaurantId, userId);
      && (IsSuccess(res) <==> IsFavorite(favorites, userId, restaurantId))
      && (!IsSuccess(res) ==> res.code == Some(400) && after == favorites)
      && (IsSuccess(res) ==>
            && !IsFavorite(after, userId, restaurantId)
            && (forall f :: f in after <==> f in favorites && (f.userId, f.restaurantId) != (userId.value, restaurantId.value))
            && Pairs(after) == Pairs(favorites) - PairOf(userId.value, restaurantId.value))
  {
    if restaurantId.Some? && userId.Some? {
      OnePerPairCountsOne(favorites, userId.value, restaurantId.value);
    }
  }

  /** Adding a pair and removing it again restores the table. */
  lemma AddRemoveRoundTrip(favorites: seq<Favorite>, restaurants: seq<Restaurant>, nextId: int,
                           restaurantId: int, userId: int, now: int)
    requires IsSuccess(AddFavorite(favorites, restaurants, nextId, Some(restaurantId), Some(userId), now).0)
    ensures var after := AddFavorite(favorites, restaurants, nextId, Some(restaurantId), Some(userId), now).1;
      RemoveFavorite(after, Some(restaurantId), Some(userId)).1 == favorites
  {
    var p := PairCondition(userId, restaurantId);
    var f := Favorite(nextId, restaurantId, userId, now);
    var keep := (x: Favorite) => !p(x);
    assert SelectOne(favorites, p) == Value(None);
    assert SelectOne(favorites + [f], p) == Value(Some(f)) by {
      WhereConcat(favorites, [f], p);
      WhereKeepsAll(favorites, keep);
      WhereNone(favorites, p);
      assert Where([f], p) == [f];
    }
    WhereConcat(favorites, [f], keep);
    WhereKeepsAll(favorites, keep);
    assert Where([f], keep) == [];
  }

  lemma WhereNone(rows: seq<Favorite>, p: Favorite -> bool)
    requires forall x :: x in rows ==> !p(x)
    ensures Where(rows, p) == []
  {
  }

  /** Adding keeps one row per pair. */
  lemma AddKeepsOnePerPair(favorites: seq<Favorite>, restaurants: seq<Restaurant>, nextId: int,
                           restaurantId: Option<int>, userId: Option<int>, now: int)
    requires OnePerPair(favorites)
    ensures OnePerPair(AddFavorite(favorites, restaurants, nextId, restaurantId, userId, now).1)
  {
    var after := AddFavorite(favorites, restaurants, nextId, restaurantId, userId, now).1;
    if after != favorites {
      forall i, j | 0 <= i < j < |after|
        ensures after[i].userId != after[j].userId || after[i].restaurantId != after[j].restaurantId
      {
        if j == |favorites| {
          assert favorites[i] in favorites;
        }
      }
    }
  }

  /** Removing keeps one row per pair and ids unique. */
  lemma {:induction false} WhereKeepsInvariants(favorites: seq<Favorite>, p: Favorite -> bool)
    requires UniqueIds(favorites, FavoriteId) && OnePerPair(favorites)
    ensures UniqueIds(Where(favorites, p), FavoriteId) && OnePerPair(Where(favorites, p))
  {
    if favorites != [] {
      var rest := favorites[1..];
      assert UniqueIds(rest, FavoriteId) && OnePerPair(rest);
      WhereKeepsInvariants(rest, p);
      var w := Where(rest, p);
      forall x | x in w
        ensures x.id != favorites[0].id
        ensures x.userId != favorites[0].userId || x.restaurantId != favorites[0].restaurantId
      {
        var i :| 0 <= i < |rest| && rest[i] == x;
        assert favorites[i + 1] == x;
      }
      if p(favorites[0]) {
        var r := [favorites[0]] + w;
        forall i, j | 0 <= i < j < |r|
          ensures r[i].id != r[j].id
          ensures r[i].userId != r[j].userId || r[i].restaurantId != r[j].restaurantId
        {
          assert r[j] == w[j - 1] && w[j - 1] in w;
          if i > 0 {
            assert r[i] == w[i - 1];
          }
        }
      }
    }
  }

  // ---------------------------------------------------------------- the list

  /** FavoriteRestaurantVO without its average rating. */
  datatype FavoriteView = FavoriteView(
    restaurantId: int, restaurantName: string, description: Option<string>, address: string,
    photos: seq<string>, cuisine: Option<string>, createdAt: int)

  datatype FavoriteListing = FavoriteListing(total: int, list: seq<Option<FavoriteView>>)

  function FavoriteCreatedAt(f: Favorite): int { f.createdAt }

  /** The list entry of a favourite: its restaurant's view, or null when the
    * restaurant is gone. */
  function Entry(f: Favorite, restaurants: seq<Restaurant>): Option<FavoriteView> {
    match SelectById(restaurants, RestaurantId, f.restaurantId)
    case None => None
    case Some(r) => Some(FavoriteView(r.id, r.name, r.description, r.address, PipeList(r.photos), r.cuisine, f.createdAt))
  }

  /** `user_id = userId`. */
  function OfUser(userId: int): Favorite -> bool {
    (f: Favorite) => f.userId == userId
  }

  /** getFavoriteList: every favourite of the user, newest first, with a
    * total of 0, since selectPage runs without the pagination interceptor
    * (page and pageSize reach only the unused Page); an entry is null
    * exactly when its restaurant no longer exists. */
  method GetFavoriteList(favorites: seq<Favorite>, restaurants: seq<Restaurant>,
                         page: Option<int>, pageSize: Option<int>, userId: Option<int>)
    returns (res: Response<FavoriteListing>)
    ensures userId.None? ==> res == ValidateFailed(NoUserId)
    ensures userId.Some? ==>
      var rows := SelectPageUnintercepted(favorites, OfUser(userId.value), FavoriteCreatedAt).records;
      && IsSuccess(res) && res.message == Retrieved && res.data.Some?
      && res.data.value.total == 0
      && |res.data.value.list| == |rows| && |rows| == CountWhere(favorites, OfUser(userId.value))
      && (forall i :: 0 <= i < |rows| ==> res.data.value.list[i] == Entry(rows[i], restaurants))
      && (forall i, j :: 0 <= i < j < |res.data.value.list| && res.data.value.list[i].Some? && res.data.value.list[j].Some? ==>
            res.data.value.list[i].value.createdAt >= res.data.value.list[j].value.createdAt)
      && (forall f :: f in favorites && f.userId == userId.value ==> Entry(f, restaurants) in res.data.value.list)
      && forall e :: e in res.data.value.list ==>
           exists f :: f in favorites && f.userId == userId.value && e == Entry(f, restaurants)
                       && (e.None? <==> SelectById(restaurants, RestaurantId, f.restaurantId).None?)
  {
    if userId.None? {
      return ValidateFailed(NoUserId);
    }
    var mine := OfUser(userId.value);
    var selected := SelectPageUnintercepted(favorites, mine, FavoriteCreatedAt);
    var rows := selected.records;
    var entries := ConvertAll(rows, (f: Favorite) => Entry(f, restaurants));
    EntriesOfPage(favorites, restaurants, userId.value, rows, entries);
    res := SuccessWith(Some(FavoriteListing(selected.total, entries)), Retrieved);
  }

  /** The entries of the user's favourites, one per row: newest first when
    * the rows are, each the entry of one of the user's rows, and every such
    * row's entry present. */
  lemma EntriesOfPage(favorites: seq<Favorite>, restaurants: seq<Restaurant>, userId: int,
                      rows: seq<Favorite>, entries: seq<Option<FavoriteView>>)
    requires forall f :: f in rows <==> f in favorites && f.userId == userId
    requires forall i, j :: 0 <= i < j < |rows| ==> rows[i].createdAt >= rows[j].createdAt
    requires |entries| == |rows| && forall i :: 0 <= i < |rows| ==> entries[i] == Entry(rows[i], restaurants)
    ensures forall i, j :: 0 <= i < j < |entries| && entries[i].Some? && entries[j].Some? ==>
      entries[i].value.createdAt >= entries[j].value.createdAt
    ensures forall e :: e in entries ==>
      exists f :: f in favorites && f.userId == userId && e == Entry(f, restaurants)
                  && (e.None? <==> SelectById(restaurants, RestaurantId, f.restaurantId).None?)
    ensures forall f :: f in favorites && f.userId == userId ==> Entry(f, restaurants) in entries
  {
    forall e | e in entries
      ensures exists f :: f in favorites && f.userId == userId && e == Entry(f, restaurants)
                          && (e.None? <==> SelectById(restaurants, RestaurantId, f.restaurantId).None?)
    {
      var i :| 0 <= i < |entries| && entries[i] == e;
      assert rows[i] in rows;
    }
    forall f | f in favorites && f.userId == userId
      ensures Entry(f, restaurants) in entries
    {
      var i :| 0 <= i < |rows| && rows[i] == f;
      assert entries[i] == Entry(f, restaurants);
    }
    assert forall i :: 0 <= i < |entries| && entries[i].Some? ==> entries[i].value.createdAt == rows[i].createdAt;
  }

  // ---------------------------------------------------------------- the store

  /** The favourites table, written in place. */
  class FavoriteStore {
    var favorites: seq<Favorite>
    var nextId: int

    ghost predicate Valid()
      reads this
    {
      UniqueIds(favorites, FavoriteId) && OnePerPair(favorites) && forall f :: f in favorites ==> f.id < nextId
    }

    constructor()
      ensures Valid() && favorites == [] && nextId == 1
    {
      favorites := [];
      nextId := 1;
    }

    method Add(restaurants: seq<Restaurant>, restaurantId: Option<int>, userId: Option<int>, now: int)
      returns (res: Response<Added>)
      requires Valid()
      modifies this
      ensures Valid()
      ensures (res, favorites) == AddFavorite(old(favorites), restaurants, old(nextId), restaurantId, userId, now)
    {
      AddKeepsOnePerPair(favorites, restaurants, nextId, restaurantId, userId, now);
      var (r, after) := AddFavorite(favorites, restaurants, nextId, restaurantId, userId, now);
      if after != favorites {
        forall i, j | 0 <= i < j < |after| ensures after[i].id != after[j].id {
          if j == |favorites| {
            assert favorites[i] in favorites;
          }
        }
        nextId := nextId + 1;
      }
      favorites := after;
      res := r;
    }

    method Remove(restaurantId: Option<int>, userId: Option<int>) returns (res: Response<Void>)
      requires Valid()
      modifies this
      ensures Valid() && nextId == old(nextId)
      ensures (res, favorites) == RemoveFavorite(old(favorites), restaurantId, userId)
    {
      var (r, after) := RemoveFavorite(favorites, restaurantId, userId);
      if restaurantId.Some? && userId.Some? {
        var p := PairCondition(userId.value, restaurantId.value);
        WhereKeepsInvariants(favorites, (f: Favorite) => !p(f));
      }
      favorites := after;
      res := r;
    }
  }
}
