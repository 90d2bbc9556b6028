/** `addFavorite` and `removeFavorite`: a user's favorite recipes kept as a
    list without duplicates. */
module Favorites {
  import opened Wrappers
  import opened UserModel

  datatype FavoriteReply =
    | FavoritesJson(favorites: seq<ObjectId>)   // 200, with the updated list
    | MealNotFound                              // 404, the recipe does not exist
    | NotInFavorites                            // 404, nothing to remove
    | ServerError                               // 500, the requesting user does not exist
  {
    function Status(): int {
      match this
      case FavoritesJson(_) => 200
      case MealNotFound => 404
      case NotInFavorites => 404
      case ServerError => 500
    }
  }

  /** `Array.prototype.indexOf`: the first position of x, or -1. */
  function IndexOf(s: seq<ObjectId>, x: ObjectId): (i: int)
    ensures -1 <= i < |s|
    ensures i == -1 <==> x !in s
    ensures i >= 0 ==> s[i] == x && x !in s[..i]
  {
    if s == [] then -1
    else if s[0] == x then 0
    else
      var j := IndexOf(s[1..], x);
      if j == -1 then -1
      else
        assert s[..j + 1] == [s[0]] + s[1..][..j];
        j + 1
  }

  /** The list after `if (!favorites.includes(id)) favorites.push(id)`. */
  function WithFavorite(favs: seq<ObjectId>, mealId: ObjectId): (r: seq<ObjectId>)
    ensures mealId in r
    ensures |favs| <= |r| <= |favs| + 1 && r[..|favs|] == favs
    ensures forall x :: x in r ==> x in favs || x == mealId
  {
    if mealId in favs then favs else favs + [mealId]
  }

  /** The list after `favorites.splice(favorites.indexOf(id), 1)`. */
  function WithoutFavorite(favs: seq<ObjectId>, mealId: ObjectId): (r: seq<ObjectId>)
    requires mealId in favs
    ensures |r| == |favs| - 1
    ensures multiset(r) == multiset(favs) - multiset{mealId}
  {
    var i := IndexOf(favs, mealId);
    RemoveAt(favs, i);
    favs[..i] + favs[i + 1..]
  }

  predicate NoDuplicates(s: seq<ObjectId>) {
    forall i, j :: 0 <= i < j < |s| ==> s[i] != s[j]
  }

  /** Adding puts an absent id at the end, leaves a present one where it is,
      and is idempotent. */
  lemma AddProperties(favs: seq<ObjectId>, mealId: ObjectId)
    ensures mealId in WithFavorite(favs, mealId)
    ensures mealId !in favs ==> WithFavorite(favs, mealId) == favs + [mealId]
    ensures mealId in favs ==> WithFavorite(favs, mealId) == favs
    ensures WithFavorite(WithFavorite(favs, mealId), mealId) == WithFavorite(favs, mealId)
  {
  }

  /** Adding never introduces a duplicate. */
  lemma AddKeepsNoDuplicates(favs: seq<ObjectId>, mealId: ObjectId)
    requires NoDuplicates(favs)
    ensures NoDuplicates(WithFavorite(favs, mealId))
  {
    if mealId !in favs {
      var t := favs + [mealId];
      forall i, j | 0 <= i < j < |t| ensures t[i] != t[j] {
        if j == |favs| { assert t[i] == favs[i]; } else { assert t[i] == favs[i] && t[j] == favs[j]; }
      }
    }
  }

  /** Removing takes out exactly the first occurrence and keeps the rest in order. */
  lemma RemoveProperties(favs: seq<ObjectId>, mealId: ObjectId)
    requires mealId in favs
    ensures var r := WithoutFavorite(favs, mealId); var i := IndexOf(favs, mealId);
      && |r| == |favs| - 1
      && (forall k :: 0 <= k < i ==> r[k] == favs[k])
      && (forall k :: i <= k < |r| ==> r[k] == favs[k + 1])
      && multiset(r) == multiset(favs) - multiset{mealId}
  {
    RemoveAt(favs, IndexOf(favs, mealId));
  }

  /** Cutting the entry at index i out of a list. */
  lemma RemoveAt(s: seq<ObjectId>, i: nat)
    requires i < |s|
    ensures var r := s[..i] + s[i + 1..];
      && |r| == |s| - 1
      && (forall k :: 0 <= k < i ==> r[k] == s[k])
      && (forall k :: i <= k < |r| ==> r[k] == s[k + 1])
      && multiset(r) == multiset(s) - multiset{s[i]}
  {
    assert s == s[..i] + [s[i]] + s[i + 1..];
  }

  /** In a list without duplicates, removing leaves no occurrence behind. */
  lemma RemoveLeavesNone(favs: seq<ObjectId>, mealId: ObjectId)
    requires mealId in favs && NoDuplicates(favs)
    ensures mealId !in WithoutFavorite(favs, mealId)
  {
    var i := IndexOf(favs, mealId);
    var r := WithoutFavorite(favs, mealId);
    forall k | 0 <= k < |r| ensures r[k] != mealId {
      if k < i { assert r[k] == favs[k]; } else { assert r[k] == favs[k + 1]; }
    }
  }

  /** Adding an id that was absent and then removing it restores the list. */
  lemma AddThenRemove(favs: seq<ObjectId>, mealId: ObjectId)
    requires mealId !in favs
    ensures WithoutFavorite(WithFavorite(favs, mealId), mealId) == favs
  {
    var t := favs + [mealId];
    assert t[..|favs|] == favs;
    assert mealId !in t[..|favs|];
    assert IndexOf(t, mealId) == |favs|;
  }

  /** `addFavorite`. The requester is looked up first, the recipe second: a
      missing recipe is a 404 even for a missing requester, who otherwise
      makes `user.favorites` throw. */
  method AddFavorite(store: UserStore, requester: ObjectId, mealId: ObjectId, mealIds: set<ObjectId>)
    returns (r: FavoriteReply)
    requires store.Valid()
    modifies store
    ensures store.Valid() && store.nextId == old(store.nextId)
    ensures mealId !in mealIds ==> r == MealNotFound && store.users == old(store.users)
    ensures mealId in mealIds && FindById(old(store.users), requester).None? ==>
      r == ServerError && store.users == old(store.users)
    ensures mealId in mealIds && FindById(old(store.users), requester).Some? ==>
      var i := FindById(old(store.users), requester).value;
      var u := old(store.users)[i];
      var favs := WithFavorite(u.favorites, mealId);
      r == FavoritesJson(favs) && store.users == old(store.users)[i := u.(favorites := favs)]
  {
    var found := FindById(store.users, requester);
    if mealId !in mealIds {
      return MealNotFound;
    }
    if found.None? {
      return ServerError;
    }
    var i := found.value;
    var user := store.users[i];
    if mealId !in user.favorites {
      user := user.(favorites := user.favorites + [mealId]);
      store.users := store.users[i := user];
    }
    r := FavoritesJson(user.favorites);
  }

  /** `removeFavorite`. */
  method RemoveFavorite(store: UserStore, requester: ObjectId, mealId: ObjectId) returns (r: FavoriteReply)
    requires store.Valid()
    modifies store
    ensures store.Valid() && store.nextId == old(store.nextId)
    ensures FindById(old(store.users), requester).None? ==>
      r == ServerError && store.users == old(store.users)
    ensures FindById(old(store.users), requester).Some? ==>
      var i := FindById(old(store.users), requester).value;
      var u := old(store.users)[i];
      if mealId !in u.favorites then r == NotInFavorites && store.users == old(store.users)
      else
        var favs := WithoutFavorite(u.favorites, mealId);
        r == FavoritesJson(favs) && store.users == old(store.users)[i := u.(favorites := favs)]
  {
    var found := FindById(store.users, requester);
    if found.None? {
      return ServerError;
    }
    var i := found.value;
    var user := store.users[i];
    var index := IndexOf(user.favorites, mealId);
    if index == -1 {
      return NotInFavorites;
    }
    user := user.(favorites := user.favorites[..index] + user.favorites[index + 1..]);
    store.users := store.users[i := user];
    r := FavoritesJson(user.favorites);
  }
}
