/** The recipe controller: creating, updating and deleting recipes under an
    owner check, likes and dislikes, and adding and deleting comments. */
module Recipes {
  import opened Wrappers
  import opened JsText
  import opened MealModel

  /** What a handler answers. */
  datatype Reply =
    | MealJson(meal: Meal)                  // 200, the recipe document
    | Created(id: ObjectId, meal: Meal)     // 201, the new recipe
    | CommentCreated(comment: Comment)      // 201, the comment just added
    | Done                                  // 200, a confirmation message
    | BadRequest                            // 400, comment content missing or too long
    | RecipeNotFound                        // 404
    | CommentNotFound                       // 404
    | Forbidden                             // 403, the requester is not the owner / author
    | ServerError                           // 500, a thrown error (validation, missing field)
  {
    function Status(): int {
      match this
      case MealJson(_) => 200
      case Created(_, _) => 201
      case CommentCreated(_) => 201
      case Done => 200
      case BadRequest => 400
      case RecipeNotFound => 404
      case CommentNotFound => 404
      case Forbidden => 403
      case ServerError => 500
    }
  }

  // ---------------------------------------------------------------- owner check

  /** `recipe.createdBy?.toString() === req.user.id`: only a recipe with an
      owner, and only that owner, may be changed. */
  predicate IsOwner(m: Meal, user: ObjectId)
    ensures IsOwner(m, user) ==> m.createdBy.Some?
  {
    m.createdBy == Some(user)
  }

  /** A recipe whose `createdBy` is null has no owner at all. */
  lemma OwnerlessIsLocked(m: Meal)
    requires m.createdBy.None?
    ensures forall user: ObjectId :: !IsOwner(m, user)
  {
  }

  // ---------------------------------------------------------------- reactions

  /** `list.filter(id => id.toString() !== user)`. */
  function Without(s: seq<ObjectId>, user: ObjectId): (r: seq<ObjectId>)
    ensures |r| <= |s| && user !in r
  {
    if s == [] then []
    else (if s[0] == user then [] else [s[0]]) + Without(s[1..], user)
  }

  predicate NoDuplicates(s: seq<ObjectId>) {
    forall i, j :: 0 <= i < j < |s| ==> s[i] != s[j]
  }

  predicate Disjoint(a: seq<ObjectId>, b: seq<ObjectId>) {
    forall x :: x in a ==> x !in b
  }

  /** The reaction invariant: nobody likes or dislikes twice, and nobody does both. */
  predicate ReactionsValid(m: Meal) {
    NoDuplicates(m.likes) && NoDuplicates(m.dislikes) && Disjoint(m.likes, m.dislikes)
  }

  /** What `likeRecipe` does to the document before saving it. */
  function Liked(m: Meal, user: ObjectId): (r: Meal)
    ensures user in r.likes
    ensures user !in m.likes ==> user !in r.dislikes
    ensures r.(likes := m.likes, dislikes := m.dislikes) == m
  {
    if user in m.likes then m
    else m.(likes := m.likes + [user], dislikes := Without(m.dislikes, user))
  }

  /** What `dislikeRecipe` does to the document before saving it. */
  function Disliked(m: Meal, user: ObjectId): (r: Meal)
    ensures user in r.dislikes
    ensures user !in m.dislikes ==> user !in r.likes
    ensures r.(likes := m.likes, dislikes := m.dislikes) == m
  {
    if user in m.dislikes then m
    else m.(dislikes := m.dislikes + [user], likes := Without(m.likes, user))
  }

  /** One step of the filter. */
  lemma WithoutCons(x: ObjectId, s: seq<ObjectId>, user: ObjectId)
    ensures Without([x] + s, user) == (if x == user then [] else [x]) + Without(s, user)
  {
    assert ([x] + s)[1..] == s;
  }

  /** Filtering removes every occurrence of the user and keeps every other
      entry as many times as it occurred. */
  lemma {:induction false} WithoutCounts(s: seq<ObjectId>, user: ObjectId)
    ensures multiset(Without(s, user)) == multiset(s)[user := 0]
  {
    if s != [] {
      var x, rest := s[0], s[1..];
      WithoutCounts(rest, user);
      assert s == [x] + rest;
      WithoutCons(x, rest, user);
      assert multiset(s) == multiset{x} + multiset(rest);
    }
  }

  /** Membership after filtering. */
  lemma WithoutMembers(s: seq<ObjectId>, user: ObjectId)
    ensures forall x :: x in Without(s, user) <==> x in s && x != user
  {
    WithoutCounts(s, user);
    forall x ensures x in Without(s, user) <==> x in s && x != user {
      assert x in Without(s, user) <==> x in multiset(Without(s, user));
      assert x in s <==> x in multiset(s);
    }
  }

  /** Filtering works piecewise, so the entries it keeps stay in their order. */
  lemma {:induction false} WithoutAppend(a: seq<ObjectId>, b: seq<ObjectId>, user: ObjectId)
    ensures Without(a + b, user) == Without(a, user) + Without(b, user)
  {
    if a == [] {
      assert a + b == b;
    } else {
      var x, rest := a[0], a[1..];
      var p := if x == user then [] else [x];
      assert a == [x] + rest;
      calc {
        Without(a + b, user);
        { assert a + b == [x] + (rest + b); }
        Without([x] + (rest + b), user);
        { WithoutCons(x, rest + b, user); }
        p + Without(rest + b, user);
        { WithoutAppend(rest, b, user); }
        p + (Without(rest, user) + Without(b, user));
        (p + Without(rest, user)) + Without(b, user);
        { WithoutCons(x, rest, user); }
        Without(a, user) + Without(b, user);
      }
    }
  }

  /** Filtering out a user who is not in the list changes nothing. */
  lemma {:induction false} WithoutAbsent(s: seq<ObjectId>, user: ObjectId)
    requires user !in s
    ensures Without(s, user) == s
  {
    if s != [] {
      WithoutAbsent(s[1..], user);
      assert s == [s[0]] + s[1..];
    }
  }

  /** Filtering never introduces a duplicate. */
  lemma {:induction false} WithoutNoDuplicates(s: seq<ObjectId>, user: ObjectId)
    requires NoDuplicates(s)
    ensures NoDuplicates(Without(s, user))
  {
    if s != [] {
      WithoutNoDuplicates(s[1..], user);
      WithoutMembers(s[1..], user);
      var head: seq<ObjectId> := if s[0] == user then [] else [s[0]];
      var tail := Without(s[1..], user);
      assert s[0] !in s[1..] by {
        forall k | 0 <= k < |s[1..]| ensures s[1..][k] != s[0] { assert s[1..][k] == s[k + 1]; }
      }
      forall i, j | 0 <= i < j < |head + tail| ensures (head + tail)[i] != (head + tail)[j] {
        if i < |head| { assert (head + tail)[j] in tail; }
        else { assert (head + tail)[i] == tail[i - |head|] && (head + tail)[j] == tail[j - |head|]; }
      }
    }
  }

  /** Appending an absent user keeps a list free of duplicates. */
  lemma AppendFreshNoDuplicates(s: seq<ObjectId>, user: ObjectId)
    requires NoDuplicates(s) && user !in s
    ensures NoDuplicates(s + [user])
  {
    var t := s + [user];
    forall i, j | 0 <= i < j < |t| ensures t[i] != t[j] {
      if j == |s| { assert t[i] == s[i]; } else { assert t[i] == s[i] && t[j] == s[j]; }
    }
  }

  /** Liking keeps the reaction invariant. */
  lemma LikePreservesReactions(m: Meal, user: ObjectId)
    requires ReactionsValid(m)
    ensures ReactionsValid(Liked(m, user))
  {
    if user !in m.likes {
      AppendFreshNoDuplicates(m.likes, user);
      WithoutNoDuplicates(m.dislikes, user);
      WithoutMembers(m.dislikes, user);
    }
  }

  /** Disliking keeps the reaction invariant. */
  lemma DislikePreservesReactions(m: Meal, user: ObjectId)
    requires ReactionsValid(m)
    ensures ReactionsValid(Disliked(m, user))
  {
    if user !in m.dislikes {
      AppendFreshNoDuplicates(m.dislikes, user);
      WithoutNoDuplicates(m.likes, user);
      WithoutMembers(m.likes, user);
    }
  }

  /** A first like puts the user last in `likes`, takes every occurrence of
      them out of `dislikes`, keeps the other dislikes in order and touches
      nothing else; a repeated like changes nothing. */
  lemma LikeEffect(m: Meal, user: ObjectId)
    ensures user !in m.likes ==>
      && Liked(m, user).likes == m.likes + [user]
      && user !in Liked(m, user).dislikes
      && multiset(Liked(m, user).dislikes) == multiset(m.dislikes)[user := 0]
      && Liked(m, user).(likes := m.likes, dislikes := m.dislikes) == m
    ensures user in m.likes ==> Liked(m, user) == m
  {
    WithoutCounts(m.dislikes, user);
    WithoutMembers(m.dislikes, user);
  }

  /** The symmetric statement for a dislike. */
  lemma DislikeEffect(m: Meal, user: ObjectId)
    ensures user !in m.dislikes ==>
      && Disliked(m, user).dislikes == m.dislikes + [user]
      && user !in Disliked(m, user).likes
      && multiset(Disliked(m, user).likes) == multiset(m.likes)[user := 0]
      && Disliked(m, user).(likes := m.likes, dislikes := m.dislikes) == m
    ensures user in m.dislikes ==> Disliked(m, user) == m
  {
    WithoutCounts(m.likes, user);
    WithoutMembers(m.likes, user);
  }

  /** Liking is idempotent, and a dislike after a like moves the user from
      one list to the other (when the invariant held). */
  lemma LikeThenDislike(m: Meal, user: ObjectId)
    requires ReactionsValid(m)
    ensures Liked(Liked(m, user), user) == Liked(m, user)
    ensures var d := Disliked(Liked(m, user), user);
      user in d.dislikes && user !in d.likes
  {
    var l := Liked(m, user);
    LikePreservesReactions(m, user);
    assert user in l.likes;
    assert user !in l.dislikes;
    WithoutMembers(l.likes, user);
  }

  // ---------------------------------------------------------------- comments

  /** `recipe.comments.id(commentId)`: the first comment with that `_id`. */
  function FindComment(cs: seq<Comment>, commentId: ObjectId): (r: Option<nat>)
    ensures r.Some? ==> (r.value < |cs| && cs[r.value].id == commentId
      && forall k :: 0 <= k < r.value ==> cs[k].id != commentId)
    ensures r.None? ==> forall k :: 0 <= k < |cs| ==> cs[k].id != commentId
  {
    if cs == [] then None
    else if cs[0].id == commentId then Some(0)
    else match FindComment(cs[1..], commentId)
      case None => None
      case Some(i) => Some(i + 1)
  }

  /** `recipe.comments.pull(commentId)`: drops every comment with that `_id`. */
  function PullComment(cs: seq<Comment>, commentId: ObjectId): (r: seq<Comment>)
    ensures |r| <= |cs|
    ensures forall k :: 0 <= k < |r| ==> r[k].id != commentId
  {
    if cs == [] then []
    else (if cs[0].id == commentId then [] else [cs[0]]) + PullComment(cs[1..], commentId)
  }

  predicate DistinctCommentIds(cs: seq<Comment>) {
    forall i, j :: 0 <= i < j < |cs| ==> cs[i].id != cs[j].id
  }

  /** With distinct ids, pulling the comment at index i removes exactly that
      one and keeps the others in order. */
  lemma {:induction false} PullRemovesOnlyThat(cs: seq<Comment>, i: nat)
    requires i < |cs| && DistinctCommentIds(cs)
    ensures PullComment(cs, cs[i].id) == cs[..i] + cs[i + 1..]
  {
    if i == 0 {
      PullAbsent(cs[1..], cs[0].id);
      assert cs[..0] + cs[1..] == cs[1..];
    } else {
      PullRemovesOnlyThat(cs[1..], i - 1);
      assert cs[1..][i - 1] == cs[i];
      assert cs[1..][..i - 1] + cs[1..][i..] == cs[1..i] + cs[i + 1..];
      assert cs[..i] + cs[i + 1..] == [cs[0]] + (cs[1..i] + cs[i + 1..]);
    }
  }

  /** Pulling an id no comment has changes nothing. */
  lemma {:induction false} PullAbsent(cs: seq<Comment>, commentId: ObjectId)
    requires forall k :: 0 <= k < |cs| ==> cs[k].id != commentId
    ensures PullComment(cs, commentId) == cs
  {
    if cs != [] {
      PullAbsent(cs[1..], commentId);
      assert cs == [cs[0]] + cs[1..];
    }
  }

  /** The content check `!content || content.length > 1000`. */
  predicate CommentContentRejected(content: Option<string>) {
    !Truthy(content) || |content.value| > MaxCommentLength
  }

  /** The controller's check admits exactly the content the comment schema's
      validators admit. */
  lemma ContentCheckMatchesSchema(c: Comment)
    requires c.userId.Some? && Truthy(c.email)
    ensures !CommentContentRejected(c.content) <==> ValidComment(c)
  {
  }

  /** The boundary: 1000 characters are accepted, 1001 are not, "" is not. */
  lemma ContentBoundary(s: string)
    ensures |s| == 1000 ==> !CommentContentRejected(Some(s))
    ensures |s| == 1001 ==> CommentContentRejected(Some(s))
    ensures CommentContentRejected(Some("")) && CommentContentRejected(None)
  {
  }

  // ---------------------------------------------------------------- updates

  /** The top-level paths of a recipe that a request body can set. */
  datatype MealField =
    | IdMeal | StrMeal | StrDrinkAlternate | StrCategory | StrArea | StrInstructions
    | StrMealThumb | StrTags | StrYoutube | StrSource | Ingredients | SeasonalMonths
    | Comments | Likes | Dislikes | CreatedBy

  /** One path of an update: the body's value when the body provides the path. */
  function Pick<T>(f: MealField, fields: set<MealField>, provided: T, current: T): T {
    if f in fields then provided else current
  }

  /** `findByIdAndUpdate(id, body)`: each path the body provides is set to the
      body's value, every other path keeps its value. No validator runs. */
  function ApplyPatch(m: Meal, fields: set<MealField>, body: Meal): (r: Meal)
    ensures fields == {} ==> r == m
    ensures StrMeal !in fields ==> (ValidMeal(r) <==> ValidMeal(m))
    ensures CreatedBy !in fields ==> r.createdBy == m.createdBy
  {
    Meal(
      Pick(IdMeal, fields, body.idMeal, m.idMeal),
      Pick(StrMeal, fields, body.strMeal, m.strMeal),
      Pick(StrDrinkAlternate, fields, body.strDrinkAlternate, m.strDrinkAlternate),
      Pick(StrCategory, fields, body.strCategory, m.strCategory),
      Pick(StrArea, fields, body.strArea, m.strArea),
      Pick(StrInstructions, fields, body.strInstructions, m.strInstructions),
      Pick(StrMealThumb, fields, body.strMealThumb, m.strMealThumb),
      Pick(StrTags, fields, body.strTags, m.strTags),
      Pick(StrYoutube, fields, body.strYoutube, m.strYoutube),
      Pick(StrSource, fields, body.strSource, m.strSource),
      Pick(Ingredients, fields, body.ingredients, m.ingredients),
      Pick(SeasonalMonths, fields, body.seasonalMonths, m.seasonalMonths),
      Pick(Comments, fields, body.comments, m.comments),
      Pick(Likes, fields, body.likes, m.likes),
      Pick(Dislikes, fields, body.dislikes, m.dislikes),
      Pick(CreatedBy, fields, body.createdBy, m.createdBy))
  }

  /** An empty body is a no-op, applying a body twice is applying it once,
      and ownership only changes when the body sets `createdBy`. */
  lemma PatchProperties(m: Meal, fields: set<MealField>, body: Meal)
    ensures ApplyPatch(m, {}, body) == m
    ensures ApplyPatch(ApplyPatch(m, fields, body), fields, body) == ApplyPatch(m, fields, body)
    ensures CreatedBy !in fields ==> ApplyPatch(m, fields, body).createdBy == m.createdBy
  {
  }

  // ---------------------------------------------------------------- handlers

  /** `createRecipe`: the body's `createdBy` is replaced by the requester's id
      (or null without one); `save()` rejects a recipe without `strMeal`. */
  method CreateRecipe(store: MealStore, requester: Option<ObjectId>, body: Meal) returns (r: Reply)
    requires store.Valid()
    modifies store
    ensures store.Valid()
    ensures var m := body.(createdBy := requester);
      if ValidMeal(m) then
        && r == Created(old(store.nextId), m)
        && store.meals == old(store.meals)[old(store.nextId) := m]
        && store.nextId == old(store.nextId) + 1
      else
        r == ServerError && store.meals == old(store.meals) && store.nextId == old(store.nextId)
  {
    var m := body.(createdBy := requester);
    if !ValidMeal(m) {
      return ServerError;
    }
    var id := store.nextId;
    store.meals := store.meals[id := m];
    store.nextId := id + 1;
    r := Created(id, m);
  }

  /** `updateRecipe`: 404 for a missing recipe, 403 unless the requester owns it. */
  method UpdateRecipe(store: MealStore, id: ObjectId, requester: ObjectId,
                      fields: set<MealField>, body: Meal) returns (r: Reply)
    requires store.Valid()
    modifies store
    ensures store.Valid() && store.nextId == old(store.nextId)
    ensures id !in old(store.meals) ==> r == RecipeNotFound && store.meals == old(store.meals)
    ensures id in old(store.meals) && !IsOwner(old(store.meals)[id], requester) ==>
      r == Forbidden && store.meals == old(store.meals)
    ensures id in old(store.meals) && IsOwner(old(store.meals)[id], requester) ==>
      var m := ApplyPatch(old(store.meals)[id], fields, body);
      r == MealJson(m) && store.meals == old(store.meals)[id := m]
  {
    if id !in store.meals {
      return RecipeNotFound;
    }
    var recipe := store.meals[id];
    if !IsOwner(recipe, requester) {
      return Forbidden;
    }
    var updated := ApplyPatch(recipe, fields, body);
    store.meals := store.meals[id := updated];
    r := MealJson(updated);
  }

  /** `deleteRecipe`: the same two checks, then the document is removed. */
  method DeleteRecipe(store: MealStore, id: ObjectId, requester: ObjectId) returns (r: Reply)
    requires store.Valid()
    modifies store
    ensures store.Valid() && store.nextId == old(store.nextId)
    ensures id !in old(store.meals) ==> r == RecipeNotFound && store.meals == old(store.meals)
    ensures id in old(store.meals) && !IsOwner(old(store.meals)[id], requester) ==>
      r == Forbidden && store.meals == old(store.meals)
    ensures id in old(store.meals) && IsOwner(old(store.meals)[id], requester) ==>
      r == Done && store.meals == old(store.meals) - {id}
  {
    if id !in store.meals {
      return RecipeNotFound;
    }
    if !IsOwner(store.meals[id], requester) {
      return Forbidden;
    }
    store.meals := store.meals - {id};
    r := Done;
  }

  /** `likeRecipe`, then `save()`. */
  method LikeRecipe(store: MealStore, id: ObjectId, user: ObjectId) returns (r: Reply)
    requires store.Valid()
    modifies store
    ensures store.Valid() && store.nextId == old(store.nextId)
    ensures id !in old(store.meals) ==> r == RecipeNotFound && store.meals == old(store.meals)
    ensures id in old(store.meals) ==>
      var m := Liked(old(store.meals)[id], user);
      if ValidMeal(m) then r == MealJson(m) && store.meals == old(store.meals)[id := m]
      else r == ServerError && store.meals == old(store.meals)
  {
    if id !in store.meals {
      return RecipeNotFound;
    }
    var recipe := store.meals[id];
    if user !in recipe.likes {
      recipe := recipe.(likes := recipe.likes + [user], dislikes := Without(recipe.dislikes, user));
    }
    if !ValidMeal(recipe) {
      return ServerError;
    }
    store.meals := store.meals[id := recipe];
    r := MealJson(recipe);
  }

  /** `dislikeRecipe`, then `save()`. */
  method DislikeRecipe(store: MealStore, id: ObjectId, user: ObjectId) returns (r: Reply)
    requires store.Valid()
    modifies store
    ensures store.Valid() && store.nextId == old(store.nextId)
    ensures id !in old(store.meals) ==> r == RecipeNotFound && store.meals == old(store.meals)
    ensures id in old(store.meals) ==>
      var m := Disliked(old(store.meals)[id], user);
      if ValidMeal(m) then r == MealJson(m) && store.meals == old(store.meals)[id := m]
      else r == ServerError && store.meals == old(store.meals)
  {
    if id !in store.meals {
      return RecipeNotFound;
    }
    var recipe := store.meals[id];
    if user !in recipe.dislikes {
      recipe := recipe.(dislikes := recipe.dislikes + [user], likes := Without(recipe.likes, user));
    }
    if !ValidMeal(recipe) {
      return ServerError;
    }
    store.meals := store.meals[id := recipe];
    r := MealJson(recipe);
  }

  /** `addComment`: the content check comes before any lookup; the `$push`
      appends one comment with a fresh `_id` and answers with it. */
  method AddComment(store: MealStore, id: ObjectId, user: ObjectId,
                    content: Option<string>, now: Millis) returns (r: Reply)
    requires store.Valid()
    modifies store
    ensures store.Valid()
    ensures CommentContentRejected(content) ==>
      r == BadRequest && store.meals == old(store.meals) && store.nextId == old(store.nextId)
    ensures !CommentContentRejected(content) && id !in old(store.meals) ==>
      r == RecipeNotFound && store.meals == old(store.meals) && store.nextId == old(store.nextId)
    ensures !CommentContentRejected(content) && id in old(store.meals) ==>
      var c := Comment(old(store.nextId), Some(user), None, content, now);
      var m := old(store.meals)[id];
      && r == CommentCreated(c)
      && store.meals == old(store.meals)[id := m.(comments := m.comments + [c])]
      && store.nextId == old(store.nextId) + 1
  {
    if CommentContentRejected(content) {
      return BadRequest;
    }
    if id !in store.meals {
      return RecipeNotFound;
    }
    var comment := Comment(store.nextId, Some(user), None, content, now);
    var recipe := store.meals[id];
    store.meals := store.meals[id := recipe.(comments := recipe.comments + [comment])];
    store.nextId := store.nextId + 1;
    r := CommentCreated(comment);
  }

  /** `deleteComment`: 404 recipe, 404 comment, 403 not the author, in that
      order; then the comment is pulled and the recipe saved. A comment
      without `userId` makes `comment.userId.equals` throw. */
  method DeleteComment(store: MealStore, id: ObjectId, commentId: ObjectId, user: ObjectId)
    returns (r: Reply)
    requires store.Valid()
    modifies store
    ensures store.Valid() && store.nextId == old(store.nextId)
    ensures r != Done ==> store.meals == old(store.meals)
    ensures id !in old(store.meals) ==> r == RecipeNotFound
    ensures id in old(store.meals) ==>
      var m := old(store.meals)[id];
      match FindComment(m.comments, commentId)
      case None => r == CommentNotFound
      case Some(i) =>
        if m.comments[i].userId.None? then r == ServerError
        else if m.comments[i].userId != Some(user) then r == Forbidden
        else
          var m' := m.(comments := PullComment(m.comments, commentId));
          if ValidMeal(m') then r == Done && store.meals == old(store.meals)[id := m']
          else r == ServerError
  {
    if id !in store.meals {
      return RecipeNotFound;
    }
    var recipe := store.meals[id];
    var found := FindComment(recipe.comments, commentId);
    if found.None? {
      return CommentNotFound;
    }
    var author := recipe.comments[found.value].userId;
    if author.None? {
      return ServerError;
    }
    if author != Some(user) {
      return Forbidden;
    }
    recipe := recipe.(comments := PullComment(recipe.comments, commentId));
    if !ValidMeal(recipe) {
      return ServerError;
    }
    store.meals := store.meals[id := recipe];
    r := Done;
  }
}
