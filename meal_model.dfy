/** The recipe ("meal") document and its embedded comments, as the Mongoose
    schema declares them, and the collection that stores them. */
module MealModel {
  import opened Wrappers
  import opened JsText

  /** The `maxlength` of a comment's content. */
  const MaxCommentLength: nat := 1000

  /** One entry of `ingredients`; neither field is required. */
  datatype Ingredient = Ingredient(ingredient: Option<string>, measure: Option<string>)

  /** An embedded comment; `id` is the subdocument's own `_id`. */
  datatype Comment = Comment(
    id: ObjectId,
    userId: Option<ObjectId>,
    email: Option<string>,
    content: Option<string>,
    createdAt: Millis)

  /** A recipe document. Absent and `null` are both `None`, so the schema's
      `createdBy: { default: null }` is the representation's own default. */
  datatype Meal = Meal(
    idMeal: Option<string>,
    strMeal: Option<string>,
    strDrinkAlternate: Option<string>,
    strCategory: Option<string>,
    strArea: Option<string>,
    strInstructions: Option<string>,
    strMealThumb: Option<string>,
    strTags: Option<string>,
    strYoutube: Option<string>,
    strSource: Option<string>,
    ingredients: seq<Ingredient>,
    seasonalMonths: seq<int>,
    comments: seq<Comment>,
    likes: seq<ObjectId>,
    dislikes: seq<ObjectId>,
    createdBy: Option<ObjectId>)

  /** The comment schema's validators: `userId`, `email` and `content` are
      required (a required string must be non-empty) and `content` has at most
      1000 characters. */
  predicate ValidComment(c: Comment)
    ensures ValidComment(c) <==>
      && c.userId.Some?
      && c.email.Some? && |c.email.value| > 0
      && c.content.Some? && 0 < |c.content.value| <= 1000
  {
    && c.userId.Some?
    && Truthy(c.email)
    && Truthy(c.content)
    && |c.content.value| <= MaxCommentLength
  }

  /** The meal schema's validator, checked by `save()`: `strMeal` is required. */
  predicate ValidMeal(m: Meal)
    ensures ValidMeal(m) <==> m.strMeal.Some? && |m.strMeal.value| > 0
  {
    Truthy(m.strMeal)
  }

  /** `strMeal` is the only required path of a meal: two documents with the
      same `strMeal` are both valid or both invalid, whatever else they hold. */
  lemma OnlyTitleRequired(m: Meal, m': Meal)
    requires m.strMeal == m'.strMeal
    ensures ValidMeal(m) <==> ValidMeal(m')
  {
  }

  /** The meal collection: documents by `_id`, and the source of fresh ids. */
  class MealStore {
    var meals: map<ObjectId, Meal>
    var nextId: ObjectId

    /** Every stored id was handed out before, so `nextId` is fresh. */
    ghost predicate Valid()
      reads this
    {
      forall id :: id in meals ==> id < nextId
    }

    constructor ()
      ensures Valid() && meals == map[] && nextId == 0
    {
      meals := map[];
      nextId := 0;
    }
  }
}
