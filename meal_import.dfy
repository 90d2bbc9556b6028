/** `transformMeal`: flattening a TheMealDB record into a recipe document. */
module MealImport {
  import opened Wrappers
  import opened JsText
  import opened MealModel

  /** The record has numbered ingredient and measure slots; 1 to 20 are read. */
  const SlotCount: nat := 20

  /** A TheMealDB meal record. `ingredientSlots[i - 1]` is `strIngredient<i>`
      and `measureSlots[i - 1]` is `strMeasure<i>`; a missing key or `null` is `None`. */
  datatype RawMeal = RawMeal(
    idMeal: Option<string>,
    strMeal: Option<string>,
    strDrinkAlternate: Option<string>,
    strCategory: Option<string>,
    strArea: Option<string>,
    strInstructions: Option<string>,
    strMealThumb: Option<string>,
    strTags: Option<string>,
    strYoutube: Option<string>,
    strSource: Option<string>,
    ingredientSlots: seq<Option<string>>,
    measureSlots: seq<Option<string>>)

  /** `raw[key + i]`: slot i, or `None` beyond what the record has. */
  function Slot(slots: seq<Option<string>>, i: nat): Option<string> {
    if 1 <= i <= |slots| then slots[i - 1] else None
  }

  /** `value?.trim()`. */
  function Trimmed(f: Option<string>): Option<string> {
    if f.Some? then Some(Trim(f.value)) else None
  }

  /** The ingredient entry slot i contributes, if its trimmed ingredient is non-empty. */
  function SlotEntry(raw: RawMeal, i: nat): Option<Ingredient> {
    var ingredient := Trimmed(Slot(raw.ingredientSlots, i));
    if Truthy(ingredient) then Some(Ingredient(ingredient, Trimmed(Slot(raw.measureSlots, i))))
    else None
  }

  /** The entries of slots 1 to k, in slot order. */
  function Collected(raw: RawMeal, k: nat): seq<Ingredient> {
    if k == 0 then []
    else Collected(raw, k - 1) + (match SlotEntry(raw, k) case None => [] case Some(e) => [e])
  }

  /** `transformMeal(raw)`. */
  method TransformMeal(raw: RawMeal) returns (m: Meal)
    ensures m.ingredients == Collected(raw, SlotCount)
    ensures m.idMeal == raw.idMeal && m.strMeal == raw.strMeal
    ensures m.strDrinkAlternate == OrNull(raw.strDrinkAlternate)
    ensures m.strCategory == OrNull(raw.strCategory) && m.strArea == OrNull(raw.strArea)
    ensures m.strInstructions == OrNull(raw.strInstructions) && m.strMealThumb == OrNull(raw.strMealThumb)
    ensures m.strTags == OrNull(raw.strTags) && m.strYoutube == OrNull(raw.strYoutube)
    ensures m.strSource == OrNull(raw.strSource)
    ensures m.seasonalMonths == [] && m.comments == [] && m.likes == [] && m.dislikes == []
    ensures m.createdBy.None?
  {
    var ingredients: seq<Ingredient> := [];
    for i := 1 to SlotCount + 1
      invariant ingredients == Collected(raw, i - 1)
    {
      var ingredient := Trimmed(Slot(raw.ingredientSlots, i));
      var measure := Trimmed(Slot(raw.measureSlots, i));
      if Truthy(ingredient) {
        ingredients := ingredients + [Ingredient(ingredient, measure)];
      }
    }
    m := Meal(
      raw.idMeal, raw.strMeal,
      OrNull(raw.strDrinkAlternate), OrNull(raw.strCategory), OrNull(raw.strArea),
      OrNull(raw.strInstructions), OrNull(raw.strMealThumb), OrNull(raw.strTags),
      OrNull(raw.strYoutube), OrNull(raw.strSource),
      ingredients, [], [], [], [], None);
  }

  /** The slots among 1 to k that contribute an entry, in increasing order. */
  function ContributingSlots(raw: RawMeal, k: nat): (slots: seq<nat>)
    ensures |slots| == |Collected(raw, k)|
    ensures forall p :: 0 <= p < |slots| ==> 1 <= slots[p] <= k
    ensures forall p, q :: 0 <= p < q < |slots| ==> slots[p] < slots[q]
  {
    if k == 0 then []
    else ContributingSlots(raw, k - 1) + (if SlotEntry(raw, k).Some? then [k] else [])
  }

  /** Entry p of the ingredients comes from the p-th contributing slot. */
  lemma {:induction false} SlotsPointwise(raw: RawMeal, k: nat)
    ensures var slots := ContributingSlots(raw, k);
      forall p :: 0 <= p < |slots| ==> SlotEntry(raw, slots[p]) == Some(Collected(raw, k)[p])
  {
    if k > 0 {
      SlotsPointwise(raw, k - 1);
      var slots, prev := ContributingSlots(raw, k), ContributingSlots(raw, k - 1);
      var now, before := Collected(raw, k), Collected(raw, k - 1);
      forall p | 0 <= p < |slots| ensures SlotEntry(raw, slots[p]) == Some(now[p]) {
        if p < |prev| {
          assert slots[p] == prev[p] && now[p] == before[p];
        }
      }
    }
  }

  /** Every slot among 1 to k that has an entry is a contributing slot. */
  lemma {:induction false} SlotsComplete(raw: RawMeal, k: nat)
    ensures forall i :: 1 <= i <= k && SlotEntry(raw, i).Some? ==> i in ContributingSlots(raw, k)
  {
    if k > 0 {
      SlotsComplete(raw, k - 1);
    }
  }

  /** The ingredients are exactly the contributing slots among 1 to k, in
      increasing slot order: `slots[p]` is the slot entry p came from. */
  lemma CollectedFromSlots(raw: RawMeal, k: nat) returns (slots: seq<nat>)
    ensures |slots| == |Collected(raw, k)|
    ensures forall p :: 0 <= p < |slots| ==>
      1 <= slots[p] <= k && SlotEntry(raw, slots[p]) == Some(Collected(raw, k)[p])
    ensures forall p, q :: 0 <= p < q < |slots| ==> slots[p] < slots[q]
    ensures forall i :: 1 <= i <= k && SlotEntry(raw, i).Some? ==> i in slots
  {
    slots := ContributingSlots(raw, k);
    SlotsPointwise(raw, k);
    SlotsComplete(raw, k);
  }

  /** At most one ingredient per slot read: never more than twenty. */
  lemma {:induction false} AtMostOnePerSlot(raw: RawMeal, k: nat)
    ensures |Collected(raw, k)| <= k
  {
    if k > 0 {
      AtMostOnePerSlot(raw, k - 1);
    }
  }

  /** A slot is skipped exactly when its ingredient is missing or only white
      space; a kept entry holds the trimmed ingredient and measure. */
  lemma SlotSkippedIff(raw: RawMeal, i: nat)
    ensures SlotEntry(raw, i).None? <==>
      Slot(raw.ingredientSlots, i).None? || AllSpace(Slot(raw.ingredientSlots, i).value)
    ensures SlotEntry(raw, i).Some? ==>
      var e := SlotEntry(raw, i).value;
      var t := Trim(Slot(raw.ingredientSlots, i).value);
      && e.ingredient == Some(t) && t != ""
      && !IsSpace(t[0]) && !IsSpace(t[|t| - 1])
      && e.measure == Trimmed(Slot(raw.measureSlots, i))
  {
    if Slot(raw.ingredientSlots, i).Some? {
      TrimEmptyIff(Slot(raw.ingredientSlots, i).value);
      TrimmedHasNoOuterSpace(Slot(raw.ingredientSlots, i).value);
    }
  }

  /** Slots beyond the twentieth are never read: two records that agree on
      slots 1 to 20 give the same ingredients. */
  lemma {:induction false} OnlyLeadingSlotsRead(a: RawMeal, b: RawMeal, k: nat)
    requires forall i :: 1 <= i <= k ==>
      Slot(a.ingredientSlots, i) == Slot(b.ingredientSlots, i) && Slot(a.measureSlots, i) == Slot(b.measureSlots, i)
    ensures Collected(a, k) == Collected(b, k)
  {
    if k > 0 {
      OnlyLeadingSlotsRead(a, b, k - 1);
      assert SlotEntry(a, k) == SlotEntry(b, k);
    }
  }

  /** When the first k slots are all non-blank, each of them gives one
      ingredient: twenty filled slots give twenty ingredients. */
  lemma {:induction false} AllSlotsFilled(raw: RawMeal, k: nat)
    requires forall i :: 1 <= i <= k ==> SlotEntry(raw, i).Some?
    ensures |Collected(raw, k)| == k
  {
    if k > 0 {
      AllSlotsFilled(raw, k - 1);
    }
  }
}
