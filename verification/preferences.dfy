/** A user's preferences (meal_planner/models.py, `UserPreferences`): the
    lists the planner filters and ranks by, and the capped meal history. */
module Preferences {

  /** One entry of the meal history. Only a dictionary with an "id" key
      matters to the planner; every other entry is `Other`. */
  datatype Meal = WithId(id: int) | Other

  datatype Prefs = Prefs(
    userId: string,
    dietaryRestrictions: seq<string>,
    favoriteCuisines: seq<string>,
    dislikedIngredients: seq<string>,
    mealHistory: seq<Meal>,
    favoriteRecipes: seq<int>)

  /** `UserPreferences(user_id)`: every list starts empty. */
  function NewPrefs(userId: string): (p: Prefs)
    ensures p.userId == userId
    ensures p.dietaryRestrictions == [] && p.favoriteCuisines == [] && p.dislikedIngredients == []
    ensures p.mealHistory == [] && p.favoriteRecipes == []
  {
    Prefs(userId, [], [], [], [], [])
  }

  // ---------------------------------------------------------------------
  // Meal history
  // ---------------------------------------------------------------------

  /** How many meals the history keeps. */
  const HistoryLimit: nat := 50

  /** `add_to_meal_history(meal)`: append, then keep only the newest fifty. */
  function AddToMealHistory(p: Prefs, meal: Meal): (q: Prefs)
    ensures q == p.(mealHistory := q.mealHistory)
    ensures |p.mealHistory| < HistoryLimit ==> q.mealHistory == p.mealHistory + [meal]
    ensures |p.mealHistory| >= HistoryLimit ==> |q.mealHistory| == HistoryLimit
    ensures |q.mealHistory| > 0 && q.mealHistory[|q.mealHistory| - 1] == meal
  {
    var h := p.mealHistory + [meal];
    p.(mealHistory := if |h| > HistoryLimit then h[|h| - HistoryLimit..] else h)
  }

  /** The last `n` elements of `s` (all of them when there are fewer). */
  function Last<T>(s: seq<T>, n: nat): (r: seq<T>)
    ensures |r| == if |s| < n then |s| else n
  {
    if |s| <= n then s else s[|s| - n..]
  }

  /** Adding meals one at a time in order. */
  function AddAll(p: Prefs, meals: seq<Meal>): Prefs
    decreases |meals|
  {
    if |meals| == 0 then p else AddAll(AddToMealHistory(p, meals[0]), meals[1..])
  }

  /** However many meals are added, the history is exactly the newest fifty
      of everything added so far, in order, and nothing else changes. */
  lemma {:induction false} HistoryIsNewestSuffix(p: Prefs, meals: seq<Meal>)
    requires |p.mealHistory| <= HistoryLimit
    ensures AddAll(p, meals).mealHistory == Last(p.mealHistory + meals, HistoryLimit)
    ensures AddAll(p, meals) == p.(mealHistory := AddAll(p, meals).mealHistory)
    decreases |meals|
  {
    if |meals| > 0 {
      var q := AddToMealHistory(p, meals[0]);
      HistoryIsNewestSuffix(q, meals[1..]);
      var h := p.mealHistory + [meals[0]];
      assert q.mealHistory == Last(h, HistoryLimit);
      LastOfLast(h, meals[1..], HistoryLimit);
      assert h + meals[1..] == p.mealHistory + meals;
    }
  }

  /** Truncating first and then again after appending is truncating once. */
  lemma LastOfLast<T>(a: seq<T>, b: seq<T>, n: nat)
    ensures Last(Last(a, n) + b, n) == Last(a + b, n)
  {
    if |a| > n {
      var a' := a[|a| - n..];
      var x := Last(a' + b, n);
      var y := Last(a + b, n);
      assert |x| == |y|;
      forall i | 0 <= i < |x|
        ensures x[i] == y[i]
      {
        if |a' + b| > n {
          assert x[i] == (a' + b)[|a' + b| - n + i];
          assert y[i] == (a + b)[|a + b| - n + i];
        }
      }
    }
  }

  // ---------------------------------------------------------------------
  // Updating a field by name
  // ---------------------------------------------------------------------

  /** The value handed to `update_preferences`, by the kind of field it fits. */
  datatype Value = Labels(labels: seq<string>) | Ids(ids: seq<int>) | Meals(meals: seq<Meal>) | Name(name: string)

  /** The instance attributes `hasattr` finds. */
  const FieldNames: seq<string> :=
    ["user_id", "dietary_restrictions", "favorite_cuisines", "disliked_ingredients", "meal_history", "favorite_recipes"]

  /** The value has the shape the named attribute holds (Python would store
      any value; the typed record cannot). */
  predicate Fits(field: string, v: Value) {
    && (field == "user_id" ==> v.Name?)
    && (field in {"dietary_restrictions", "favorite_cuisines", "disliked_ingredients"} ==> v.Labels?)
    && (field == "meal_history" ==> v.Meals?)
    && (field == "favorite_recipes" ==> v.Ids?)
  }

  /** `update_preferences(field, values)`: set an existing attribute and
      answer True, or change nothing and answer False. */
  function UpdatePreferences(p: Prefs, field: string, v: Value): (res: (Prefs, bool))
    requires Fits(field, v)
    ensures res.1 <==> field in FieldNames
    ensures !res.1 ==> res.0 == p
    ensures field == "favorite_cuisines" ==> res.0 == p.(favoriteCuisines := v.labels)
    ensures field == "disliked_ingredients" ==> res.0 == p.(dislikedIngredients := v.labels)
    ensures field == "dietary_restrictions" ==> res.0 == p.(dietaryRestrictions := v.labels)
    ensures field == "favorite_recipes" ==> res.0 == p.(favoriteRecipes := v.ids)
    ensures field == "meal_history" ==> res.0 == p.(mealHistory := v.meals)
    ensures field == "user_id" ==> res.0 == p.(userId := v.name)
  {
    if field == "user_id" then (p.(userId := v.name), true)
    else if field == "dietary_restrictions" then (p.(dietaryRestrictions := v.labels), true)
    else if field == "favorite_cuisines" then (p.(favoriteCuisines := v.labels), true)
    else if field == "disliked_ingredients" then (p.(dislikedIngredients := v.labels), true)
    else if field == "meal_history" then (p.(mealHistory := v.meals), true)
    else if field == "favorite_recipes" then (p.(favoriteRecipes := v.ids), true)
    else (p, false)
  }

  /** Setting a field twice keeps the second value; setting it to what it
      holds changes nothing. */
  lemma UpdateTwice(p: Prefs, field: string, v: Value, w: Value)
    requires Fits(field, v) && Fits(field, w)
    ensures UpdatePreferences(UpdatePreferences(p, field, v).0, field, w) == UpdatePreferences(p, field, w)
  {
  }
}
