/** The meal planner (meal_planner/service.py): filtering the collection for
    a meal, choosing the best-ranked recipe for each meal of a day, and
    seven consecutive days for a week. The randomness of the fallback sample
    and of the rank shuffles is handed in as explicit draws; the clock is
    the `today` parameter. */
module Planner {
  import opened Options
  import opened Text
  import opened Calendar
  import opened Recipes
  import opened Preferences
  import opened Shuffling
  import opened Ranking

  // ---------------------------------------------------------------------
  // Filters
  // ---------------------------------------------------------------------

  /** `_contains_disliked_ingredients`: with no disliked words nothing is
      rejected; otherwise the ingredient lines are scanned in order, and in
      each line the disliked words, until one occurs in it, ignoring case. */
  function ContainsDislikedIngredients(r: Recipe, disliked: seq<string>): (b: bool)
    ensures b <==> exists i, j :: 0 <= i < |r.ingredients| && 0 <= j < |disliked|
                                  && Contains(Lower(r.ingredients[i]), Lower(disliked[j]))
  {
    if |disliked| == 0 then false else AnyLineHits(r.ingredients, disliked)
  }

  /** The outer loop, over the ingredient lines. */
  function AnyLineHits(lines: seq<string>, disliked: seq<string>): (b: bool)
    ensures b <==> exists i, j :: 0 <= i < |lines| && 0 <= j < |disliked|
                                  && Contains(Lower(lines[i]), Lower(disliked[j]))
  {
    if |lines| == 0 then false
    else if LineHits(lines[0], disliked) then true
    else
      var rest := AnyLineHits(lines[1..], disliked);
      assert forall i :: 1 <= i < |lines| ==> lines[1..][i - 1] == lines[i];
      rest
  }

  /** The inner loop, over the disliked words, for one line. */
  function LineHits(line: string, disliked: seq<string>): (b: bool)
    ensures b <==> exists j :: 0 <= j < |disliked| && Contains(Lower(line), Lower(disliked[j]))
  {
    if |disliked| == 0 then false
    else if Contains(Lower(line), Lower(disliked[0])) then true
    else
      var rest := LineHits(line, disliked[1..]);
      assert forall j :: 1 <= j < |disliked| ==> disliked[1..][j - 1] == disliked[j];
      rest
  }

  /** An ingredient list with a disliked word in one of its lines is
      rejected; with no disliked words nothing is. */
  lemma DislikedIngredientRejects(r: Recipe, disliked: seq<string>, i: nat, j: nat)
    requires i < |r.ingredients| && j < |disliked|
    requires Contains(Lower(r.ingredients[i]), Lower(disliked[j]))
    ensures ContainsDislikedIngredients(r, disliked)
    ensures !ContainsDislikedIngredients(r, [])
  {
  }

  /** `_matches_dietary_restrictions`: a stub that accepts every recipe,
      with or without restrictions. */
  function MatchesDietaryRestrictions(r: Recipe, restrictions: seq<string>): (b: bool)
    ensures b
  {
    if |restrictions| == 0 then true else true
  }

  /** The meal-type test of `_find_suitable_recipes`: with a non-empty meal
      type and a recipe whose own meal type is non-empty, the first must
      occur in the second, ignoring case; otherwise the recipe passes. */
  predicate MealTypeFits(mealType: string, r: Recipe) {
    |mealType| > 0 && r.mealType.Some? && |r.mealType.value| > 0
    ==> Contains(Lower(r.mealType.value), Lower(mealType))
  }

  predicate Suitable(p: Prefs, mealType: string, r: Recipe) {
    && MealTypeFits(mealType, r)
    && MatchesDietaryRestrictions(r, p.dietaryRestrictions)
    && !ContainsDislikedIngredients(r, p.dislikedIngredients)
  }

  /** The recipes passing every filter, in collection order. */
  function Filtered(db: seq<Recipe>, p: Prefs, mealType: string): (r: seq<Recipe>)
    ensures |r| <= |db|
    ensures forall x :: x in r <==> x in db && Suitable(p, mealType, x)
  {
    if |db| == 0 then []
    else (if Suitable(p, mealType, db[0]) then [db[0]] else []) + Filtered(db[1..], p, mealType)
  }

  /** How many recipes the fallback samples. */
  const FallbackSize: nat := 3

  function Min(a: nat, b: nat): nat {
    if a < b then a else b
  }

  /** `_find_suitable_recipes(meal_type)`: the filtered recipes, or, when the
      filters leave none, a random sample of up to three from the whole
      collection (draws `coins`). */
  function FindSuitable(db: seq<Recipe>, p: Prefs, mealType: string, coins: seq<nat>): (r: seq<Recipe>)
    ensures |r| == 0 <==> |db| == 0
    ensures |Filtered(db, p, mealType)| > 0 ==> r == Filtered(db, p, mealType)
    ensures |Filtered(db, p, mealType)| == 0 ==> |r| == Min(FallbackSize, |db|) && multiset(r) <= multiset(db)
    ensures forall x :: x in r ==> x in db
  {
    if |db| == 0 then []
    else
      var suitable := Filtered(db, p, mealType);
      if |suitable| > 0 then suitable
      else
        SampleIsSubMultiset(db, Min(FallbackSize, |db|), coins);
        var s := Sample(db, Min(FallbackSize, |db|), coins);
        assert forall x :: x in s ==> x in multiset(db);
        s
  }

  // ---------------------------------------------------------------------
  // One day
  // ---------------------------------------------------------------------

  /** The random draws used for one meal: the fallback sample's and the
      rank shuffles'. */
  datatype MealDraws = MealDraws(sample: seq<nat>, shuffles: seq<seq<nat>>)

  function DrawsAt(draws: seq<MealDraws>, i: nat): MealDraws {
    if i < |draws| then draws[i] else MealDraws([], [])
  }

  /** The recipe of one meal: the top-ranked suitable recipe, or None when
      there is nothing to choose from. */
  function PlanMeal(db: seq<Recipe>, p: Prefs, mealType: string, d: MealDraws): (r: Option<Recipe>)
    ensures r.None? <==> |db| == 0
    ensures r.Some? ==> r.value in db
    ensures r.Some? ==> forall x :: x in FindSuitable(db, p, mealType, d.sample) ==> Score(p, r.value) >= Score(p, x)
    ensures r.Some? && |Filtered(db, p, mealType)| > 0 ==> Suitable(p, mealType, r.value)
  {
    var suitable := FindSuitable(db, p, mealType, d.sample);
    if |suitable| == 0 then None
    else
      var ranked := Rank(p, suitable, d.shuffles);
      if |ranked| > 0 then
        assert ranked[0] in multiset(suitable);
        forall x | x in suitable
          ensures Score(p, ranked[0]) >= Score(p, x)
        {
          RankFirstIsBest(p, suitable, d.shuffles, x);
        }
        Some(ranked[0])
      else None
  }

  /** One entry of the `meals` dictionary. */
  datatype MealSlot = MealSlot(mealType: string, recipe: Option<Recipe>)

  function Keys(slots: seq<MealSlot>): (ks: seq<string>)
    ensures |ks| == |slots| && forall i :: 0 <= i < |slots| ==> ks[i] == slots[i].mealType
  {
    if |slots| == 0 then [] else [slots[0].mealType] + Keys(slots[1..])
  }

  /** The place of the first slot with key `k`. */
  function KeyIndex(slots: seq<MealSlot>, k: string): (i: nat)
    requires k in Keys(slots)
    ensures i < |slots| && slots[i].mealType == k
    ensures forall j :: 0 <= j < i ==> slots[j].mealType != k
  {
    if slots[0].mealType == k then 0
    else
      assert Keys(slots) == [slots[0].mealType] + Keys(slots[1..]);
      1 + KeyIndex(slots[1..], k)
  }

  /** Dictionary assignment: an existing key keeps its place and takes the
      new value; a new key goes at the end. */
  function Put(slots: seq<MealSlot>, k: string, v: Option<Recipe>): (r: seq<MealSlot>)
    ensures k in Keys(slots) ==> |r| == |slots| && r[KeyIndex(slots, k)] == MealSlot(k, v)
                                 && forall j :: 0 <= j < |slots| && j != KeyIndex(slots, k) ==> r[j] == slots[j]
    ensures k in Keys(slots) ==> Keys(r) == Keys(slots)
    ensures k !in Keys(slots) ==> r == slots + [MealSlot(k, v)]
    ensures MealSlot(k, v) in r
    ensures forall s :: s in r ==> s in slots || s == MealSlot(k, v)
  {
    if |slots| == 0 then [MealSlot(k, v)]
    else if slots[0].mealType == k then
      var r := [MealSlot(k, v)] + slots[1..];
      assert r[0] == MealSlot(k, v);
      r
    else
      var tail := Put(slots[1..], k, v);
      assert Keys(slots) == [slots[0].mealType] + Keys(slots[1..]);
      assert slots == [slots[0]] + slots[1..];
      var r := [slots[0]] + tail;
      assert r[1..] == tail;
      assert k in Keys(slots) ==> k in Keys(slots[1..]) && KeyIndex(slots, k) == 1 + KeyIndex(slots[1..], k);
      r
  }

  /** The distinct elements of `ks`, in order of first occurrence, after `seen`. */
  function Dedup(seen: seq<string>, ks: seq<string>): seq<string>
    decreases |ks|
  {
    if |ks| == 0 then seen else Dedup(if ks[0] in seen then seen else seen + [ks[0]], ks[1..])
  }

  /** Without repeated keys, deduplication keeps every key in place. */
  lemma {:induction false} DedupOfDistinct(seen: seq<string>, ks: seq<string>)
    requires NoDuplicates(seen + ks)
    ensures Dedup(seen, ks) == seen + ks
    decreases |ks|
  {
    if |ks| > 0 {
      assert (seen + ks)[|seen|] == ks[0];
      assert ks[0] !in seen by {
        forall i | 0 <= i < |seen| ensures seen[i] != ks[0] {
          assert (seen + ks)[i] == seen[i];
        }
      }
      assert seen + ks == (seen + [ks[0]]) + ks[1..];
      DedupOfDistinct(seen + [ks[0]], ks[1..]);
    }
  }

  const DefaultMealTypes: seq<string> := ["doručak", "ručak", "večera"]

  /** `meal_types or default_meal_types`: None and the empty list both mean
      the default three meals (None is written here as the empty list). */
  function MealTypesOrDefault(mealTypes: seq<string>): (ts: seq<string>)
    ensures |mealTypes| > 0 ==> ts == mealTypes
    ensures |mealTypes| == 0 ==> ts == DefaultMealTypes
  {
    if |mealTypes| > 0 then mealTypes else DefaultMealTypes
  }

  /** Every slot is what planning its meal can yield: empty exactly when the
      collection is, a recipe of the collection otherwise, suitable when a
      suitable one exists. */
  predicate SlotSound(db: seq<Recipe>, p: Prefs, s: MealSlot) {
    && (s.recipe.None? <==> |db| == 0)
    && (s.recipe.Some? ==> s.recipe.value in db)
    && (s.recipe.Some? && |Filtered(db, p, s.mealType)| > 0 ==> Suitable(p, s.mealType, s.recipe.value))
  }

  lemma KeysAppend(slots: seq<MealSlot>, s: MealSlot)
    ensures Keys(slots + [s]) == Keys(slots) + [s.mealType]
  {
    assert forall i :: 0 <= i <= |slots| ==> Keys(slots + [s])[i] == (Keys(slots) + [s.mealType])[i];
  }

  /** The loop of `generate_daily_plan`: assign the planned slots one after
      the other into the dictionary `acc`. */
  function PutAll(acc: seq<MealSlot>, slots: seq<MealSlot>): (r: seq<MealSlot>)
    decreases |slots|
    ensures forall s :: s in r ==> s in acc || s in slots
    ensures Keys(r) == Dedup(Keys(acc), Keys(slots))
  {
    if |slots| == 0 then acc
    else
      var acc' := Put(acc, slots[0].mealType, slots[0].recipe);
      KeysAppend(acc, slots[0]);
      assert Keys(slots)[1..] == Keys(slots[1..]);
      PutAll(acc', slots[1..])
  }

  lemma AppendFirst<T>(a: seq<T>, b: seq<T>)
    requires |b| > 0
    ensures (a + [b[0]]) + b[1..] == a + b
  {
    assert b == [b[0]] + b[1..];
  }

  predicate NoDuplicates(ks: seq<string>) {
    forall i, j :: 0 <= i < j < |ks| ==> ks[i] != ks[j]
  }

  /** After the first slot is appended, the remaining keys are still new
      and still distinct. */
  lemma RestStaysFresh(acc: seq<MealSlot>, slots: seq<MealSlot>)
    requires |slots| > 0 && NoDuplicates(Keys(slots))
    requires forall j :: 0 <= j < |slots| ==> slots[j].mealType !in Keys(acc)
    ensures NoDuplicates(Keys(slots[1..]))
    ensures forall j :: 0 <= j < |slots| - 1 ==> slots[1..][j].mealType !in Keys(acc + [slots[0]])
  {
    KeysAppend(acc, slots[0]);
    assert Keys(slots[1..]) == Keys(slots)[1..];
    forall j | 0 <= j < |slots| - 1
      ensures slots[1..][j].mealType !in Keys(acc + [slots[0]])
    {
      assert slots[1..][j] == slots[j + 1];
      assert Keys(slots)[j + 1] != Keys(slots)[0];
    }
  }

  /** A new key is appended by the first assignment of the loop. */
  lemma PutAllStep(acc: seq<MealSlot>, slots: seq<MealSlot>)
    requires |slots| > 0 && slots[0].mealType !in Keys(acc)
    ensures PutAll(acc, slots) == PutAll(acc + [slots[0]], slots[1..])
  {
    var s0 := slots[0];
    assert s0 == MealSlot(s0.mealType, s0.recipe);
    assert Put(acc, s0.mealType, s0.recipe) == acc + [s0];
  }

  /** With distinct keys, none already present, assignment just appends. */
  lemma {:induction false} PutAllDistinct(acc: seq<MealSlot>, slots: seq<MealSlot>)
    requires NoDuplicates(Keys(slots))
    requires forall j :: 0 <= j < |slots| ==> slots[j].mealType !in Keys(acc)
    ensures PutAll(acc, slots) == acc + slots
    decreases |slots|
  {
    if |slots| > 0 {
      PutAllStep(acc, slots);
      RestStaysFresh(acc, slots);
      PutAllDistinct(acc + [slots[0]], slots[1..]);
      AppendFirst(acc, slots);
    } else {
      assert acc + slots == acc;
    }
  }

  /** What the loop computes for each meal, before the dictionary merges
      repeated meal types: meal `j` planned with draws `draws[j]`. */
  function PlannedSlots(db: seq<Recipe>, p: Prefs, types: seq<string>, draws: seq<MealDraws>): (slots: seq<MealSlot>)
    ensures |slots| == |types| && Keys(slots) == types
    ensures forall s :: s in slots ==> SlotSound(db, p, s)
  {
    var slots := seq(|types|, j requires 0 <= j < |types| => MealSlot(types[j], PlanMeal(db, p, types[j], DrawsAt(draws, j))));
    assert forall j :: 0 <= j < |types| ==> SlotSound(db, p, slots[j]);
    slots
  }

  datatype DailyPlan = DailyPlan(date: Date, meals: seq<MealSlot>)

  /** `generate_daily_plan(date_obj, meal_types)`; meal `i` uses `draws[i]`.
      A meal type asked for twice keeps its first place and its last recipe. */
  function GenerateDailyPlan(db: seq<Recipe>, p: Prefs, date: DateArg, mealTypes: seq<string>,
                             today: Date, draws: seq<MealDraws>): (plan: DailyPlan)
    ensures plan.date == NormalizeDate(date, today)
    ensures Keys(plan.meals) == Dedup([], MealTypesOrDefault(mealTypes))
    ensures forall s :: s in plan.meals ==> SlotSound(db, p, s)
  {
    var types := MealTypesOrDefault(mealTypes);
    DailyPlan(NormalizeDate(date, today), PutAll([], PlannedSlots(db, p, types, draws)))
  }

  lemma DefaultMealTypesDistinct()
    ensures NoDuplicates(DefaultMealTypes)
  {
  }

  /** A plan for distinct meal types has one slot per type, in the order
      asked, each holding that meal's planned recipe. */
  lemma DailyPlanSlots(db: seq<Recipe>, p: Prefs, date: DateArg, mealTypes: seq<string>, today: Date, draws: seq<MealDraws>)
    requires NoDuplicates(mealTypes)
    ensures var plan := GenerateDailyPlan(db, p, date, mealTypes, today, draws);
            plan.meals == PlannedSlots(db, p, MealTypesOrDefault(mealTypes), draws)
  {
    DefaultMealTypesDistinct();
    var slots := PlannedSlots(db, p, MealTypesOrDefault(mealTypes), draws);
    PutAllDistinct([], slots);
    assert [] + slots == slots;
  }

  // ---------------------------------------------------------------------
  // One week
  // ---------------------------------------------------------------------

  /** One entry of the weekly dictionary: the ISO date key and that day's plan. */
  datatype DayEntry = DayEntry(key: string, plan: DailyPlan)

  const WeekLength: nat := 7

  function DayDraws(draws: seq<seq<MealDraws>>, i: nat): seq<MealDraws> {
    if i < |draws| then draws[i] else []
  }

  /** The normalised start of the week. */
  function WeekStart(start: DateArg, today: Date): (d: Date)
    requires Valid(today) && (start.DateValue? ==> IsCalendarDate(start.date))
    ensures IsCalendarDate(d) && d == NormalizeDate(start, today)
  {
    NormalizeDate(start, today)
  }

  /** `generate_weekly_plan(start_date)`: seven entries, day `k` the
      normalised start plus `k` days under its ISO key, planned with the
      default meals and draws `draws[k]`. */
  function GenerateWeeklyPlan(db: seq<Recipe>, p: Prefs, start: DateArg, today: Date, draws: seq<seq<MealDraws>>): (r: seq<DayEntry>)
    requires Valid(today) && (start.DateValue? ==> IsCalendarDate(start.date))
    ensures |r| == WeekLength
    ensures forall k :: 0 <= k < |r| ==>
              r[k].plan.date == AddDays(WeekStart(start, today), k) && r[k].key == FormatIso(AddDays(WeekStart(start, today), k))
    ensures forall k :: 0 <= k < |r| ==> Keys(r[k].plan.meals) == DefaultMealTypes
    ensures forall k, m :: 0 <= k < |r| && m in r[k].plan.meals ==> SlotSound(db, p, m)
  {
    var s := WeekStart(start, today);
    var r := seq(WeekLength, k requires 0 <= k < WeekLength =>
                 DayEntry(FormatIso(AddDays(s, k)),
                          GenerateDailyPlan(db, p, DateValue(AddDays(s, k)), [], today, DayDraws(draws, k))));
    forall k | 0 <= k < |r|
      ensures Keys(r[k].plan.meals) == DefaultMealTypes
    {
      DailyPlanSlots(db, p, DateValue(AddDays(s, k)), [], today, DayDraws(draws, k));
    }
    r
  }

  /** The week's days are consecutive from the normalised start date, and
      each key parses back to its day as long as the week stays within year
      9999. */
  lemma WeekDaysConsecutive(db: seq<Recipe>, p: Prefs, start: DateArg, today: Date, draws: seq<seq<MealDraws>>, k: nat)
    requires Valid(today) && (start.DateValue? ==> IsCalendarDate(start.date))
    requires k < WeekLength
    ensures Ordinal(AddDays(WeekStart(start, today), k)) == Ordinal(WeekStart(start, today)) + k
    ensures GenerateWeeklyPlan(db, p, start, today, draws)[k].plan.date == AddDays(WeekStart(start, today), k)
    ensures Valid(AddDays(WeekStart(start, today), k)) ==>
              ParseIso(GenerateWeeklyPlan(db, p, start, today, draws)[k].key) == Some(AddDays(WeekStart(start, today), k))
  {
    var d := AddDays(WeekStart(start, today), k);
    if Valid(d) {
      IsoRoundTrip(d);
    }
  }

  /** Distinct days have distinct keys, so the dictionary holds all seven. */
  lemma WeekKeysDistinct(db: seq<Recipe>, p: Prefs, start: DateArg, today: Date, draws: seq<seq<MealDraws>>, i: nat, j: nat)
    requires Valid(today) && (start.DateValue? ==> IsCalendarDate(start.date))
    requires i < j < WeekLength
    requires Valid(AddDays(WeekStart(start, today), j))
    ensures var r := GenerateWeeklyPlan(db, p, start, today, draws);
            r[i].key != r[j].key
  {
    var s := WeekStart(start, today);
    if AddDays(s, i).year > AddDays(s, j).year {
      YearsApart(AddDays(s, j), AddDays(s, i));
    }
    WeekDaysConsecutive(db, p, start, today, draws, i);
    WeekDaysConsecutive(db, p, start, today, draws, j);
  }
}
