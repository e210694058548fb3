/** The text the assistant shows for a response (assistant/main.py,
    `_format_recipe` and `_format_response`). */
module Formatter {
  import opened Options
  import opened Text
  import opened Calendar
  import opened Recipes
  import opened Planner
  import opened Messages
  import opened Intents

  // ---------------------------------------------------------------------
  // A recipe
  // ---------------------------------------------------------------------

  /** `d.get(k, default)` on the nutrition mapping. */
  function Get(m: map<string, string>, k: string, default: string): string {
    if k in m then m[k] else default
  }

  /** The one-line nutrition summary; empty when there is no nutrition data. */
  function NutritionLine(info: map<string, string>): (r: string)
    ensures |info| == 0 <==> r == ""
    ensures |info| > 0 ==> StartsWith(r, Get(info, "calories", "?")) && r[|r| - 1] == 'M'
  {
    if |info| == 0 then ""
    else
      var r := Get(info, "calories", "?") + "KCAL; " + Get(info, "proteins", "?") + "P, "
               + Get(info, "carbs", "?") + "UH, " + Get(info, "fats", "?") + "M";
      assert r[..|Get(info, "calories", "?")|] == Get(info, "calories", "?");
      r
  }

  function BulletLines(items: seq<string>): seq<string> {
    seq(|items|, i requires 0 <= i < |items| => "• " + items[i])
  }

  function NumberedLines(items: seq<string>): seq<string> {
    seq(|items|, i requires 0 <= i < |items| => NatToString(i + 1) + ". " + items[i])
  }

  /** One additional section (a sauce, a filling): a blank line, its name
      and its items as bullets. */
  function SectionText(sec: Section): string {
    "\n\n" + sec.name + ":\n" + Join(BulletLines(sec.items), "\n")
  }

  function SectionsText(ss: seq<Section>): string {
    Concat(seq(|ss|, k requires 0 <= k < |ss| => SectionText(ss[k])))
  }

  /** The text above the ingredient list: the name underlined with as many
      '=' as it has characters, the nutrition summary and the heading. */
  function RecipeTop(r: Recipe): string {
    "\n" + r.name + "\n" + Repeat('=', |r.name|) + "\n" + NutritionLine(r.nutritionalInfo) + "\n\nSASTOJCI:"
  }

  /** Lines joined by newlines, with a newline before and after. */
  function Framed(lines: seq<string>): string {
    "\n" + Join(lines, "\n") + "\n"
  }

  /** `_format_recipe(recipe_dict)`. */
  function FormatRecipe(r: Recipe): (s: string)
    ensures StartsWith(s, "\n" + r.name + "\n")
    ensures |s| >= 2 * |r.name| + 2 && forall i :: |r.name| + 2 <= i < 2 * |r.name| + 2 ==> s[i] == '='
    ensures s[|s| - 1] == '\n'
  {
    var s := RecipeTop(r) + Framed(BulletLines(r.ingredients)) + "\nPRIPREMA:" + Framed(NumberedLines(r.instructions))
             + (SectionsText(r.additionalSections) + "\n");
    var a := RecipeTop(r);
    var b := a + Framed(BulletLines(r.ingredients));
    var c := b + "\nPRIPREMA:";
    var d := c + Framed(NumberedLines(r.instructions));
    var z := SectionsText(r.additionalSections) + "\n";
    TopUnderline(r);
    Underlined(a, Framed(BulletLines(r.ingredients)), r.name);
    Underlined(b, "\nPRIPREMA:", r.name);
    Underlined(c, Framed(NumberedLines(r.instructions)), r.name);
    Underlined(d, z, r.name);
    assert s == d + z;
    s
  }

  /** The name line and its underline, at the start of a text. */
  predicate HasUnderlinedName(t: string, name: string) {
    && StartsWith(t, "\n" + name + "\n")
    && |t| >= 2 * |name| + 2
    && forall i :: |name| + 2 <= i < 2 * |name| + 2 ==> t[i] == '='
  }

  lemma Underlined(t: string, u: string, name: string)
    requires HasUnderlinedName(t, name)
    ensures HasUnderlinedName(t + u, name)
  {
    assert (t + u)[..|name| + 2] == t[..|name| + 2];
  }

  /** The top starts with the name on a line of its own, underlined. */
  lemma TopUnderline(r: Recipe)
    ensures HasUnderlinedName(RecipeTop(r), r.name)
  {
    var head := "\n" + r.name + "\n";
    var tail := "\n" + NutritionLine(r.nutritionalInfo) + "\n\nSASTOJCI:";
    assert RecipeTop(r) == head + Repeat('=', |r.name|) + tail;
    PrefixThenRun(head, '=', |r.name|, tail);
  }

  lemma PrefixThenRun(a: string, c: char, n: nat, b: string)
    ensures StartsWith(a + Repeat(c, n) + b, a)
    ensures |a + Repeat(c, n) + b| >= |a| + n
    ensures forall i :: |a| <= i < |a| + n ==> (a + Repeat(c, n) + b)[i] == c
  {
    var s := a + Repeat(c, n) + b;
    assert s[..|a|] == a;
    assert forall i :: |a| <= i < |a| + n ==> s[i] == Repeat(c, n)[i - |a|];
  }

  /** Every ingredient is a bullet line, every instruction a line numbered
      from 1 in order, and every additional section has its heading line. */
  lemma RecipeLayout(r: Recipe)
    ensures forall i :: 0 <= i < |r.ingredients| ==> Contains(FormatRecipe(r), "\n• " + r.ingredients[i] + "\n")
    ensures forall i :: 0 <= i < |r.instructions| ==>
              Contains(FormatRecipe(r), "\n" + NatToString(i + 1) + ". " + r.instructions[i] + "\n")
    ensures forall k :: 0 <= k < |r.additionalSections| ==>
              Contains(FormatRecipe(r), "\n\n" + r.additionalSections[k].name + ":\n")
  {
    forall i | 0 <= i < |r.ingredients|
      ensures Contains(FormatRecipe(r), "\n• " + r.ingredients[i] + "\n")
    {
      IngredientLine(r, i);
    }
    forall i | 0 <= i < |r.instructions|
      ensures Contains(FormatRecipe(r), "\n" + NatToString(i + 1) + ". " + r.instructions[i] + "\n")
    {
      InstructionLine(r, i);
    }
    forall k | 0 <= k < |r.additionalSections|
      ensures Contains(FormatRecipe(r), "\n\n" + r.additionalSections[k].name + ":\n")
    {
      SectionHeading(r, k);
    }
  }

  lemma IngredientLine(r: Recipe, i: nat)
    requires i < |r.ingredients|
    ensures Contains(FormatRecipe(r), "\n• " + r.ingredients[i] + "\n")
  {
    var lines := BulletLines(r.ingredients);
    var line := "\n• " + r.ingredients[i] + "\n";
    JoinFramed(lines, "\n", i);
    assert "\n" + lines[i] + "\n" == line;
    var a := RecipeTop(r);
    var b := Framed(lines);
    var c := "\nPRIPREMA:";
    var d := Framed(NumberedLines(r.instructions));
    var e := SectionsText(r.additionalSections) + "\n";
    InSuffix(a, b, line);
    InPrefix(a + b, c, line);
    InPrefix(a + b + c, d, line);
    InPrefix(a + b + c + d, e, line);
  }

  lemma InstructionLine(r: Recipe, i: nat)
    requires i < |r.instructions|
    ensures Contains(FormatRecipe(r), "\n" + NatToString(i + 1) + ". " + r.instructions[i] + "\n")
  {
    var lines := NumberedLines(r.instructions);
    var line := "\n" + NatToString(i + 1) + ". " + r.instructions[i] + "\n";
    JoinFramed(lines, "\n", i);
    assert lines[i] == NatToString(i + 1) + ". " + r.instructions[i];
    assert "\n" + lines[i] + "\n" == line;
    var abc := RecipeTop(r) + Framed(BulletLines(r.ingredients)) + "\nPRIPREMA:";
    var d := Framed(lines);
    var e := SectionsText(r.additionalSections) + "\n";
    InSuffix(abc, d, line);
    InPrefix(abc + d, e, line);
  }

  lemma SectionHeading(r: Recipe, k: nat)
    requires k < |r.additionalSections|
    ensures Contains(FormatRecipe(r), "\n\n" + r.additionalSections[k].name + ":\n")
  {
    var ss := r.additionalSections;
    var parts := seq(|ss|, j requires 0 <= j < |ss| => SectionText(ss[j]));
    var heading := "\n\n" + ss[k].name + ":\n";
    ConcatContains(parts, k);
    ContainsSelf(heading);
    InPrefix(heading, Join(BulletLines(ss[k].items), "\n"), heading);
    assert parts[k] == heading + Join(BulletLines(ss[k].items), "\n");
    ContainsTransitive(Concat(parts), parts[k], heading);
    var abcd := RecipeTop(r) + Framed(BulletLines(r.ingredients)) + "\nPRIPREMA:" + Framed(NumberedLines(r.instructions));
    InPrefix(Concat(parts), "\n", heading);
    InSuffix(abcd, Concat(parts) + "\n", heading);
  }

  // ---------------------------------------------------------------------
  // A daily plan
  // ---------------------------------------------------------------------

  /** One meal of a daily plan: a banner with the meal type in capitals and
      the recipe, or a line saying there is no suggestion. */
  function SlotText(s: MealSlot): string {
    match s.recipe
    case Some(r) => "\n===== " + Upper(s.mealType) + " =====\n" + FormatRecipe(r)
    case None => "\n" + Capitalize(s.mealType) + ": Nema predloga."
  }

  function DailyHeader(d: Date): string
    requires IsCalendarDate(d)
  {
    "Evo predloga za " + FormatDmy(d) + ":\n"
  }

  const NoDailyPlanMessage: string := "Nema dostupnih predloga za taj dan."

  /** The `meal_plan_daily` branch of `_format_response`. */
  function FormatDaily(plan: DailyPlan): (s: string)
    requires IsCalendarDate(plan.date)
    ensures StartsWith(s, DailyHeader(plan.date))
    ensures |plan.meals| == 0 ==> s == DailyHeader(plan.date) + NoDailyPlanMessage
    ensures forall i :: 0 <= i < |plan.meals| ==> Contains(s, SlotText(plan.meals[i]))
  {
    var head := DailyHeader(plan.date);
    if |plan.meals| == 0 then
      var s := head + NoDailyPlanMessage;
      assert s[..|head|] == head;
      s
    else
      var parts := seq(|plan.meals|, i requires 0 <= i < |plan.meals| => SlotText(plan.meals[i]));
      var s := head + Concat(parts);
      assert s[..|head|] == head;
      ConcatContainsAll(head, parts);
      assert forall i :: 0 <= i < |plan.meals| ==> parts[i] == SlotText(plan.meals[i]);
      s
  }

  /** Each meal of the day shows up: a planned recipe under its banner with
      its full text, a missing one as "Nema predloga.". */
  lemma DailyShowsEveryMeal(plan: DailyPlan, i: nat)
    requires IsCalendarDate(plan.date) && i < |plan.meals|
    ensures var s := FormatDaily(plan);
            var m := plan.meals[i];
            && (m.recipe.Some? ==> Contains(s, "\n===== " + Upper(m.mealType) + " =====\n")
                                   && Contains(s, FormatRecipe(m.recipe.value)))
            && (m.recipe.None? ==> Contains(s, "\n" + Capitalize(m.mealType) + ": Nema predloga."))
  {
    var m := plan.meals[i];
    var s := FormatDaily(plan);
    assert Contains(s, SlotText(m));
    SlotPieces(m);
    if m.recipe.Some? {
      ContainsTransitive(s, SlotText(m), "\n===== " + Upper(m.mealType) + " =====\n");
      ContainsTransitive(s, SlotText(m), FormatRecipe(m.recipe.value));
    } else {
      ContainsTransitive(s, SlotText(m), "\n" + Capitalize(m.mealType) + ": Nema predloga.");
    }
  }

  /** The banner and the recipe text of a meal occur in its text. */
  lemma SlotPieces(m: MealSlot)
    ensures m.recipe.Some? ==> Contains(SlotText(m), "\n===== " + Upper(m.mealType) + " =====\n")
                               && Contains(SlotText(m), FormatRecipe(m.recipe.value))
    ensures m.recipe.None? ==> Contains(SlotText(m), "\n" + Capitalize(m.mealType) + ": Nema predloga.")
  {
    if m.recipe.Some? {
      var banner := "\n===== " + Upper(m.mealType) + " =====\n";
      var body := FormatRecipe(m.recipe.value);
      assert SlotText(m) == banner + body;
      InPrefix(banner, body, banner) by { ContainsSelf(banner); }
      InSuffix(banner, body, body) by { ContainsSelf(body); }
    } else {
      ContainsSelf(SlotText(m));
    }
  }

  // ---------------------------------------------------------------------
  // A weekly plan
  // ---------------------------------------------------------------------

  /** `date.weekday()` indexes these names. */
  const DayNames: seq<string> := ["Ponedeljak", "Utorak", "Sreda", "Četvrtak", "Petak", "Subota", "Nedelja"]

  /** The exception `_format_response` lets through: `strptime` rejected a key. */
  datatype FormatError = BadDateKey(key: string)

  /** One meal of a weekly plan: the meal type and the recipe's name. */
  function MealLine(s: MealSlot): string {
    match s.recipe
    case Some(r) => Capitalize(s.mealType) + ": " + r.name + "\n"
    case None => Capitalize(s.mealType) + ": Nema predloga\n"
  }

  function DayHeader(d: Date): string
    requires Valid(d)
  {
    "--- " + DayNames[Weekday(d)] + " (" + FormatDmy(d) + ") ---\n"
  }

  /** One day of the week: its name and date, its meals and a blank line;
      None when its key is not a `%Y-%m-%d` date. */
  function DayBlock(e: DayEntry): (r: Option<string>)
    ensures r.None? <==> ParseIso(e.key).None?
  {
    match ParseIso(e.key)
    case None => None
    case Some(d) =>
      Some(DayHeader(d) + Concat(seq(|e.plan.meals|, i requires 0 <= i < |e.plan.meals| => MealLine(e.plan.meals[i]))) + "\n")
  }

  /** The days in order; the first bad key stops the formatting. */
  function FormatDays(es: seq<DayEntry>): (r: Result<string, FormatError>)
    decreases |es|
    ensures r.Err? <==> exists k :: 0 <= k < |es| && DayBlock(es[k]).None?
    ensures r.Err? ==> exists k :: 0 <= k < |es| && r.error == BadDateKey(es[k].key) && DayBlock(es[k]).None?
                                   && forall j :: 0 <= j < k ==> DayBlock(es[j]).Some?
    ensures r.Ok? ==> forall k :: 0 <= k < |es| ==> Contains(r.value, DayBlock(es[k]).value)
  {
    if |es| == 0 then Ok("")
    else match DayBlock(es[0])
      case None => Err(BadDateKey(es[0].key))
      case Some(a) =>
        match FormatDays(es[1..])
        case Err(e) =>
          LaterBadKey(es, e);
          Err(e)
        case Ok(b) =>
          DaysContained(es, a, b);
          Ok(a + b)
  }

  /** A bad key found in the rest of the days is a bad key of all of them,
      and still the first. */
  lemma LaterBadKey(es: seq<DayEntry>, e: FormatError)
    requires |es| > 0 && DayBlock(es[0]).Some?
    requires exists k :: 0 <= k < |es| - 1 && e == BadDateKey(es[1..][k].key) && DayBlock(es[1..][k]).None?
                         && forall j :: 0 <= j < k ==> DayBlock(es[1..][j]).Some?
    ensures exists k :: 0 <= k < |es| && e == BadDateKey(es[k].key) && DayBlock(es[k]).None?
                        && forall j :: 0 <= j < k ==> DayBlock(es[j]).Some?
  {
    var k :| 0 <= k < |es| - 1 && e == BadDateKey(es[1..][k].key) && DayBlock(es[1..][k]).None?
             && forall j :: 0 <= j < k ==> DayBlock(es[1..][j]).Some?;
    assert es[1..][k] == es[k + 1];
    forall j | 0 <= j < k + 1
      ensures DayBlock(es[j]).Some?
    {
      if j > 0 {
        assert es[1..][j - 1] == es[j];
      }
    }
  }

  lemma DaysContained(es: seq<DayEntry>, a: string, b: string)
    requires |es| > 0 && DayBlock(es[0]) == Some(a)
    requires forall k :: 0 <= k < |es| - 1 ==> DayBlock(es[1..][k]).Some? && Contains(b, DayBlock(es[1..][k]).value)
    ensures forall k :: 0 <= k < |es| ==> DayBlock(es[k]).Some? && Contains(a + b, DayBlock(es[k]).value)
  {
    forall k | 0 <= k < |es|
      ensures DayBlock(es[k]).Some? && Contains(a + b, DayBlock(es[k]).value)
    {
      if k == 0 {
        ContainsSelf(a);
        InPrefix(a, b, a);
      } else {
        var e := es[1..][k - 1];
        assert e == es[k];
        InSuffix(a, b, DayBlock(e).value);
      }
    }
  }

  const NoWeeklyPlanMessage: string := "Nema dostupnih predloga za nedelju."
  const WeeklyHeader: string := "Nedeljni plan obroka:\n\n"
  const WeeklyFooter: string := "Za detalje o receptu, pitajte za konkretan dan i obrok."

  /** The `meal_plan_weekly` branch of `_format_response`. */
  function FormatWeekly(es: seq<DayEntry>): (r: Result<string, FormatError>)
    ensures |es| == 0 ==> r == Ok(NoWeeklyPlanMessage)
    ensures r.Err? <==> exists k :: 0 <= k < |es| && ParseIso(es[k].key).None?
    ensures r.Ok? && |es| > 0 ==> StartsWith(r.value, WeeklyHeader)
    ensures r.Ok? ==> forall k :: 0 <= k < |es| ==> Contains(r.value, DayBlock(es[k]).value)
  {
    if |es| == 0 then Ok(NoWeeklyPlanMessage)
    else match FormatDays(es)
      case Err(e) => Err(e)
      case Ok(days) =>
        var s := WeeklyHeader + days + WeeklyFooter;
        assert s[..|WeeklyHeader|] == WeeklyHeader;
        assert s == WeeklyHeader + days + WeeklyFooter;
        ContainsMiddle(WeeklyHeader, days, WeeklyFooter);
        forall k | 0 <= k < |es| ensures Contains(s, DayBlock(es[k]).value) {
          ContainsTransitive(s, days, DayBlock(es[k]).value);
        }
        Ok(s)
  }

  // ---------------------------------------------------------------------
  // Any response
  // ---------------------------------------------------------------------

  const GeneralErrorMessage: string := "Izvinite, došlo je do greške."
  const NotUnderstoodMessage: string := "Izvinite, ne razumem vaš zahtev."

  /** A daily plan's date is a real date, as Python's date objects are. */
  predicate Printable(r: Response) {
    r.MealPlanDaily? ==> IsCalendarDate(r.daily.date)
  }

  function DraftText(d: Draft): string {
    "Predlog odgovora za " + d.sender + ":\n\n" + d.draftResponse
  }

  /** `_format_response(response_data)`. */
  function FormatResponse(r: Response): (s: Result<string, FormatError>)
    requires Printable(r)
    ensures r.General? ==> s == Ok(r.message.GetOr(GeneralErrorMessage))
    ensures r.MealPlanDaily? ==> s == Ok(FormatDaily(r.daily))
    ensures r.MealPlanWeekly? ==> s == FormatWeekly(r.weekly)
    ensures r.MessageDraft? ==> s.Ok? && StartsWith(s.value, "Predlog odgovora za " + r.draft.sender + ":\n\n")
                                && |s.value| >= |r.draft.draftResponse|
                                && s.value[|s.value| - |r.draft.draftResponse|..] == r.draft.draftResponse
    ensures r.OtherType? ==> s == Ok(NotUnderstoodMessage)
    ensures s.Err? ==> r.MealPlanWeekly?
  {
    match r
    case General(m) => Ok(m.GetOr(GeneralErrorMessage))
    case MealPlanDaily(plan) => Ok(FormatDaily(plan))
    case MealPlanWeekly(es) => FormatWeekly(es)
    case MessageDraft(d) =>
      var t := DraftText(d);
      var head := "Predlog odgovora za " + d.sender + ":\n\n";
      assert t == head + d.draftResponse;
      assert t[..|head|] == head;
      assert t[|t| - |d.draftResponse|..] == d.draftResponse;
      Ok(t)
    case OtherType => Ok(NotUnderstoodMessage)
  }

  // ---------------------------------------------------------------------
  // Formatting what the processor answers
  // ---------------------------------------------------------------------

  /** Every response the processor gives can be printed. */
  lemma ProcessedIsPrintable(sv: Services, text: string, today: Date, draws: seq<seq<MealDraws>>)
    requires Valid(today)
    ensures Printable(ProcessRequest(sv, text, today, draws))
  {
    if ProcessRequest(sv, text, today, draws).MealPlanDaily? {
      DailyRequest(sv, text, today, draws);
    }
  }

  /** A week planned from day `d` prints without error as long as its days,
      and the day after them that the planning loop steps to, lie within
      year 9999. It shows its seven days in calendar order: day
      `k` under the weekday name `k` places after the first day's, with its
      date. The week a request asks for is such a week
      (`Intents.WeeklyRequest`). */
  lemma PlannedWeekPrints(sv: Services, d: Date, today: Date, draws: seq<seq<MealDraws>>)
    requires Valid(today) && IsCalendarDate(d) && forall k :: 0 <= k <= WeekLength ==> Valid(AddDays(d, k))
    ensures var out := FormatWeekly(GenerateWeeklyPlan(sv.recipes, sv.prefs, DateValue(d), today, draws));
            && out.Ok?
            && StartsWith(out.value, WeeklyHeader)
            && forall k :: 0 <= k < WeekLength ==>
                 Contains(out.value, DayHeader(AddDays(d, k)))
                 && Weekday(AddDays(d, k)) == (Weekday(d) + k) % 7
  {
    WeekKeysParse(sv, d, today, draws);
    DaysPrint(GenerateWeeklyPlan(sv.recipes, sv.prefs, DateValue(d), today, draws), d);
  }

  /** The keys of a planned week parse back to its seven consecutive days. */
  lemma WeekKeysParse(sv: Services, d: Date, today: Date, draws: seq<seq<MealDraws>>)
    requires Valid(today) && IsCalendarDate(d) && forall k :: 0 <= k <= WeekLength ==> Valid(AddDays(d, k))
    ensures var week := GenerateWeeklyPlan(sv.recipes, sv.prefs, DateValue(d), today, draws);
            forall k :: 0 <= k < WeekLength ==> Valid(AddDays(d, k)) && ParseIso(week[k].key) == Some(AddDays(d, k))
  {
    assert WeekStart(DateValue(d), today) == d;
    forall k | 0 <= k < WeekLength
      ensures Valid(AddDays(d, k))
              && ParseIso(GenerateWeeklyPlan(sv.recipes, sv.prefs, DateValue(d), today, draws)[k].key) == Some(AddDays(d, k))
    {
      WeekDaysConsecutive(sv.recipes, sv.prefs, DateValue(d), today, draws, k);
    }
  }

  /** Seven entries keyed by consecutive valid days print without error,
      each under its day's name and date. */
  lemma DaysPrint(week: seq<DayEntry>, d: Date)
    requires |week| == WeekLength && IsCalendarDate(d)
    requires forall k :: 0 <= k < WeekLength ==> Valid(AddDays(d, k)) && ParseIso(week[k].key) == Some(AddDays(d, k))
    ensures var out := FormatWeekly(week);
            && out.Ok?
            && StartsWith(out.value, WeeklyHeader)
            && forall k :: 0 <= k < WeekLength ==>
                 Contains(out.value, DayHeader(AddDays(d, k)))
                 && Weekday(AddDays(d, k)) == (Weekday(d) + k) % 7
  {
    var out := FormatWeekly(week);
    assert out.Ok?;
    forall k | 0 <= k < WeekLength
      ensures Contains(out.value, DayHeader(AddDays(d, k)))
              && Weekday(AddDays(d, k)) == (Weekday(d) + k) % 7
    {
      DayShowsHeader(week[k], AddDays(d, k));
      ContainsTransitive(out.value, DayBlock(week[k]).value, DayHeader(AddDays(d, k)));
      WeekdayAfter(d, k);
    }
  }

  /** A day's block opens with its header. */
  lemma DayShowsHeader(e: DayEntry, day: Date)
    requires Valid(day) && ParseIso(e.key) == Some(day)
    ensures DayBlock(e).Some? && Contains(DayBlock(e).value, DayHeader(day))
  {
    var head := DayHeader(day);
    var meals := Concat(seq(|e.plan.meals|, i requires 0 <= i < |e.plan.meals| => MealLine(e.plan.meals[i])));
    assert DayBlock(e).value == head + meals + "\n";
    ContainsSelf(head);
    InPrefix(head, meals, head);
    InPrefix(head + meals, "\n", head);
  }
}
