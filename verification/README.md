# Serbian personal assistant core, modelled in Dafny

The assistant takes a request written in Serbian, decides by keywords what the
user wants, and hands it to one of two services:

- the **meal planner** suggests a daily plan (breakfast, lunch and dinner, or
  just the meal the user named) or a seven-day plan. It draws recipes from a recipe
  collection, filters them by the user's preferences, falls back to a random sample
  when nothing fits, and ranks what is left by favourite cuisine, favourite recipe
  and recent use;
- the **message assistant** drafts a reply to a message from a fixed template. The
  template depends on what the message is about (a question, a meeting request,
  thanks or a plain statement) and on the user's communication style (formal,
  casual or friendly).

The model covers:

- keyword intent classification and the slot extractors (date, meal type,
  recipient, quoted message text);
- the recipe collection with its dictionary and file form, and the user
  preferences;
- the planner's filter, fallback sample, ranking, and daily and weekly plans;
- the message assistant's reply templates;
- the text formatter that turns a response into what the user reads.

Every operation is a pure function. The two places where the code does not do
what it evidently means to are listed under "Findings". There the code as written
is modelled next to the corrected version. The rest of the model uses the
corrected version; "Left out" names the members this affects.

- **Clock.** The current date is a `today: Date` parameter.
- **Randomness.** `random.shuffle` and `random.sample` read an explicit sequence
  of draws. Each group shuffle and each meal slot gets its own sequence, so the
  draws for one step do not constrain another.
- **Regular expressions.** The source's patterns are written as data for a small
  backtracking matcher (`Regex`). It supports the constructs they use: literals,
  character classes with greedy and lazy repetition, alternation, capture groups,
  lookahead and `$`. It matches leftmost-first, as Python's `re` does.

The files follow the components:

| file | contents |
|---|---|
| `options.dfy` | `Option` and `Result` |
| `text.dfy` | characters, case mapping, substrings, trimming, numbers |
| `regex.dfy` | the matcher |
| `calendar.dfy` | proleptic Gregorian dates and ISO format |
| `slots.dfy` | `core/utils.py` |
| `recipes.dfy` | `Recipe` and `RecipeDatabase` |
| `preferences.dfy` | `UserPreferences` |
| `shuffling.dfy` | shuffle and sample |
| `ranking.dfy` | the ranking |
| `planner.dfy` | `meal_planner/service.py` |
| `messages.dfy` | `message_assistant/service.py` |
| `intents.dfy` | `core/intent_processor.py` |
| `formatter.dfy` | `_format_response` and `_format_recipe` of `assistant/main.py` |

## Model

| member | source | states |
|---|---|---|
| Recipes.NewRecipe | meal_planner/models.py:6-35 | the given fields are kept. A missing nutrition map, tag list or extra-section list becomes empty |
| Recipes.ToDict | meal_planner/models.py:37-53 | the dictionary has exactly the recipe's keys |
| Recipes.FromDict | meal_planner/models.py:125-139 | loading succeeds exactly when `id` and `name` are present and well typed. Those two are copied; a missing `cuisine_type` loads as the empty string |
| Recipes.DictRoundTrip | meal_planner/models.py:125-139 | loading the dictionary a recipe saves to gives back that recipe |
| Recipes.FromDictReadsOnlyRecipeKeys | meal_planner/models.py:125-139 | keys other than the recipe's own are ignored on load |
| Recipes.SaveLoadRoundTrip | meal_planner/models.py:119-143 | loading a saved collection gives back the same recipes in the same order |
| Recipes.GetRecipeById | meal_planner/models.py:149-154 | the result is absent exactly when no recipe has the id. Otherwise it is the first recipe with that id |
| Recipes.AddRecipe | meal_planner/models.py:156-163 | a duplicate id is rejected with that id. Otherwise the recipe is appended and the rest is unchanged |
| Recipes.UpdateRecipe | meal_planner/models.py:165-172 | reports success exactly when the id exists. The first recipe with that id is replaced; nothing changes when the id is unknown |
| Recipes.DeleteRecipe | meal_planner/models.py:174-181 | reports success exactly when the id exists. Only the first recipe with that id is removed; nothing changes when the id is unknown |
| Recipes.AddKeepsIdsUnique | meal_planner/models.py:156-163 | adding keeps ids unique |
| Recipes.UpdateKeepsIdsUnique | meal_planner/models.py:165-172 | updating keeps ids unique |
| Recipes.DeleteKeepsIdsUnique | meal_planner/models.py:174-181 | deleting keeps ids unique |
| Recipes.LookupAfterAdd | meal_planner/models.py:156-163 | after an add, the new id finds the new recipe and other ids find what they found before |
| Recipes.LookupAfterUpdate | meal_planner/models.py:165-172 | after an update, the id finds the new recipe and other ids find what they found before |
| Recipes.LookupAfterDelete | meal_planner/models.py:174-181 | with unique ids, a deleted id is no longer found |
| Recipes.DeleteRemovesOnlyFirst | meal_planner/models.py:174-181 | with a repeated id, the id is still found after one delete |
| Preferences.NewPrefs | meal_planner/models.py:189-196 | a new profile has the user id and every list empty |
| Preferences.AddToMealHistory | meal_planner/models.py:205-210 | the meal becomes the newest entry and the history is capped at 50. Nothing else changes |
| Preferences.HistoryIsNewestSuffix | meal_planner/models.py:205-210 | after any number of additions, the history is the newest 50 of all the meals |
| Preferences.UpdatePreferences | meal_planner/models.py:198-203 | a known field is set to the new value and reported. An unknown field changes nothing and is not reported |
| Preferences.UpdateTwice | meal_planner/models.py:198-203 | setting a field twice is the same as setting it once to the second value |
| Shuffling.ShufflePermutes | meal_planner/service.py:177-179 | a shuffle is a permutation of the group, whatever the draws |
| Shuffling.ShuffleIdentityDraws | meal_planner/service.py:177-179 | each draw picks the current last place, so the order is kept |
| Shuffling.SampleIsSubMultiset | meal_planner/service.py:104-105 | a sample of k has k elements, all taken from the pool without repetition beyond the pool's own |
| Ranking.RecentIds | meal_planner/service.py:149-152 | an id counts as recent exactly when a meal with that id is in the window |
| Ranking.ScoreRange | meal_planner/service.py:136-157 | scores lie in -1..5. A favourite recipe scores at least 2, a recipe that is neither favourite nor of a favourite cuisine at most 0. Each extreme is reached exactly when all of its conditions hold |
| Ranking.SortByScore | meal_planner/service.py:160 | the result is a permutation sorted by descending score |
| Ranking.SortIsStable | meal_planner/service.py:160 | for each score, the recipes with that score keep their input order |
| Ranking.ShuffleGroupsKeepsScores | meal_planner/service.py:163-179 | shuffling within groups keeps the score at every position |
| Ranking.RankScored | meal_planner/service.py:133-181 | the result is a permutation of the scored recipes, sorted by descending score. Each score belongs to its recipe, and the scores at every position equal those of the plain sort |
| Ranking.Rank | meal_planner/service.py:133-181 | the ranked recipes are a permutation of the input in descending score order |
| Ranking.RankScoresIndependentOfDraws | meal_planner/service.py:162-179 | the draws change which recipe comes where within a score, never the score at a position |
| Ranking.RankFirstIsBest | meal_planner/service.py:133-181 | the first ranked recipe scores at least as high as any input recipe |
| Ranking.FavoriteRanksBeforePlain | meal_planner/service.py:139-160 | a favourite recipe always ranks before a recipe that is neither a favourite nor of a favourite cuisine, whatever the draws |
| Planner.ContainsDislikedIngredients | meal_planner/service.py:120-131 | true exactly when some disliked word occurs in some ingredient, ignoring case |
| Planner.DislikedIngredientRejects | meal_planner/service.py:120-131 | one disliked word inside one ingredient rejects the recipe. An empty dislike list rejects nothing |
| Planner.MatchesDietaryRestrictions | meal_planner/service.py:109-118 | every recipe passes the dietary check |
| Planner.Filtered | meal_planner/service.py:86-101 | a recipe is kept exactly when it is in the collection and fits the meal type, the diet and the dislikes |
| Planner.FindSuitable | meal_planner/service.py:77-107 | the result is empty exactly when the collection is. Recipes that fit are returned as filtered. When none fits, a sample of min(3, size) recipes of the collection is returned |
| Planner.PlanMeal | meal_planner/service.py:33-47 | no recipe only for an empty collection. Otherwise the chosen recipe is in the collection, scores at least as high as every candidate, and fits when some recipe fits |
| Planner.Put | meal_planner/service.py:37-47 | storing a meal type already in the plan replaces its slot in place; a new meal type is appended. Every other slot is kept |
| Planner.MealTypesOrDefault | meal_planner/service.py:12-13 | no meal types means breakfast, lunch and dinner |
| Planner.GenerateDailyPlan | meal_planner/service.py:10-49 | the plan's date is the normalised date. Its keys are the requested meal types without repeats, and every slot is sound as PlanMeal states |
| Planner.DailyPlanSlots | meal_planner/service.py:33-47 | with distinct meal types, the plan has exactly one slot per type in the given order |
| Planner.GenerateWeeklyPlan | meal_planner/service.py:51-74 | seven days, each keyed by its ISO date and planned for the default meal types. Every slot of every day is sound as PlanMeal states |
| Planner.WeekDaysConsecutive | meal_planner/service.py:67-72 | day k of the week is the start date plus k days |
| Planner.WeekKeysDistinct | meal_planner/service.py:69-72 | two different days of a week have different keys |
| Calendar.AddDays | meal_planner/service.py:72 | adding n days moves the day count since 1 January of year 1 forward by n |
| Calendar.WeekdayAfter | assistant/main.py:155 | n days later the weekday has moved on by n mod 7 |
| Calendar.IsoRoundTrip | assistant/main.py:154 | parsing a date's ISO text gives back the date |
| Calendar.FormatIsoInjective | meal_planner/service.py:71 | two dates with the same ISO text are equal |
| Calendar.NormalizeDate | meal_planner/service.py:15-26 | a date is kept and ISO text written with ASCII digits is parsed. Text that does not parse, and anything else, becomes today |
| Calendar.NormalizeIsoText | meal_planner/service.py:54-58 | a date given as its own ISO text normalises to itself |
| Slots.ExtractDateAsWritten | core/utils.py:5-48 | the code as written: "danas" gives today, then "sutra" gives tomorrow. With no relative word, a weekday name or the numeric patterns decide. Any date returned is a calendar date |
| Slots.ExtractDate | core/utils.py:5-48 | as intended: "danas" gives today, "prekosutra" the day after tomorrow, then "sutra" tomorrow. With none of them and no weekday name, the numeric patterns decide. Any date returned is a calendar date |
| Slots.CorrectionOnlyAffectsDayAfterTomorrow | core/utils.py:10-15 | the two versions differ exactly on texts that say "prekosutra" without "danas" |
| Slots.DayAfterTomorrowUnreachable | core/utils.py:10-15 | in the code as written, every text containing "prekosutra" also contains "sutra". Such a text gets today or tomorrow, never the day after |
| Slots.DaysAhead | core/utils.py:26-29 | the offset to a weekday is between 1 and 7 and lands on that weekday |
| Slots.WeekdayDateIsNextOccurrence | core/utils.py:18-30 | a weekday name gives the next day, 1 to 7 days ahead, on which that weekday falls |
| Slots.NumericDate | core/utils.py:33-46 | a date read from digits is a real calendar date |
| Slots.DateFromGroups | core/utils.py:41-46 | the groups make a real calendar date. A missing year is the current year |
| Slots.ExtractMealType | core/utils.py:50-65 | the meal type returned is the first whose variants occur in the lower-cased text. None means no variant occurs |
| Slots.ExtractRecipientAsWritten | core/utils.py:67-80 | the code as written: a recipient found is stripped and occurs in the text |
| Slots.ExtractRecipient | core/utils.py:67-80 | with the reply pattern as intended: a recipient found is stripped and occurs in the text |
| Slots.ReplyForReadsNameAsWritten | core/utils.py:71 | the code as written: "odgovori za " and a name without spaces gives that name |
| Slots.ReplyForReadsName | core/utils.py:71 | the intended pattern gives the same name for "odgovori za " and a name |
| Slots.ReplyToReadsName | core/utils.py:69-71 | the intended pattern: "odgovori " and a name without spaces gives that name, as the example "odgovori Marku" promises |
| Slots.ReplyToFailsAsWritten | core/utils.py:69-71 | the code as written: "odgovori " and a name without spaces finds no recipient |
| Slots.MessageForReadsNameAsWritten | core/utils.py:69-78 | the code as written: "poruka za " and a non-empty name without spaces gives that name, as the example "poruka za Janu" promises; the reply pattern does not match such a text |
| Slots.MessageForReadsName | core/utils.py:69-78 | the intended pattern gives the same name for "poruka za " and a non-empty name without spaces |
| Messages.AnalyzeMessageIntent | message_assistant/service.py:27-39 | a question mark makes a question; otherwise a meeting word makes a meeting request; otherwise thanks make gratitude; otherwise it is a general statement. Each holds in both directions |
| Messages.IntentIgnoresCase | message_assistant/service.py:27-39 | for text in the exactly case-mapped range, upper-casing the message does not change its intent |
| Messages.StyleOf | message_assistant/service.py:72 | "formal" and "friendly" name their styles, and every other name is casual |
| Messages.GenerateResponse | message_assistant/service.py:41-72 | the reply opens with the style's greeting to the sender, holds the body and the sign-off that the message's intent and the style select, and ends with the user's name |
| Messages.FormalReplyGreeting | message_assistant/service.py:41-72 | a formal profile's reply opens "Poštovani" and the sender |
| Messages.DefaultReplyGreeting | message_assistant/service.py:6 | a profile without a style replies casually, opening "Zdravo" and the sender |
| Messages.UnknownStyleIsCasual | message_assistant/service.py:72 | an unknown style gives word for word the casual reply |
| Messages.DraftResponse | message_assistant/service.py:8-25 | the draft keeps the message and sender, has confidence 0.8, and holds the reply for the message's intent |
| Messages.QuestionGetsQuestionReply | message_assistant/service.py:44-49 | a question answered casually thanks for the question |
| Intents.Classify | core/intent_processor.py:27-52 | a meal word makes meal planning; otherwise a message word makes messaging; otherwise unknown. The first verb group that occurs picks the detail. Each holds in both directions |
| Intents.ClassifyIgnoresCase | core/intent_processor.py:29 | for text in the exactly case-mapped range, upper- or lower-casing the request does not change its class |
| Intents.DraftWordsAreMessageWords | core/intent_processor.py:42-49 | a draft verb other than "sastavi", with no meal word, always makes a draft request |
| Intents.ExtractMessageContent | core/intent_processor.py:121-135 | content found is stripped and occurs in the request |
| Intents.QuotedContent | core/intent_processor.py:124-135 | with no double quote before the first pair, the content is the trimmed text between them, whatever follows |
| Intents.RequestDate | core/intent_processor.py:58-61 | the date found in the request, or today |
| Intents.HandleMealPlanning | core/intent_processor.py:54-92 | a suggestion asking for a week gives a weekly plan from the request's date, and any other suggestion a daily plan. Viewing and anything else give their fixed messages |
| Intents.HandleMessaging | core/intent_processor.py:94-119 | a draft exactly when the request is a draft request with a recipient and non-empty content. The draft is for that recipient and that content. A draft request without them gets the message asking for recipient and content; any other messaging request gets the help message |
| Intents.ProcessRequest | core/intent_processor.py:11-25 | the request goes to the handler its class names; an unknown request gets the fixed reply |
| Intents.Route | core/intent_processor.py:14-25 | each class is sent to its handler |
| Intents.RouteShape | core/intent_processor.py:14-25 | for any intent: no unknown response type, general replies carry a message, a daily or weekly plan exactly for a suggestion intent without or with a week, a draft only for the draft intent |
| Intents.ProcessRequestShape | core/intent_processor.py:11-25 | a response is never of an unknown type, and general replies carry a message. Daily and weekly plans come exactly from suggestion requests with or without a week; drafts come only from draft requests |
| Intents.RouteWeekly | core/intent_processor.py:68-72 | a weekly response is the weekly plan from the request's date |
| Intents.RouteDaily | core/intent_processor.py:74-80 | a daily response is the daily plan for the request's date and meal type |
| Intents.DailyRequest | core/intent_processor.py:74-80 | the same, stated of the whole request |
| Intents.WeeklyRequest | core/intent_processor.py:68-72 | the same for weekly responses, stated of the whole request |
| Intents.DailySuggestionSlots | core/intent_processor.py:56-80 | a daily plan is for the request's date. It holds the one meal type named, or the three defaults (breakfast, lunch, dinner) |
| Intents.WeeklySuggestionStart | core/intent_processor.py:68-72 | a weekly plan has seven days and starts on the request's date |
| Intents.DraftComesFromRequest | core/intent_processor.py:96-114 | a draft's recipient and original message are non-empty and taken from the request. The reply greets that recipient |
| Formatter.NutritionLine | assistant/main.py:77-82 | empty exactly when there is no nutrition data. Otherwise the line starts with the calories and ends with the fats' "M" |
| Formatter.FormatRecipe | assistant/main.py:70-112 | the text opens with the name underlined by as many "=" and ends in a newline |
| Formatter.RecipeLayout | assistant/main.py:85-111 | every ingredient has its bullet line, every instruction its numbered line, every extra section its heading |
| Formatter.FormatDaily | assistant/main.py:121-143 | the text opens with the date header, says there is no plan when there are no meals, and holds every slot |
| Formatter.DailyShowsEveryMeal | assistant/main.py:126-141 | each planned meal appears under its upper-cased heading with its recipe. A meal without a recipe says so under its capitalised name |
| Formatter.DayBlock | assistant/main.py:151-166 | a day prints exactly when its key parses as an ISO date |
| Formatter.FormatDays | assistant/main.py:151-166 | fails exactly when some key does not parse, and names the first such key. Otherwise every day's block is in the text |
| Formatter.FormatWeekly | assistant/main.py:145-168 | no days gives the fixed message. It fails exactly when a key does not parse; otherwise the text opens with the weekly header and holds every day |
| Formatter.FormatResponse | assistant/main.py:114-176 | each response type prints as the source lays it out. A draft shows its recipient and ends with the reply; only a weekly plan can fail |
| Formatter.ProcessedIsPrintable | assistant/main.py:114-176 | every response the processor returns meets the formatter's precondition. A weekly response can still fail to print |
| Formatter.PlannedWeekPrints | assistant/main.py:145-168 | a week generated from a start whose seven days and the day after them are valid dates prints without error. Day k shows its own date header, and its weekday is k days after the start's |
| Formatter.DayShowsHeader | assistant/main.py:153-156 | a day's block holds the header for its date |

## Left out

- Case mapping matches Python's `str.lower` and `str.upper` on ASCII, Latin-1,
  Latin Extended-A and basic Cyrillic (U+0400 to U+045F), which hold every
  Serbian letter in both alphabets. Six characters there are left unmapped:
  µ, ı and ſ, which Python maps to a single character elsewhere (Μ, I, S), and
  ß, İ and ŉ, which Python maps to two characters. Other scripts are not
  case-mapped. `Text.CaseExact` names the characters where the model is exact.
- Messages.IntentIgnoresCase: stated only for text that is `Text.CaseExactText`.
  Outside it Python's mapping differs from the model's, and the claim fails for
  the source: "pozıv" upper-cases to "POZIV", which lowers to a meeting word.
- Intents.ClassifyIgnoresCase: stated only for text that is `Text.CaseExactText`,
  for the same reason. "jeſti" upper-cases to "JESTI", which lowers to a meal
  word.
- `re.IGNORECASE` is modelled as comparing lower-case forms. Python's matcher
  also equates a few further pairs, such as ſ with s and the Kelvin sign with k.
- Years above 9999 are not modelled. Python raises `OverflowError` when a date
  would pass 9999-12-31, and `strftime` padding beyond four digits is not
  modelled either.
- Planner.GenerateWeeklyPlan: returns the seven days for every start date. The
  source's loop adds one day after storing the seventh (meal_planner/service.py:72),
  so a week starting on or after 9999-12-25 raises `OverflowError` and nothing is
  printed. Intents.ProcessRequest returns a weekly plan there too.
  Formatter.PlannedWeekPrints and Formatter.WeekKeysParse therefore require the
  day after the week to be a valid date as well.
- JSON values of the wrong kind are not modelled: a name that is a number, a tag
  list that is a string. The dictionary form is typed by field.
- `update_preferences` uses `hasattr`, which also accepts methods and private
  attributes. Only the six data fields are modelled; setting any other attribute
  counts as unknown.
- `Recipe.from_pdf_format` and the PDF recipe import: parsing PDFs is outside the
  core.
- File reading and writing, printing, logging, loading the user profile and
  `_log_interaction` are left out. Loading and saving are modelled on the parsed
  JSON value.
- The probability distribution of `random.shuffle` and `random.sample` is left
  out. The model fixes which outcomes are possible, not how likely they are.
- A `meal_type` of `None` on a recipe is the empty-or-absent case. The model does
  not treat it as text.
- The plan holds the `Recipe` itself rather than the `to_dict` form the formatter
  reads. `Recipes.DictRoundTrip` relates the two.
- A draw missing from a draw sequence counts as 0. The model does not say how
  many draws the generator supplies.
- The `AttributeError` that `group(1)` would raise on a match without that group
  cannot happen with these patterns, so it is not modelled.
- Nutrition values are kept as text, as the formatter prints them.
- The formatter's defaults for missing keys ('Nepoznato jelo', 'primaoca', 'danas')
  never apply to responses the processor builds, so they are left out.
- The weekly plan's dictionary is a sequence of (date key, plan) entries in
  insertion order.
- `additional_sections` is a sequence of named sections in insertion order.
- Recipes.ToDict: states only which keys the dictionary has. Its values are pinned
  down by Recipes.DictRoundTrip.
- Slots.NumericDate: states only that the result is a calendar date. It does not
  state which digits were read; that is the regex matcher's behaviour. Digits
  are ASCII only. Python's `\d` and `int()` also accept other Unicode decimal
  digits, such as fullwidth ones, which the model treats as non-digits.
- Calendar.ParseIso: digits are ASCII only. Python's `strptime` reads `%Y`, `%m`
  and `%d` with Unicode `\d` and `int()`, so it also accepts other decimal
  digits, such as fullwidth ones. The model gives None for such text. Through
  it, Calendar.NormalizeDate falls back to today where the source plans the
  written date, for example `generate_daily_plan("２０２４-01-05")`
  (meal_planner/service.py:16-18, and :54-56 for a week). Requests never reach
  this: Intents.ProcessRequest always passes a date.
- Calendar.FormatIso and Calendar.FormatDmy: follow current CPython, whose `%Y`
  zero-pads years below 1000. Older CPython builds on Linux print "999"; the
  weekly formatter's `strptime` (assistant/main.py:154) then rejects that key,
  so such a week would not print there.
- Recipes.FromDict: a record missing "id" or "name" is rejected, so loading the
  collection fails. The source reads both with `.get` and loads such a record
  with `None` in that field. The model's `Recipe` has no absent id or name.
- Slots.ExtractRecipient: uses the corrected reply pattern (see "Findings"). A
  request "odgovori Marku" gets the recipient "Marku", where the source finds
  none. The same holds for everything built on it: Intents.HandleMessaging,
  Intents.ProcessRequest, Intents.Route, Intents.RouteShape, Intents.ProcessRequestShape,
  Intents.DraftComesFromRequest and Formatter.ProcessedIsPrintable. Which words
  the patterns pick is stated for the reply forms "odgovori za" and "odgovori"
  followed by one word, and for "poruka za" followed by one word; other texts
  are described only as stripped text taken from the request.
- Slots.ExtractRecipientAsWritten: which words the code as written picks is
  stated for "odgovori za" followed by one word, for "odgovori" followed by one
  word (none is found) and for "poruka za" followed by one word. The forms with
  "na", "od", "odgovor" or "mail", names of several words and a trailing
  " na ..." are described only as stripped text taken from the request.
- Intents.RequestDate: uses the corrected Slots.ExtractDate. A request that says
  "prekosutra" without "danas" is planned for today plus two days, where the
  source plans it for tomorrow. The same holds for everything built on it:
  Intents.HandleMealPlanning, Intents.ProcessRequest, Intents.Route,
  Intents.RouteDaily, Intents.RouteWeekly, Intents.DailyRequest,
  Intents.WeeklyRequest, Intents.DailySuggestionSlots and
  Intents.WeeklySuggestionStart.
- Intents.ExtractMessageContent: which text is picked is stated for quoted
  text (Intents.QuotedContent). For the "na poruku" and "odgovori na" patterns
  the content is described only as stripped text taken from the request.

## Findings

| source | as written | input that shows it | evidently intended | confidence | as-written member | corrected member |
|---|---|---|---|---|---|---|
| core/utils.py:12-15 | "sutra" is checked before "prekosutra", and "prekosutra" contains "sutra", so the day-after-tomorrow branch is dead | "planiraj ručak za prekosutra" gives tomorrow's date | "prekosutra" gives today plus two days | high, not executed | Slots.DayAfterTomorrowUnreachable | Slots.ExtractDate |
| core/utils.py:69-71 | the reply pattern is "odgovori", one space, an optional "za" or "na", then `\s+`. With no "za" or "na" it needs two whitespace characters | "odgovori Marku", the example in the comment above the patterns, finds no recipient | one space, then optionally "za" or "na" followed by whitespace, then the name | medium, not executed | Slots.ReplyToFailsAsWritten | Slots.ReplyToReadsName |
