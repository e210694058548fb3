/** The intent processor (core/intent_processor.py): classify a request by
    keywords, pull out what the chosen service needs, and hand it over to the
    meal planner or the message assistant. */
module Intents {
  import opened Options
  import opened Text
  import opened Regex
  import opened Calendar
  import opened Slots
  import opened Recipes
  import opened Preferences
  import opened Planner
  import opened Messages

  // ---------------------------------------------------------------------
  // Classification
  // ---------------------------------------------------------------------

  const MealKeywords: seq<string> :=
    ["obrok", "jelo", "recept", "ručak", "večera", "doručak", "hrana", "jesti", "rucak", "vecera", "dorucak"]
  const SuggestVerbs: seq<string> :=
    ["planiraj", "predloži", "preporuči", "napravi", "predlozi", "preporuci", "daj", "spremiti"]
  const MealViewVerbs: seq<string> := ["pokaži", "prikaži", "vidi", "pokazi", "prikazi", "videti"]
  const MessageKeywords: seq<string> :=
    ["poruka", "odgovori", "napiši", "pošalji", "mail", "email", "komuniciranje", "napisi", "posalji"]
  const DraftVerbs: seq<string> := ["sastavi", "napiši", "odgovori", "napisi"]
  const MessageViewVerbs: seq<string> := ["pogledaj", "prikaži", "vidi", "pokazi", "prikazi"]

  datatype MealKind = Suggest | ViewPlans | MealGeneral
  datatype MessageKind = DraftReply | ViewMessages | MessageGeneral

  /** The category and detail `_classify_intent` returns. */
  datatype Intent = MealPlanning(meal: MealKind) | Messaging(message: MessageKind) | Unknown

  /** `_classify_intent(text)`: a meal word makes it meal planning, refined by
      the first verb group that occurs; otherwise a message word makes it
      messaging, refined the same way; otherwise unknown. */
  function Classify(text: string): (i: Intent)
    ensures i.MealPlanning? <==> ContainsAny(Lower(text), MealKeywords)
    ensures i.Messaging? <==> !ContainsAny(Lower(text), MealKeywords) && ContainsAny(Lower(text), MessageKeywords)
    ensures i.MealPlanning? ==>
              (i.meal == Suggest <==> ContainsAny(Lower(text), SuggestVerbs))
              && (i.meal == ViewPlans <==> !ContainsAny(Lower(text), SuggestVerbs) && ContainsAny(Lower(text), MealViewVerbs))
    ensures i.Messaging? ==>
              (i.message == DraftReply <==> ContainsAny(Lower(text), DraftVerbs))
              && (i.message == ViewMessages <==> !ContainsAny(Lower(text), DraftVerbs) && ContainsAny(Lower(text), MessageViewVerbs))
  {
    var t := Lower(text);
    if ContainsAny(t, MealKeywords) then
      if ContainsAny(t, SuggestVerbs) then MealPlanning(Suggest)
      else if ContainsAny(t, MealViewVerbs) then MealPlanning(ViewPlans)
      else MealPlanning(MealGeneral)
    else if ContainsAny(t, MessageKeywords) then
      if ContainsAny(t, DraftVerbs) then Messaging(DraftReply)
      else if ContainsAny(t, MessageViewVerbs) then Messaging(ViewMessages)
      else Messaging(MessageGeneral)
    else Unknown
  }

  /** Classification does not depend on letter case, for text whose case
      mapping is modelled exactly. */
  lemma ClassifyIgnoresCase(text: string)
    requires CaseExactText(text)
    ensures Classify(Upper(text)) == Classify(text)
    ensures Classify(Lower(text)) == Classify(text)
  {
    LowerOfUpper(text);
    LowerIdempotent(text);
  }

  /** Every message word that also asks for a draft ("odgovori", "napiši")
      classifies a text without meal words as a draft request. */
  lemma DraftWordsAreMessageWords(text: string, j: nat)
    requires j < |DraftVerbs| && Contains(Lower(text), DraftVerbs[j])
    requires !ContainsAny(Lower(text), MealKeywords)
    requires DraftVerbs[j] != "sastavi"
    ensures Classify(text) == Messaging(DraftReply)
  {
    DraftVerbIsMessageWord(j);
    ContainsListed(Lower(text), DraftVerbs[j], MessageKeywords);
  }

  /** The draft verbs other than "sastavi" are message words too. */
  lemma DraftVerbIsMessageWord(j: nat)
    requires j < |DraftVerbs| && DraftVerbs[j] != "sastavi"
    ensures DraftVerbs[j] in MessageKeywords
  {
  }

  // ---------------------------------------------------------------------
  // Message content
  // ---------------------------------------------------------------------

  /** `"([^"]*)"`: text between double quotes. */
  function QuotedPattern(): seq<Node> {
    [Lit('"')] + QuotedRest()
  }

  /** The pattern after its opening quote. */
  function QuotedRest(): seq<Node> {
    [Open(1)] + ([Star(NotChar('"'))] + ([Close(1)] + [Lit('"')]))
  }

  /** `(?=\s*$|\s+od|\s+kome)`: the content stops at the end, or before
      "od" or "kome". */
  function ContentEnd(): Node {
    Ahead([Branch([Star(Space), End]), Branch([Plus(Space)] + Word("od")), Branch([Plus(Space)] + Word("kome"))])
  }

  /** `<lead>[:\s]+(.+?)(?=...)`: text after a lead phrase. */
  function AfterPattern(lead: string): seq<Node> {
    Word(lead) + [Rep(OneOf([':'], true), 1, None, true), Open(1), LazyPlus(AnyButNewline), Close(1), ContentEnd()]
  }

  function ContentPatterns(): seq<seq<Node>> {
    [QuotedPattern(), AfterPattern("na poruku"), AfterPattern("odgovori na")]
  }

  /** `_extract_message_content(text)`: the stripped group 1 of the first
      pattern that matches, ignoring case. */
  function ExtractMessageContent(text: string): (r: Option<string>)
    ensures r.Some? ==> Trim(r.value) == r.value && Contains(text, r.value)
  {
    FirstStrippedCapture(ContentPatterns(), text, 0)
  }

  // ---------------------------------------------------------------------
  // Reading the quoted content
  // ---------------------------------------------------------------------

  /** Double quotes at `i` and `j`, and none before `j` except the one at `i`. */
  predicate QuotedAt(s: string, i: nat, j: nat) {
    && i < j < |s| && s[i] == '"' && s[j] == '"'
    && (forall k :: 0 <= k < j && k != i ==> s[k] != '"')
  }

  /** The quoted pattern fails before the first double quote. */
  lemma QuoteFailsBefore(s: string, i: nat, j: nat, p: nat)
    requires QuotedAt(s, i, j) && p < i
    ensures Match(QuotedPattern(), s, true, Start(p)) == None
  {
    CharEqNonLetter(s[p], '"', true);
    LitFails('"', QuotedRest(), s, true, Start(p));
  }

  /** The state after the quoted pattern: group 1 spans the quoted text. */
  function QuotedState(i: nat, j: nat): State {
    State(j + 1, map[1 := i + 1], map[1 := Span(i + 1, j)])
  }

  /** From the first double quote, the group runs to the next one. */
  lemma QuoteMatchesAt(s: string, i: nat, j: nat)
    requires QuotedAt(s, i, j)
    ensures Match(QuotedPattern(), s, true, Start(i)) == Some(QuotedState(i, j))
  {
    CharEqNonLetter(s[i], '"', true);
    LitStep('"', QuotedRest(), s, true, Start(i));
    var st := Start(i).(pos := i + 1);
    OpenStep(1, [Star(NotChar('"'))] + ([Close(1)] + [Lit('"')]), s, true, st);
    QuotedRun(s, i, j, st.(open := st.open[1 := i + 1]));
  }

  lemma QuotedRun(s: string, i: nat, j: nat, st: State)
    requires QuotedAt(s, i, j) && st == State(i + 1, map[1 := i + 1], map[])
    ensures Match([Star(NotChar('"'))] + ([Close(1)] + [Lit('"')]), s, true, st) == Some(QuotedState(i, j))
  {
    RunStops(NotChar('"'), s, i + 1, j);
    QuoteCloses(s, i, j, st.(pos := j));
    StarTakesAll(NotChar('"'), [Close(1)] + [Lit('"')], s, true, st);
  }

  lemma QuoteCloses(s: string, i: nat, j: nat, t: State)
    requires QuotedAt(s, i, j) && t == State(j, map[1 := i + 1], map[])
    ensures Match([Close(1)] + [Lit('"')], s, true, t) == Some(QuotedState(i, j))
  {
    CloseStep(1, [Lit('"')], s, true, t);
    var t' := State(j, map[1 := i + 1], map[1 := Span(i + 1, j)]);
    assert t.(spans := t.spans[1 := Span(t.open[1], t.pos)]) == t';
    CharEqNonLetter(s[j], '"', true);
    LitStep('"', [], s, true, t');
  }

  lemma QuotedFinds(s: string, i: nat, j: nat)
    requires QuotedAt(s, i, j)
    ensures ExtractMessageContent(s) == Some(Trim(s[i + 1..j]))
  {
    forall p | 0 <= p < i ensures Match(QuotedPattern(), s, true, Start(p)) == None {
      QuoteFailsBefore(s, i, j, p);
    }
    SearchFromSkips(QuotedPattern(), s, true, 0, i);
    QuoteMatchesAt(s, i, j);
    assert Search(QuotedPattern(), s, true) == Some(QuotedState(i, j));
    assert Group(s, QuotedState(i, j), 1) == Some(s[i + 1..j]);
    assert ContentPatterns()[0] == QuotedPattern();
  }

  /** Text in double quotes is the content, whatever follows the closing
      quote. */
  lemma QuotedContent(a: string, m: string, b: string)
    requires forall k :: 0 <= k < |a| ==> a[k] != '"'
    requires forall k :: 0 <= k < |m| ==> m[k] != '"'
    ensures ExtractMessageContent(a + "\"" + m + "\"" + b) == Some(Trim(m))
  {
    var s := a + "\"" + m + "\"" + b;
    var i, j := |a|, |a| + 1 + |m|;
    forall k | 0 <= k < j && k != i ensures s[k] != '"' {
      if k < i {
        assert s[k] == a[k];
      } else {
        assert s[k] == m[k - i - 1];
      }
    }
    assert s[i] == '"' && s[j] == '"';
    assert s[i + 1..j] == m;
    QuotedFinds(s, i, j);
  }

  // ---------------------------------------------------------------------
  // Responses
  // ---------------------------------------------------------------------

  /** The response dictionary, by its "response_type". A general response
      may lack its "message" key and an unrecognised type may occur, as far
      as the formatter is concerned. */
  datatype Response =
    | General(message: Option<string>)
    | MealPlanDaily(daily: DailyPlan)
    | MealPlanWeekly(weekly: seq<DayEntry>)
    | MessageDraft(draft: Draft)
    | OtherType

  const UnknownMessage: string :=
    "Trenutno mogu da vam pomognem oko planiranja obroka i poruka. Kako vam mogu pomoći u vezi sa tim?"
  const ViewPlansMessage: string :=
    "Funkcionalnost pregleda postojećih planova obroka će biti dostupna uskoro."
  const MealHelpMessage: string :=
    "Mogu vam pomoći da isplanirate obroke. Recite mi za koji dan ili obrok želite predlog."
  const DraftMissingMessage: string :=
    "Možete li mi reći kome i na koju poruku želite da odgovorite?"
  const MessageHelpMessage: string :=
    "Mogu vam pomoći da sastavite odgovor na poruke. Molim vas da mi kažete čiju poruku i kako da odgovorim."

  /** The services the processor hands requests to. */
  datatype Services = Services(recipes: seq<Recipe>, prefs: Prefs, profile: Profile)

  /** The text asks for a whole week. */
  predicate AsksForWeek(text: string) {
    Contains(Lower(text), "nedelj") || Contains(Lower(text), "sedmic")
  }

  /** The day a suggestion is for: the date in the text, or today. */
  function RequestDate(text: string, today: Date): (d: Date)
    requires Valid(today)
    ensures IsCalendarDate(d)
    ensures ExtractDate(text, today).Some? ==> d == ExtractDate(text, today).value
    ensures ExtractDate(text, today).None? ==> d == today
  {
    ExtractDate(text, today).GetOr(today)
  }

  /** `[meal_type] if meal_type else None`; the planner treats an empty
      list like None. */
  function RequestedMealTypes(text: string): (ts: seq<string>)
    ensures ExtractMealType(text).Some? ==> ts == [ExtractMealType(text).value]
    ensures ExtractMealType(text).None? ==> ts == []
  {
    match ExtractMealType(text)
    case Some(m) => [m]
    case None => []
  }

  /** `_handle_meal_planning(intent_type, text)`. Day `k` of a week, or the
      single day, is planned with `draws[k]`. */
  function HandleMealPlanning(s: Services, kind: MealKind, text: string, today: Date,
                              draws: seq<seq<MealDraws>>): (r: Response)
    requires Valid(today)
    ensures r.MealPlanWeekly? <==> kind == Suggest && AsksForWeek(text)
    ensures r.MealPlanDaily? <==> kind == Suggest && !AsksForWeek(text)
    ensures kind == ViewPlans ==> r == General(Some(ViewPlansMessage))
    ensures kind == MealGeneral ==> r == General(Some(MealHelpMessage))
    ensures kind == Suggest && AsksForWeek(text) ==>
              r == MealPlanWeekly(GenerateWeeklyPlan(s.recipes, s.prefs, DateValue(RequestDate(text, today)), today, draws))
    ensures kind == Suggest && !AsksForWeek(text) ==>
              r == MealPlanDaily(GenerateDailyPlan(s.recipes, s.prefs, DateValue(RequestDate(text, today)),
                                                   RequestedMealTypes(text), today, DayDraws(draws, 0)))
  {
    match kind
    case Suggest =>
      var date := DateValue(RequestDate(text, today));
      if AsksForWeek(text) then MealPlanWeekly(GenerateWeeklyPlan(s.recipes, s.prefs, date, today, draws))
      else MealPlanDaily(GenerateDailyPlan(s.recipes, s.prefs, date, RequestedMealTypes(text), today, DayDraws(draws, 0)))
    case ViewPlans => General(Some(ViewPlansMessage))
    case MealGeneral => General(Some(MealHelpMessage))
  }

  /** `_handle_messaging(intent_type, text)`: a draft needs both a non-empty
      recipient and a non-empty message to answer. */
  function HandleMessaging(s: Services, kind: MessageKind, text: string): (r: Response)
    ensures r.MessageDraft? || r.General?
    ensures r.MessageDraft? <==>
              kind == DraftReply && ExtractRecipient(text).Some? && ExtractRecipient(text).value != ""
              && ExtractMessageContent(text).Some? && ExtractMessageContent(text).value != ""
    ensures r.MessageDraft? ==>
              r.draft == DraftResponse(s.profile, ExtractMessageContent(text).value, ExtractRecipient(text).value)
    ensures !r.MessageDraft? ==>
              r == General(Some(if kind == DraftReply then DraftMissingMessage else MessageHelpMessage))
  {
    if kind == DraftReply then
      var recipient := ExtractRecipient(text);
      var original := ExtractMessageContent(text);
      if recipient.Some? && recipient.value != "" && original.Some? && original.value != ""
      then MessageDraft(DraftResponse(s.profile, original.value, recipient.value))
      else General(Some(DraftMissingMessage))
    else General(Some(MessageHelpMessage))
  }

  /** `process_request(text)` with the clock's date as `today`. */
  function ProcessRequest(s: Services, text: string, today: Date, draws: seq<seq<MealDraws>>): (r: Response)
    requires Valid(today)
    ensures Classify(text).MealPlanning? ==> r == HandleMealPlanning(s, Classify(text).meal, text, today, draws)
    ensures Classify(text).Messaging? ==> r == HandleMessaging(s, Classify(text).message, text)
    ensures Classify(text).Unknown? ==> r == General(Some(UnknownMessage))
  {
    Route(s, Classify(text), text, today, draws)
  }

  /** The handler an intent is dispatched to. */
  function Route(s: Services, c: Intent, text: string, today: Date, draws: seq<seq<MealDraws>>): (r: Response)
    requires Valid(today)
    ensures c.MealPlanning? ==> r == HandleMealPlanning(s, c.meal, text, today, draws)
    ensures c.Messaging? ==> r == HandleMessaging(s, c.message, text)
    ensures c.Unknown? ==> r == General(Some(UnknownMessage))
  {
    match c
    case MealPlanning(kind) => HandleMealPlanning(s, kind, text, today, draws)
    case Messaging(kind) => HandleMessaging(s, kind, text)
    case Unknown => General(Some(UnknownMessage))
  }

  /** Only a meal-planning class can give a plan. */
  lemma RoutePlansOnlyMeals(s: Services, c: Intent, text: string, today: Date, draws: seq<seq<MealDraws>>)
    requires Valid(today)
    ensures Route(s, c, text, today, draws).MealPlanDaily? || Route(s, c, text, today, draws).MealPlanWeekly?
            ==> c.MealPlanning?
  {
    RouteShape(s, c, text, today, draws);
  }

  /** A weekly response comes from a suggestion and is the week from the
      requested day. */
  lemma RouteWeekly(s: Services, c: Intent, text: string, today: Date, draws: seq<seq<MealDraws>>)
    requires Valid(today)
    requires Route(s, c, text, today, draws).MealPlanWeekly?
    ensures Route(s, c, text, today, draws).weekly
            == GenerateWeeklyPlan(s.recipes, s.prefs, DateValue(RequestDate(text, today)), today, draws)
  {
    RoutePlansOnlyMeals(s, c, text, today, draws);
    assert Route(s, c, text, today, draws) == HandleMealPlanning(s, c.meal, text, today, draws);
  }


  /** A daily response comes from a suggestion and is the plan for the
      requested day and meal types. */
  lemma RouteDaily(s: Services, c: Intent, text: string, today: Date, draws: seq<seq<MealDraws>>)
    requires Valid(today)
    requires Route(s, c, text, today, draws).MealPlanDaily?
    ensures Route(s, c, text, today, draws).daily
            == GenerateDailyPlan(s.recipes, s.prefs, DateValue(RequestDate(text, today)), RequestedMealTypes(text), today, DayDraws(draws, 0))
  {
    RoutePlansOnlyMeals(s, c, text, today, draws);
    assert Route(s, c, text, today, draws) == HandleMealPlanning(s, c.meal, text, today, draws);
  }


  /** What the processor can answer: a general response always carries its
      message and no other response type occurs; a plan comes only from a
      suggestion request, a draft only from a draft request. */
  lemma ProcessRequestShape(s: Services, text: string, today: Date, draws: seq<seq<MealDraws>>)
    requires Valid(today)
    ensures var r := ProcessRequest(s, text, today, draws);
            && !r.OtherType?
            && (r.General? ==> r.message.Some?)
            && (r.MealPlanDaily? <==> Classify(text) == MealPlanning(Suggest) && !AsksForWeek(text))
            && (r.MealPlanWeekly? <==> Classify(text) == MealPlanning(Suggest) && AsksForWeek(text))
            && (r.MessageDraft? ==> Classify(text) == Messaging(DraftReply))
  {
    RouteShape(s, Classify(text), text, today, draws);
  }

  /** The shape of a response, for any intent it is routed by. */
  lemma RouteShape(s: Services, c: Intent, text: string, today: Date, draws: seq<seq<MealDraws>>)
    requires Valid(today)
    ensures var r := Route(s, c, text, today, draws);
            && !r.OtherType?
            && (r.General? ==> r.message.Some?)
            && (r.MealPlanDaily? <==> c == MealPlanning(Suggest) && !AsksForWeek(text))
            && (r.MealPlanWeekly? <==> c == MealPlanning(Suggest) && AsksForWeek(text))
            && (r.MessageDraft? ==> c == Messaging(DraftReply))
  {
    match c
    case MealPlanning(kind) =>
    case Messaging(kind) =>
    case Unknown =>
  }

  /** A drafted reply answers someone named in the request, about text
      quoted from it, in the user's style. */
  lemma DraftComesFromRequest(s: Services, text: string, today: Date, draws: seq<seq<MealDraws>>)
    requires Valid(today)
    requires ProcessRequest(s, text, today, draws).MessageDraft?
    ensures var d := ProcessRequest(s, text, today, draws).draft;
            && d.sender != "" && Contains(text, d.sender) && Trim(d.sender) == d.sender
            && d.originalMessage != "" && Contains(text, d.originalMessage)
            && StartsWith(d.draftResponse, Greeting(ProfileStyle(s.profile), d.sender))
  {
    RouteShape(s, Classify(text), text, today, draws);
    HandledDraftFromRequest(s, text);
  }

  /** The messaging handler's draft answers the recipient and the content it
      read from the request. */
  lemma HandledDraftFromRequest(s: Services, text: string)
    requires HandleMessaging(s, DraftReply, text).MessageDraft?
    ensures var d := HandleMessaging(s, DraftReply, text).draft;
            && d.sender != "" && Contains(text, d.sender) && Trim(d.sender) == d.sender
            && d.originalMessage != "" && Contains(text, d.originalMessage)
            && StartsWith(d.draftResponse, Greeting(ProfileStyle(s.profile), d.sender))
  {
  }

  /** A daily suggestion is for the day the text names (today when it names
      none) and has a slot for the meal it names, or for breakfast, lunch
      and dinner. */
  lemma DailySuggestionSlots(s: Services, text: string, today: Date, draws: seq<seq<MealDraws>>)
    requires Valid(today)
    requires ProcessRequest(s, text, today, draws).MealPlanDaily?
    ensures var plan := ProcessRequest(s, text, today, draws).daily;
            && plan.date == RequestDate(text, today)
            && (ExtractMealType(text).Some? ==> Keys(plan.meals) == [ExtractMealType(text).value])
            && (ExtractMealType(text).None? ==> Keys(plan.meals) == DefaultMealTypes)
  {
    var types := RequestedMealTypes(text);
    DailyRequest(s, text, today, draws);
    DistinctKeys(types);
  }

  /** The daily response is the plan for the requested day and meal types. */
  lemma DailyRequest(s: Services, text: string, today: Date, draws: seq<seq<MealDraws>>)
    requires Valid(today)
    requires ProcessRequest(s, text, today, draws).MealPlanDaily?
    ensures ProcessRequest(s, text, today, draws).daily
            == GenerateDailyPlan(s.recipes, s.prefs, DateValue(RequestDate(text, today)), RequestedMealTypes(text), today, DayDraws(draws, 0))
  {
    RouteDaily(s, Classify(text), text, today, draws);
  }

  /** One requested meal type, or the default three, each get one slot. */
  lemma DistinctKeys(types: seq<string>)
    requires |types| <= 1
    ensures Dedup([], MealTypesOrDefault(types)) == MealTypesOrDefault(types)
  {
    DefaultMealTypesDistinct();
    assert [] + MealTypesOrDefault(types) == MealTypesOrDefault(types);
    DedupOfDistinct([], MealTypesOrDefault(types));
  }

  /** A week asked for starts on the day the text names, or today. */
  lemma WeeklySuggestionStart(s: Services, text: string, today: Date, draws: seq<seq<MealDraws>>)
    requires Valid(today)
    requires ProcessRequest(s, text, today, draws).MealPlanWeekly?
    ensures var week := ProcessRequest(s, text, today, draws).weekly;
            |week| == WeekLength && week[0].plan.date == RequestDate(text, today)
  {
    ProcessRequestShape(s, text, today, draws);
    var d := RequestDate(text, today);
    var week := ProcessRequest(s, text, today, draws).weekly;
    assert week == GenerateWeeklyPlan(s.recipes, s.prefs, DateValue(d), today, draws);
    assert week[0].plan.date == AddDays(d, 0);
  }

  /** The weekly response is the week from the requested day. */
  lemma WeeklyRequest(sv: Services, text: string, today: Date, draws: seq<seq<MealDraws>>)
    requires Valid(today)
    requires ProcessRequest(sv, text, today, draws).MealPlanWeekly?
    ensures ProcessRequest(sv, text, today, draws).weekly
            == GenerateWeeklyPlan(sv.recipes, sv.prefs, DateValue(RequestDate(text, today)), today, draws)
  {
    RouteWeekly(sv, Classify(text), text, today, draws);
  }
}
