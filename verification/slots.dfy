/** Slot extraction from free text (core/utils.py): the requested date, the
    meal type and the recipient of a reply. The clock is the `today`
    parameter. */
module Slots {
  import opened Options
  import opened Text
  import opened Regex
  import opened Calendar

  // ---------------------------------------------------------------------
  // Dates
  // ---------------------------------------------------------------------

  /** Weekday names in the order the lookup tries them; the index is the
      `weekday()` number of the day. */
  const WeekdayNames: seq<string> :=
    ["ponedeljak", "utorak", "sreda", "četvrtak", "petak", "subota", "nedelja"]

  /** The first weekday name, from index `k` on, that occurs in `t`. */
  function FirstWeekdayName(t: string, k: nat): (r: Option<nat>)
    requires k <= 7
    decreases 7 - k
    ensures r.Some? ==> k <= r.value < 7 && Contains(t, WeekdayNames[r.value])
    ensures r.Some? ==> forall j :: k <= j < r.value ==> !Contains(t, WeekdayNames[j])
    ensures r.None? ==> forall j :: k <= j < 7 ==> !Contains(t, WeekdayNames[j])
  {
    if k == 7 then None
    else if Contains(t, WeekdayNames[k]) then Some(k)
    else FirstWeekdayName(t, k + 1)
  }

  /** Days from a day with weekday `todayWd` to the next day with weekday
      `dayNum`: a whole week when it is the same weekday, never zero. */
  function DaysAhead(dayNum: nat, todayWd: nat): (k: nat)
    requires dayNum < 7 && todayWd < 7
    ensures 1 <= k <= 7
    ensures (todayWd + k) % 7 == dayNum
  {
    var ahead := dayNum - todayWd;
    if ahead <= 0 then ahead + 7 else ahead
  }

  /** `(\d{1,2})<sep>(\d{1,2})(?:<sep>(\d{4}))?` with groups day, month, year. */
  function DatePattern(sep: char): seq<Node> {
    [Open(1), Rep(Digit, 1, Some(2), true), Close(1), Lit(sep),
     Open(2), Rep(Digit, 1, Some(2), true), Close(2),
     Alt([Branch([Lit(sep), Open(3), Rep(Digit, 4, Some(4), true), Close(3)]), Branch([])])]
  }

  /** The separators of the two numeric date patterns, in the order tried. */
  const DateSeparators: seq<char> := ['.', '/']

  /** Python's `int(s)` on a captured digit run; None would be a ValueError
      (the groups above only ever capture digits). */
  function ToInt(s: string): (r: Option<nat>)
    ensures r.Some? <==> |s| > 0 && AllDigits(s)
  {
    if |s| > 0 && AllDigits(s) then Some(DigitsValue(s)) else None
  }

  /** The date built from the day, month and optional year groups of a match,
      the year defaulting to the current one; None where `datetime(...)`
      raises ValueError. */
  function DateFromGroups(day: Option<string>, month: Option<string>, year: Option<string>, today: Date): (r: Option<Date>)
    requires Valid(today)
    ensures r.Some? ==> Valid(r.value)
    ensures year.None? && r.Some? ==> r.value.year == today.year
  {
    var y := if year.Some? then ToInt(year.value) else Some(today.year as nat);
    var m := if month.Some? then ToInt(month.value) else None;
    var d := if day.Some? then ToInt(day.value) else None;
    if y.Some? && m.Some? && d.Some? && Valid(Date(y.value, m.value, d.value))
    then Some(Date(y.value, m.value, d.value))
    else None
  }

  /** The numeric patterns, from index `k` on: the first pattern whose first
      match is a valid date; a match that is not a valid date moves on to
      the next pattern. */
  function NumericDate(text: string, k: nat, today: Date): (r: Option<Date>)
    requires Valid(today)
    decreases |DateSeparators| - k
    ensures r.Some? ==> Valid(r.value)
  {
    if k >= |DateSeparators| then None
    else
      var found := match Search(DatePattern(DateSeparators[k]), text, false)
        case None => None
        case Some(st) => DateFromGroups(Group(text, st, 1), Group(text, st, 2), Group(text, st, 3), today);
      if found.Some? then found else NumericDate(text, k + 1, today)
  }

  /** The rest of `extract_date` once no relative word matched: a weekday
      name, else the numeric patterns. */
  function WeekdayOrNumericDate(text: string, today: Date): (r: Option<Date>)
    requires Valid(today)
    ensures r.Some? ==> IsCalendarDate(r.value)
    ensures FirstWeekdayName(Lower(text), 0).None? ==> r == NumericDate(text, 0, today)
  {
    match FirstWeekdayName(Lower(text), 0)
    case Some(dayNum) => Some(AddDays(today, DaysAhead(dayNum, Weekday(today))))
    case None =>
      var n := NumericDate(text, 0, today);
      if n.Some? then Some(n.value) else None
  }

  /** `extract_date(text)` as written, with `datetime.now()` replaced by
      `today`: "danas", then "sutra", then "prekosutra" are checked. */
  function ExtractDateAsWritten(text: string, today: Date): (r: Option<Date>)
    requires Valid(today)
    ensures r.Some? ==> IsCalendarDate(r.value)
    ensures Contains(Lower(text), "danas") ==> r == Some(today)
    ensures !Contains(Lower(text), "danas") && Contains(Lower(text), "sutra") ==> r == Some(AddDays(today, 1))
    ensures !Contains(Lower(text), "danas") && !Contains(Lower(text), "sutra") && !Contains(Lower(text), "prekosutra")
            ==> r == WeekdayOrNumericDate(text, today)
  {
    var t := Lower(text);
    if Contains(t, "danas") then Some(today)
    else if Contains(t, "sutra") then Some(AddDays(today, 1))
    else if Contains(t, "prekosutra") then Some(AddDays(today, 2))
    else WeekdayOrNumericDate(text, today)
  }

  /** "prekosutra" contains "sutra", so the day-after-tomorrow branch of the
      code as written is never taken: such a text yields tomorrow (or today,
      when it also says "danas"). */
  lemma DayAfterTomorrowUnreachable(text: string, today: Date)
    requires Valid(today)
    requires Contains(Lower(text), "prekosutra")
    ensures ExtractDateAsWritten(text, today) == Some(if Contains(Lower(text), "danas") then today else AddDays(today, 1))
  {
    ContainsAt("prekosutra", "sutra", 5);
    ContainsTransitive(Lower(text), "prekosutra", "sutra");
  }

  /** `extract_date(text)` as intended: "prekosutra" is checked before the
      "sutra" it contains, so it yields the day after tomorrow. */
  function ExtractDate(text: string, today: Date): (r: Option<Date>)
    requires Valid(today)
    ensures r.Some? ==> IsCalendarDate(r.value)
    ensures Contains(Lower(text), "danas") ==> r == Some(today)
    ensures !Contains(Lower(text), "danas") && Contains(Lower(text), "prekosutra") ==> r == Some(AddDays(today, 2))
    ensures !Contains(Lower(text), "danas") && !Contains(Lower(text), "prekosutra") && Contains(Lower(text), "sutra")
            ==> r == Some(AddDays(today, 1))
    ensures !Contains(Lower(text), "danas") && !Contains(Lower(text), "sutra") && !Contains(Lower(text), "prekosutra")
            && FirstWeekdayName(Lower(text), 0).None?
            ==> r == NumericDate(text, 0, today)
  {
    var t := Lower(text);
    if Contains(t, "danas") then Some(today)
    else if Contains(t, "prekosutra") then Some(AddDays(today, 2))
    else if Contains(t, "sutra") then Some(AddDays(today, 1))
    else WeekdayOrNumericDate(text, today)
  }

  /** The correction changes exactly the texts that say "prekosutra" without
      "danas"; every other text gets the date the code as written gives it. */
  lemma CorrectionOnlyAffectsDayAfterTomorrow(text: string, today: Date)
    requires Valid(today)
    ensures ExtractDate(text, today) == ExtractDateAsWritten(text, today)
            <==> Contains(Lower(text), "danas") || !Contains(Lower(text), "prekosutra")
  {
    if Contains(Lower(text), "prekosutra") && !Contains(Lower(text), "danas") {
      DayAfterTomorrowUnreachable(text, today);
      assert Ordinal(AddDays(today, 1)) != Ordinal(AddDays(today, 2));
    }
  }

  /** A weekday name gives the next day with that weekday: strictly after
      today and at most a week ahead. */
  lemma WeekdayDateIsNextOccurrence(text: string, today: Date)
    requires Valid(today)
    requires !Contains(Lower(text), "danas") && !Contains(Lower(text), "sutra") && !Contains(Lower(text), "prekosutra")
    requires FirstWeekdayName(Lower(text), 0).Some?
    ensures ExtractDate(text, today).Some?
    ensures Ordinal(today) < Ordinal(ExtractDate(text, today).value) <= Ordinal(today) + 7
    ensures Weekday(ExtractDate(text, today).value) == FirstWeekdayName(Lower(text), 0).value
  {
    var j := FirstWeekdayName(Lower(text), 0).value;
    var k := DaysAhead(j, Weekday(today));
    WeekdayAfter(today, k);
  }

  // ---------------------------------------------------------------------
  // Meal type
  // ---------------------------------------------------------------------

  /** The canonical meal types, in the order they are tried. */
  const MealTypes: seq<string> := ["doručak", "ručak", "večera", "užina"]

  /** The spellings that select each canonical meal type (same index). */
  const MealTypeVariants: seq<seq<string>> := [
    ["doručak", "dorucak", "jutarnji obrok", "ujutru", "dorucak", "jutro"],
    ["ručak", "rucak", "podnevni obrok", "popodne", "rucak"],
    ["večera", "vecera", "večernji obrok", "uveče", "uvece", "vecera"],
    ["užina", "uzina", "snack", "međuobrok", "međuobrok", "uzina"]
  ]

  function FirstMealType(t: string, k: nat): (r: Option<nat>)
    requires k <= 4
    decreases 4 - k
    ensures r.Some? ==> k <= r.value < 4 && ContainsAny(t, MealTypeVariants[r.value])
    ensures r.Some? ==> forall j :: k <= j < r.value ==> !ContainsAny(t, MealTypeVariants[j])
    ensures r.None? ==> forall j :: k <= j < 4 ==> !ContainsAny(t, MealTypeVariants[j])
  {
    if k == 4 then None
    else if ContainsAny(t, MealTypeVariants[k]) then Some(k)
    else FirstMealType(t, k + 1)
  }

  /** `extract_meal_type(text)`: the first canonical meal type one of whose
      spellings occurs in the lower-cased text. */
  function ExtractMealType(text: string): (r: Option<string>)
    ensures r.Some? ==> r.value in MealTypes
    ensures forall j :: 0 <= j < 4 ==>
              (r == Some(MealTypes[j]) <==>
                 ContainsAny(Lower(text), MealTypeVariants[j])
                 && forall i :: 0 <= i < j ==> !ContainsAny(Lower(text), MealTypeVariants[i]))
    ensures r.None? <==> forall j :: 0 <= j < 4 ==> !ContainsAny(Lower(text), MealTypeVariants[j])
  {
    match FirstMealType(Lower(text), 0)
    case Some(j) => Some(MealTypes[j])
    case None => None
  }

  // ---------------------------------------------------------------------
  // Recipient
  // ---------------------------------------------------------------------

  /** `(?=\s+na|\s*$)`: the recipient ends before " na" or at the end. */
  function RecipientEnd(): Node {
    Ahead([Branch([Plus(Space)] + Word("na")), Branch([Star(Space), End])])
  }

  /** `(.+?)(?=\s+na|\s*$)`: the recipient, captured as group 1. */
  function RecipientCapture(): seq<Node> {
    [Open(1), LazyPlus(AnyButNewline), Close(1), RecipientEnd()]
  }

  /** `odgovori (?:za|na)?\s+(.+?)(?=\s+na|\s*$)`, as written: after
      "odgovori " it needs one more whitespace character. */
  function ReplyToPatternAsWritten(): seq<Node> {
    Word("odgovori ") + ([OptionalWords(["za", "na"])] + ([Plus(Space)] + RecipientCapture()))
  }

  /** `odgovori (?:(?:za|na)\s+)?(.+?)(?=\s+na|\s*$)`: "odgovori", one
      space, an optional "za" or "na" with its own whitespace, then the name. */
  function ReplyToPattern(): seq<Node> {
    Word("odgovori ") + ([Alt(LeadBranches())] + RecipientCapture())
  }

  /** `(?:(?:za|na)\s+)?` */
  function LeadBranches(): seq<Branch> {
    [Branch(Word("za") + [Plus(Space)]), Branch(Word("na") + [Plus(Space)]), Branch([])]
  }

  /** `(?:poruka|odgovor|mail) (?:za|od)\s+(.+?)(?=\s+na|\s*$)` */
  function MessageForPattern(): seq<Node> {
    [Words(["poruka", "odgovor", "mail"])] + ([Lit(' ')] + ([Words(["za", "od"])] + ([Plus(Space)] + RecipientCapture())))
  }

  function RecipientPatternsAsWritten(): seq<seq<Node>> {
    [ReplyToPatternAsWritten(), MessageForPattern()]
  }

  function RecipientPatterns(): seq<seq<Node>> {
    [ReplyToPattern(), MessageForPattern()]
  }

  /** The stripped group 1 of the first pattern, from index `k` on, that
      matches `text` case-insensitively. */
  function FirstStrippedCapture(patterns: seq<seq<Node>>, text: string, k: nat): (r: Option<string>)
    decreases |patterns| - k
    ensures r.Some? ==> Trim(r.value) == r.value && Contains(text, r.value)
  {
    if k >= |patterns| then None
    else match Search(patterns[k], text, true)
      case Some(st) =>
        // group 1 takes part in every match of these patterns
        (match Group(text, st, 1)
         case Some(g) =>
           TrimIdempotent(g);
           TrimOccurs(g);
           ContainsTransitive(text, g, Trim(g));
           Some(Trim(g))
         case None => None)
      case None => FirstStrippedCapture(patterns, text, k + 1)
  }

  /** `extract_recipient(text)` as written: the stripped name captured by
      the first recipient pattern that matches, ignoring case. */
  function ExtractRecipientAsWritten(text: string): (r: Option<string>)
    ensures r.Some? ==> Trim(r.value) == r.value && Contains(text, r.value)
  {
    FirstStrippedCapture(RecipientPatternsAsWritten(), text, 0)
  }

  /** `extract_recipient(text)` with the reply pattern as intended. */
  function ExtractRecipient(text: string): (r: Option<string>)
    ensures r.Some? ==> Trim(r.value) == r.value && Contains(text, r.value)
  {
    FirstStrippedCapture(RecipientPatterns(), text, 0)
  }

  // ---------------------------------------------------------------------
  // Reading the recipient patterns
  // ---------------------------------------------------------------------

  /** No whitespace in `s` from position `from` on. */
  predicate SpaceFreeFrom(s: string, from: nat) {
    forall k :: from <= k < |s| ==> !IsSpace(s[k])
  }

  lemma RecipientEndFails(s: string, ignoreCase: bool, t: State)
    requires WellFormed(s, t) && t.pos < |s| && !IsSpace(s[t.pos])
    ensures Match([RecipientEnd()], s, ignoreCase, t) == None
  {
    var alts := [Branch([Plus(Space)] + Word("na")), Branch([Star(Space), End])];
    assert alts[0].nodes + [] == [Plus(Space)] + Word("na");
    assert alts[1].nodes + [] == [Star(Space), End] + [];
    PlusNeedsOne(Space, true, Word("na"), s, ignoreCase, t);
    SpacesToEndFails([], s, ignoreCase, t);
    assert Match(alts[0].nodes + [], s, ignoreCase, t) == None;
    assert Match(alts[1].nodes + [], s, ignoreCase, t) == None;
    assert TryAlts(alts, [], s, ignoreCase, t, 1) == None;
  }

  lemma RecipientEndHolds(s: string, ignoreCase: bool, t: State)
    requires WellFormed(s, t) && t.pos == |s|
    ensures Match([RecipientEnd()], s, ignoreCase, t) == Some(t)
  {
    var alts := [Branch([Plus(Space)] + Word("na")), Branch([Star(Space), End])];
    assert alts[0].nodes + [] == [Plus(Space)] + Word("na");
    assert alts[1].nodes + [] == [Star(Space), End] + [];
    PlusNeedsOne(Space, true, Word("na"), s, ignoreCase, t);
    SpacesToEndHolds([], s, ignoreCase, t);
    assert TryAlts(alts, [], s, ignoreCase, t, 0) == Some(t);
  }

  /** A name without whitespace runs to the end of the text. */
  lemma RecipientToEnd(s: string, ignoreCase: bool, st: State)
    requires WellFormed(s, st) && st.pos < |s| && SpaceFreeFrom(s, st.pos)
    ensures Match(RecipientCapture(), s, ignoreCase, st) == Some(Captured(1, s, st, |s|))
  {
    forall p | st.pos < p < |s|
      ensures Match([RecipientEnd()], s, ignoreCase, Captured(1, s, st, p)) == None
    {
      RecipientEndFails(s, ignoreCase, Captured(1, s, st, p));
    }
    RecipientEndHolds(s, ignoreCase, Captured(1, s, st, |s|));
    LazyToEnd(1, RecipientEnd(), s, ignoreCase, st);
  }

  /** The name captured by pattern `k` from position `p` to the end, stripped. */
  lemma CaptureReadsName(patterns: seq<seq<Node>>, s: string, p: nat, k: nat)
    requires k < |patterns| && p < |s| && SpaceFreeFrom(s, p)
    requires Search(patterns[k], s, true) == Some(Captured(1, s, Start(p), |s|))
    ensures FirstStrippedCapture(patterns, s, k) == Some(s[p..])
  {
    GroupOfCaptured(s, p);
    TrimSpaceFree(s[p..]);
  }

  lemma GroupOfCaptured(s: string, p: nat)
    requires p <= |s|
    ensures Group(s, Captured(1, s, Start(p), |s|), 1) == Some(s[p..])
  {
    var c := Captured(1, s, Start(p), |s|);
    assert 1 in c.spans && c.spans[1] == Span(p, |s|);
    assert s[p..|s|] == s[p..];
  }

  /** No whitespace in `w`, computed character by character. */
  predicate NoSpaces(w: string) {
    |w| == 0 || (!IsSpace(w[0]) && NoSpaces(w[1..]))
  }

  lemma {:induction false} NoSpacesIsSpaceFree(w: string)
    requires NoSpaces(w)
    ensures SpaceFreeFrom(w, 0)
  {
    if |w| > 0 {
      NoSpacesIsSpaceFree(w[1..]);
      forall k | 1 <= k < |w| ensures !IsSpace(w[k]) {
        assert w[k] == w[1..][k - 1];
      }
    }
  }

  /** "odgovori za ", then a name without whitespace. */
  predicate ReplyForShape(s: string) {
    && 12 < |s|
    && WordAt("odgovori ", s, true, 0) && WordAt("za", s, true, 9)
    && IsSpace(s[11]) && SpaceFreeFrom(s, 12)
  }

  /** "odgovori ", then text without whitespace: the ninth character is the
      only whitespace. */
  predicate ReplyToShape(s: string) {
    && 9 <= |s|
    && WordAt("odgovori ", s, true, 0)
    && (forall k :: 0 <= k < |s| && k != 8 ==> !IsSpace(s[k]))
  }

  lemma ReplyForText(n: string)
    requires |n| > 0 && SpaceFreeFrom(n, 0)
    ensures ReplyForShape("odgovori za " + n) && ("odgovori za " + n)[12..] == n
  {
    var s := "odgovori za " + n;
    assert s == "" + "odgovori " + ("za " + n);
    WordAtAfter("", "odgovori ", "za " + n, true);
    assert s == "odgovori " + "za" + (" " + n);
    WordAtAfter("odgovori ", "za", " " + n, true);
    forall k | 12 <= k < |s| ensures !IsSpace(s[k]) {
      assert s[k] == n[k - 12];
    }
  }

  lemma ReplyToText(n: string)
    requires SpaceFreeFrom(n, 0)
    ensures ReplyToShape("odgovori " + n) && ("odgovori " + n)[9..] == n
  {
    var s := "odgovori " + n;
    assert s == "" + "odgovori " + n;
    WordAtAfter("", "odgovori ", n, true);
    assert NoSpaces("odgovori");
    NoSpacesIsSpaceFree("odgovori");
    forall k | 0 <= k < |s| && k != 8 ensures !IsSpace(s[k]) {
      if k >= 9 {
        assert s[k] == n[k - 9];
      } else {
        assert s[k] == "odgovori"[k];
      }
    }
  }

  /** Both reply patterns open with "odgovori ". */
  lemma AfterReplyWord(rest: seq<Node>, s: string)
    requires WordAt("odgovori ", s, true, 0)
    ensures Match(Word("odgovori ") + rest, s, true, Start(0)) == Match(rest, s, true, Start(9))
  {
    MatchWord("odgovori ", rest, s, true, Start(0));
    assert Start(0).(pos := 0 + 9) == Start(9);
  }

  /** "za", one space, and the name from position 12 to the end. */
  lemma ForThenName(s: string)
    requires ReplyForShape(s)
    ensures Match(Word("za") + ([Plus(Space)] + RecipientCapture()), s, true, Start(9))
            == Some(Captured(1, s, Start(12), |s|))
  {
    MatchWord("za", [Plus(Space)] + RecipientCapture(), s, true, Start(9));
    assert Start(9).(pos := 9 + 2) == Start(11);
    PlusTakesOne(Space, RecipientCapture(), s, true, Start(11));
    assert Start(11).(pos := 11 + 1) == Start(12);
    RecipientToEnd(s, true, Start(12));
  }

  lemma ReplyForMatchesAsWritten(s: string)
    requires ReplyForShape(s)
    ensures Match(ReplyToPatternAsWritten(), s, true, Start(0)) == Some(Captured(1, s, Start(12), |s|))
  {
    var rest2 := [Plus(Space)] + RecipientCapture();
    AfterReplyWord([OptionalWords(["za", "na"])] + rest2, s);
    MatchAlt(WordBranches(["za", "na"] + [""]), rest2, s, true, Start(9));
    ForBranchAsWritten(s);
  }

  lemma ForBranchAsWritten(s: string)
    requires ReplyForShape(s)
    ensures TryAlts(WordBranches(["za", "na"] + [""]), [Plus(Space)] + RecipientCapture(), s, true, Start(9), 0)
            == Some(Captured(1, s, Start(12), |s|))
  {
    var alts := WordBranches(["za", "na"] + [""]);
    assert alts[0] == Branch(Word("za"));
    ForThenName(s);
    TryAltsFirst(alts, [Plus(Space)] + RecipientCapture(), s, true, Start(9));
  }

  lemma ReplyForMatches(s: string)
    requires ReplyForShape(s)
    ensures Match(ReplyToPattern(), s, true, Start(0)) == Some(Captured(1, s, Start(12), |s|))
  {
    var rc := RecipientCapture();
    AfterReplyWord([Alt(LeadBranches())] + rc, s);
    MatchAlt(LeadBranches(), rc, s, true, Start(9));
    ForBranch(s);
  }

  lemma ForBranch(s: string)
    requires ReplyForShape(s)
    ensures TryAlts(LeadBranches(), RecipientCapture(), s, true, Start(9), 0) == Some(Captured(1, s, Start(12), |s|))
  {
    var rc := RecipientCapture();
    assert LeadBranches()[0].nodes + rc == Word("za") + ([Plus(Space)] + rc);
    ForThenName(s);
    TryAltsFirst(LeadBranches(), rc, s, true, Start(9));
  }

  /** "odgovori za Marku": the code as written reads the name after "za". */
  lemma ReplyForReadsNameAsWritten(n: string)
    requires |n| > 0 && SpaceFreeFrom(n, 0)
    ensures ExtractRecipientAsWritten("odgovori za " + n) == Some(n)
  {
    ReplyForText(n);
    ReplyForMatchesAsWritten("odgovori za " + n);
    CaptureReadsName(RecipientPatternsAsWritten(), "odgovori za " + n, 12, 0);
  }

  /** "odgovori za Marku" reads the name after "za" with the intended pattern too. */
  lemma ReplyForReadsName(n: string)
    requires |n| > 0 && SpaceFreeFrom(n, 0)
    ensures ExtractRecipient("odgovori za " + n) == Some(n)
  {
    ReplyForText(n);
    ReplyForMatches("odgovori za " + n);
    CaptureReadsName(RecipientPatterns(), "odgovori za " + n, 12, 0);
  }

  /** A word and then whitespace fail where no whitespace follows. */
  lemma WordThenSpaceFails(w: string, rest: seq<Node>, s: string, st: State)
    requires WellFormed(s, st) && SpaceFreeFrom(s, st.pos)
    ensures Match(Word(w) + ([Plus(Space)] + rest), s, true, st) == None
  {
    MatchWord(w, [Plus(Space)] + rest, s, true, st);
    if WordAt(w, s, true, st.pos) {
      PlusNeedsOne(Space, true, rest, s, true, st.(pos := st.pos + |w|));
    }
  }

  /** Without whitespace after "odgovori ", neither "za" nor "na" can lead,
      and the name starts right after the space. */
  lemma NoLeadWord(s: string)
    requires 9 <= |s| && SpaceFreeFrom(s, 9)
    ensures TryAlts(LeadBranches(), RecipientCapture(), s, true, Start(9), 0)
            == Match(RecipientCapture(), s, true, Start(9))
  {
    var rc := RecipientCapture();
    var alts := LeadBranches();
    assert alts[0].nodes + rc == Word("za") + ([Plus(Space)] + rc);
    assert alts[1].nodes + rc == Word("na") + ([Plus(Space)] + rc);
    assert alts[2].nodes + rc == rc;
    WordThenSpaceFails("za", rc, s, Start(9));
    WordThenSpaceFails("na", rc, s, Start(9));
  }

  lemma ReplyToMatches(s: string)
    requires ReplyToShape(s) && 9 < |s|
    ensures Match(ReplyToPattern(), s, true, Start(0)) == Some(Captured(1, s, Start(9), |s|))
  {
    var rc := RecipientCapture();
    AfterReplyWord([Alt(LeadBranches())] + rc, s);
    MatchAlt(LeadBranches(), rc, s, true, Start(9));
    assert SpaceFreeFrom(s, 9);
    NoLeadWord(s);
    RecipientToEnd(s, true, Start(9));
  }

  /** "odgovori Marku": the intended pattern reads the name after one space. */
  lemma ReplyToReadsName(n: string)
    requires |n| > 0 && SpaceFreeFrom(n, 0)
    ensures ExtractRecipient("odgovori " + n) == Some(n)
  {
    ReplyToText(n);
    ReplyToMatches("odgovori " + n);
    assert SpaceFreeFrom("odgovori " + n, 9);
    CaptureReadsName(RecipientPatterns(), "odgovori " + n, 9, 0);
  }

  /** "odgovori " is spelled out only at the start. */
  lemma ReplyWordOnlyAtStart(s: string, j: nat)
    requires ReplyToShape(s)
    ensures WordAt("odgovori ", s, true, j) ==> j == 0
  {
    if WordAt("odgovori ", s, true, j) {
      assert CharEq(s[j + 8], "odgovori "[8], true);
      CharEqNonLetter(s[j + 8], ' ', true);
    }
  }

  /** As written, `(?:za|na)?\s+` needs whitespace after "odgovori ". */
  lemma OptionalWordThenSpaceFails(s: string)
    requires ReplyToShape(s)
    ensures Match([OptionalWords(["za", "na"])] + ([Plus(Space)] + RecipientCapture()), s, true, Start(9)) == None
  {
    var rest2 := [Plus(Space)] + RecipientCapture();
    var rest1 := [OptionalWords(["za", "na"])] + rest2;
    assert rest1[0] == OptionalWords(["za", "na"]) && rest1[1..] == rest2;
    WordsThenPlusFail(["za", "na"] + [""], Space, RecipientCapture(), s, true, Start(9));
  }

  /** The reply pattern as written fails everywhere on "odgovori " and a name. */
  lemma ReplyAsWrittenFailsAt(s: string, j: nat)
    requires ReplyToShape(s) && j <= |s|
    ensures Match(ReplyToPatternAsWritten(), s, true, Start(j)) == None
  {
    var rest1 := [OptionalWords(["za", "na"])] + ([Plus(Space)] + RecipientCapture());
    assert ReplyToPatternAsWritten() == Word("odgovori ") + rest1;
    if j == 0 {
      ReplyAsWrittenFailsAtStart(rest1, s);
    } else {
      ReplyWordOnlyAtStart(s, j);
      WordOnlyAt("odgovori ", rest1, s, true, Start(j), 0);
    }
  }

  /** At the start, the word "odgovori " is read and the rest fails. */
  lemma ReplyAsWrittenFailsAtStart(rest1: seq<Node>, s: string)
    requires ReplyToShape(s)
    requires rest1 == [OptionalWords(["za", "na"])] + ([Plus(Space)] + RecipientCapture())
    ensures Match(Word("odgovori ") + rest1, s, true, Start(0)) == None
  {
    WordOnlyAt("odgovori ", rest1, s, true, Start(0), 0);
    assert Start(0).(pos := 0 + |"odgovori "|) == Start(9);
    OptionalWordThenSpaceFails(s);
  }

  /** After the first word, the message pattern needs a space and then more
      whitespace after "za" or "od"; "odgovori " and a name has one space. */
  lemma AfterMessageWordFails(s: string, t: State)
    requires ReplyToShape(s) && WellFormed(s, t)
    ensures Match([Lit(' ')] + ([Words(["za", "od"])] + ([Plus(Space)] + RecipientCapture())), s, true, t) == None
  {
    var ns := [Lit(' ')] + ([Words(["za", "od"])] + ([Plus(Space)] + RecipientCapture()));
    assert ns[0] == Lit(' ') && ns[1..] == [Words(["za", "od"])] + ([Plus(Space)] + RecipientCapture());
    if t.pos < |s| && CharEq(s[t.pos], ' ', true) {
      CharEqNonLetter(s[t.pos], ' ', true);
      assert t.pos == 8;
      var ns1 := [Words(["za", "od"])] + ([Plus(Space)] + RecipientCapture());
      assert ns1[0] == Words(["za", "od"]) && ns1[1..] == [Plus(Space)] + RecipientCapture();
      WordsThenPlusFail(["za", "od"], Space, RecipientCapture(), s, true, t.(pos := 9));
    }
  }

  /** The message pattern fails everywhere on "odgovori " and a name. */
  lemma MessageForFailsAt(s: string, j: nat)
    requires ReplyToShape(s) && j <= |s|
    ensures Match(MessageForPattern(), s, true, Start(j)) == None
  {
    var rest := [Lit(' ')] + ([Words(["za", "od"])] + ([Plus(Space)] + RecipientCapture()));
    var ws := ["poruka", "odgovor", "mail"];
    forall i | 0 <= i < |ws| && WordAt(ws[i], s, true, j)
      ensures Match(rest, s, true, Start(j).(pos := j + |ws[i]|)) == None
    {
      AfterMessageWordFails(s, Start(j).(pos := j + |ws[i]|));
    }
    WordBranchesFail(ws, rest, s, true, Start(j), 0);
  }

  lemma ReplyToFindsNothingAsWritten(s: string)
    requires ReplyToShape(s)
    ensures ExtractRecipientAsWritten(s) == None
  {
    forall j | 0 <= j <= |s| ensures Match(ReplyToPatternAsWritten(), s, true, Start(j)) == None {
      ReplyAsWrittenFailsAt(s, j);
    }
    forall j | 0 <= j <= |s| ensures Match(MessageForPattern(), s, true, Start(j)) == None {
      MessageForFailsAt(s, j);
    }
    SearchFromFails(ReplyToPatternAsWritten(), s, true, 0);
    SearchFromFails(MessageForPattern(), s, true, 0);
    assert RecipientPatternsAsWritten()[0] == ReplyToPatternAsWritten();
    assert RecipientPatternsAsWritten()[1] == MessageForPattern();
  }

  /** "odgovori Marku", the example the source gives for this pattern, finds
      no recipient in the code as written. */
  lemma ReplyToFailsAsWritten(n: string)
    requires SpaceFreeFrom(n, 0)
    ensures ExtractRecipientAsWritten("odgovori " + n) == None
  {
    ReplyToText(n);
    ReplyToFindsNothingAsWritten("odgovori " + n);
  }

  // ---------------------------------------------------------------------
  // "poruka za Janu"
  // ---------------------------------------------------------------------

  /** "poruka za ", then a name without whitespace: the spaces at 6 and 9
      are the only whitespace, and "odgovori" cannot start at 1. */
  predicate MessageForShape(s: string) {
    && 10 < |s|
    && WordAt("poruka", s, true, 0) && s[6] == ' ' && WordAt("za", s, true, 7) && s[9] == ' '
    && (forall k :: 0 <= k < |s| && k != 6 && k != 9 ==> !IsSpace(s[k]))
    && !CharEq(s[2], 'd', true)
  }

  lemma MessageForText(n: string)
    requires |n| > 0 && SpaceFreeFrom(n, 0)
    ensures MessageForShape("poruka za " + n) && ("poruka za " + n)[10..] == n
  {
    var s := "poruka za " + n;
    MessageForWords(n);
    MessageForSpaces(n);
    assert s[2] == 'r' && !CharEq('r', 'd', true);
    assert s[6] == ' ' && s[9] == ' ';
    assert s[10..] == n;
  }

  lemma MessageForWords(n: string)
    ensures WordAt("poruka", "poruka za " + n, true, 0) && WordAt("za", "poruka za " + n, true, 7)
  {
    var s := "poruka za " + n;
    assert s == "" + "poruka" + (" za " + n);
    WordAtAfter("", "poruka", " za " + n, true);
    assert s == "poruka " + "za" + (" " + n);
    WordAtAfter("poruka ", "za", " " + n, true);
  }

  lemma MessageForSpaces(n: string)
    requires SpaceFreeFrom(n, 0)
    ensures var s := "poruka za " + n;
            forall k :: 0 <= k < |s| && k != 6 && k != 9 ==> !IsSpace(s[k])
  {
    var s := "poruka za " + n;
    var lead := "poruka za ";
    assert NoSpaces("poruka") && NoSpaces("za");
    NoSpacesIsSpaceFree("poruka");
    NoSpacesIsSpaceFree("za");
    forall k | 0 <= k < 10 && k != 6 && k != 9 ensures !IsSpace(lead[k]) {
      if k < 6 {
        assert lead[k] == "poruka"[k];
      } else {
        assert lead[k] == "za"[k - 7];
      }
    }
    forall k | 0 <= k < |s| && k != 6 && k != 9 ensures !IsSpace(s[k]) {
      if k >= 10 {
        assert s[k] == n[k - 10];
      } else {
        assert s[k] == lead[k];
      }
    }
  }

  /** "odgovori " is spelled out nowhere in "poruka za " and a name. */
  lemma ReplyWordAbsent(s: string, j: nat)
    requires MessageForShape(s)
    ensures !WordAt("odgovori ", s, true, j)
  {
    if j + 9 <= |s| {
      if j == 1 {
        assert !CharEq(s[j + 1], "odgovori "[1], true);
      } else {
        assert !IsSpace(s[j + 8]);
        CharEqNonLetter(s[j + 8], ' ', true);
        assert !CharEq(s[j + 8], "odgovori "[8], true);
      }
    }
  }

  /** Either reply pattern fails everywhere on "poruka za " and a name. */
  lemma ReplyPatternFailsAt(rest: seq<Node>, s: string, j: nat)
    requires MessageForShape(s) && j <= |s|
    ensures Match(Word("odgovori ") + rest, s, true, Start(j)) == None
  {
    MatchWord("odgovori ", rest, s, true, Start(j));
    ReplyWordAbsent(s, j);
  }

  /** One space, then the name to the end. */
  lemma MessageTail(s: string)
    requires MessageForShape(s)
    ensures Match([Plus(Space)] + RecipientCapture(), s, true, Start(9)) == Some(Captured(1, s, Start(10), |s|))
  {
    PlusTakesOne(Space, RecipientCapture(), s, true, Start(9));
    assert Start(9).(pos := 9 + 1) == Start(10);
    assert SpaceFreeFrom(s, 10);
    RecipientToEnd(s, true, Start(10));
  }

  /** "za", then the space and the name. */
  lemma ForWordThenName(s: string)
    requires MessageForShape(s)
    ensures Match([Words(["za", "od"])] + ([Plus(Space)] + RecipientCapture()), s, true, Start(7))
            == Some(Captured(1, s, Start(10), |s|))
  {
    var rest := [Plus(Space)] + RecipientCapture();
    var alts := WordBranches(["za", "od"]);
    assert alts[0] == Branch(Word("za"));
    MatchWord("za", rest, s, true, Start(7));
    assert Start(7).(pos := 7 + 2) == Start(9);
    MessageTail(s);
    TryAltsFirst(alts, rest, s, true, Start(7));
    MatchAlt(alts, rest, s, true, Start(7));
  }

  /** The space after "poruka", then "za" and the name. */
  lemma SpaceThenFor(s: string)
    requires MessageForShape(s)
    ensures Match([Lit(' ')] + ([Words(["za", "od"])] + ([Plus(Space)] + RecipientCapture())), s, true, Start(6))
            == Some(Captured(1, s, Start(10), |s|))
  {
    LitStep(' ', [Words(["za", "od"])] + ([Plus(Space)] + RecipientCapture()), s, true, Start(6));
    assert Start(6).(pos := 6 + 1) == Start(7);
    ForWordThenName(s);
  }

  lemma MessageForMatches(s: string)
    requires MessageForShape(s)
    ensures Match(MessageForPattern(), s, true, Start(0)) == Some(Captured(1, s, Start(10), |s|))
  {
    var rest := [Lit(' ')] + ([Words(["za", "od"])] + ([Plus(Space)] + RecipientCapture()));
    var alts := WordBranches(["poruka", "odgovor", "mail"]);
    assert alts[0] == Branch(Word("poruka"));
    MatchWord("poruka", rest, s, true, Start(0));
    assert Start(0).(pos := 0 + 6) == Start(6);
    SpaceThenFor(s);
    TryAltsFirst(alts, rest, s, true, Start(0));
    MatchAlt(alts, rest, s, true, Start(0));
  }

  /** With a reply pattern first and the message pattern second, "poruka za "
      and a name reads the name. */
  lemma MessageForFinds(rest: seq<Node>, s: string)
    requires MessageForShape(s)
    ensures FirstStrippedCapture([Word("odgovori ") + rest, MessageForPattern()], s, 0) == Some(s[10..])
  {
    var ps := [Word("odgovori ") + rest, MessageForPattern()];
    forall j | 0 <= j <= |s| ensures Match(Word("odgovori ") + rest, s, true, Start(j)) == None {
      ReplyPatternFailsAt(rest, s, j);
    }
    SearchFromFails(Word("odgovori ") + rest, s, true, 0);
    assert FirstStrippedCapture(ps, s, 0) == FirstStrippedCapture(ps, s, 1);
    MessageForMatches(s);
    assert SpaceFreeFrom(s, 10);
    CaptureReadsName(ps, s, 10, 1);
  }

  /** "poruka za Janu", the second example the source gives: the code as
      written reads the name after "za". */
  lemma MessageForReadsNameAsWritten(n: string)
    requires |n| > 0 && SpaceFreeFrom(n, 0)
    ensures ExtractRecipientAsWritten("poruka za " + n) == Some(n)
  {
    MessageForText(n);
    assert RecipientPatternsAsWritten()
           == [Word("odgovori ") + ([OptionalWords(["za", "na"])] + ([Plus(Space)] + RecipientCapture())), MessageForPattern()];
    MessageForFinds([OptionalWords(["za", "na"])] + ([Plus(Space)] + RecipientCapture()), "poruka za " + n);
  }

  /** "poruka za Janu" reads the same name with the intended reply pattern. */
  lemma MessageForReadsName(n: string)
    requires |n| > 0 && SpaceFreeFrom(n, 0)
    ensures ExtractRecipient("poruka za " + n) == Some(n)
  {
    MessageForText(n);
    assert RecipientPatterns() == [Word("odgovori ") + ([Alt(LeadBranches())] + RecipientCapture()), MessageForPattern()];
    MessageForFinds([Alt(LeadBranches())] + RecipientCapture(), "poruka za " + n);
  }
}
