/** The message assistant (message_assistant/service.py): what an incoming
    message is about, and a reply drafted from a fixed template for that
    kind of message in the user's communication style. */
module Messages {
  import opened Options
  import opened Text

  datatype MessageIntent = Question | MeetingRequest | Gratitude | GeneralStatement

  /** Words that mark a meeting request (the source lists "vidimo se" twice). */
  const MeetingWords: seq<string> := ["sastanak", "poziv", "čujemo se", "vidimo se", "cujemo se", "vidimo se"]

  const GratitudeWords: seq<string> := ["hvala", "zahvaljujem"]

  /** `_analyze_message_intent`: a question mark wins, then a meeting word,
      then a word of thanks (words are matched in the lower-cased message). */
  function AnalyzeMessageIntent(message: string): (i: MessageIntent)
    ensures i == Question <==> Contains(message, "?")
    ensures i == MeetingRequest <==> !Contains(message, "?") && ContainsAny(Lower(message), MeetingWords)
    ensures i == Gratitude <==>
              !Contains(message, "?") && !ContainsAny(Lower(message), MeetingWords) && ContainsAny(Lower(message), GratitudeWords)
    ensures i == GeneralStatement <==>
              !Contains(message, "?") && !ContainsAny(Lower(message), MeetingWords) && !ContainsAny(Lower(message), GratitudeWords)
  {
    var t := Lower(message);
    if Contains(message, "?") then Question
    else if ContainsAny(t, MeetingWords) then MeetingRequest
    else if ContainsAny(t, GratitudeWords) then Gratitude
    else GeneralStatement
  }

  /** Upper-case letters in the message do not change its intent, for text
      whose case mapping is modelled exactly. */
  lemma IntentIgnoresCase(message: string)
    requires CaseExactText(message)
    ensures AnalyzeMessageIntent(Upper(message)) == AnalyzeMessageIntent(message)
  {
    LowerOfUpper(message);
    QuestionMarkSurvivesUpper(message);
  }

  lemma QuestionMarkSurvivesUpper(message: string)
    ensures Contains(Upper(message), "?") <==> Contains(message, "?")
  {
    ContainsIff(message, "?");
    ContainsIff(Upper(message), "?");
    if Contains(message, "?") {
      var i :| OccursAt(message, "?", i);
      assert message[i] == message[i..i + 1][0];
      UpperKeepsQuestionMark(message, i);
      assert Upper(message)[i..i + 1] == "?";
      ContainsAt(Upper(message), "?", i);
    }
    if Contains(Upper(message), "?") {
      var i :| OccursAt(Upper(message), "?", i);
      assert Upper(message)[i] == Upper(message)[i..i + 1][0];
      UpperKeepsQuestionMark(message, i);
      assert message[i..i + 1] == "?";
      ContainsAt(message, "?", i);
    }
  }

  lemma UpperKeepsQuestionMark(message: string, i: int)
    requires 0 <= i < |message|
    ensures Upper(message)[i] == '?' <==> message[i] == '?'
  {
    if IsLowerLetter(message[i]) {
      assert IsUpperLetter(Upper(message)[i]);
    }
  }

  // ---------------------------------------------------------------------
  // Reply templates
  // ---------------------------------------------------------------------

  datatype Style = Formal | Casual | Friendly

  /** `templates.get(style, templates["casual"])`: an unknown style is casual. */
  function StyleOf(name: string): (s: Style)
    ensures s == Formal <==> name == "formal"
    ensures s == Friendly <==> name == "friendly"
    ensures name != "formal" && name != "friendly" ==> s == Casual
  {
    if name == "formal" then Formal else if name == "friendly" then Friendly else Casual
  }

  /** The user profile fields the assistant reads. */
  datatype Profile = Profile(communicationStyle: Option<string>, name: Option<string>)

  /** `user_profile.get("communication_style", "casual")`. */
  function ProfileStyle(p: Profile): Style {
    StyleOf(p.communicationStyle.GetOr("casual"))
  }

  /** `user_profile.get('name', 'Korisnik')`. */
  function ProfileName(p: Profile): string {
    p.name.GetOr("Korisnik")
  }

  /** The line that opens a reply. */
  function Greeting(style: Style, sender: string): string {
    match style
    case Formal => "Poštovani " + sender + ",\n\n"
    case Casual => "Zdravo " + sender + ",\n\n"
    case Friendly => "Hej " + sender + "! \U{1F60A}\n\n"
  }

  /** The sentences between greeting and sign-off. */
  function Body(intent: MessageIntent, style: Style): string {
    match (intent, style)
    case (Question, Formal) => "Hvala Vam na upitu. Razmotriću i odgovoriti što pre."
    case (Question, Casual) => "Hvala na pitanju! Razmisliću i javiću ti uskoro."
    case (Question, Friendly) => "Super pitanje! Vidim šta mogu da saznam i javljam ti se ubrzo."
    case (MeetingRequest, Formal) => "Hvala Vam na predlogu za sastanak. Proveriću svoju dostupnost i javiti Vam se uskoro."
    case (MeetingRequest, Casual) => "Svakako možemo da se nađemo! Pogledaću kalendar i javiti ti se za termin."
    case (MeetingRequest, Friendly) => "Da, ajde da se vidimo! Baciću pogled na kalendar i predložiću ti neke termine."
    case (Gratitude, Formal) => "Nema na čemu, drago mi je da sam mogao/la da pomognem."
    case (Gratitude, Casual) => "Nema frke, drago mi je da sam mogao/la da pomognem! \U{1F642}"
    case (Gratitude, Friendly) => "Ma nema na čemu! Uvek sam tu ako ti treba još nešto!"
    case (GeneralStatement, Formal) => "Hvala Vam na poruci. Uzeo/la sam to u obzir."
    case (GeneralStatement, Casual) => "Hvala na poruci! Razmotriću to."
    case (GeneralStatement, Friendly) => "Super, hvala ti na poruci! Bacam pogled na to."
  }

  /** The closing line before the signature. */
  function SignOff(intent: MessageIntent, style: Style): string {
    match style
    case Formal => "S poštovanjem,"
    case Casual => "Pozdrav,"
    case Friendly => if intent == MeetingRequest then "Čujemo se!" else "Pozdrav!"
  }

  /** `_generate_response(intent, message, sender)`: greeting with the
      sender's name, the template's body, the sign-off and the user's name. */
  function GenerateResponse(p: Profile, intent: MessageIntent, sender: string): (r: string)
    ensures StartsWith(r, Greeting(ProfileStyle(p), sender))
    ensures |r| >= |ProfileName(p)| && r[|r| - |ProfileName(p)|..] == ProfileName(p)
    ensures Contains(r, sender) && Contains(r, ProfileName(p))
    ensures Contains(r, Body(intent, ProfileStyle(p))) && Contains(r, SignOff(intent, ProfileStyle(p)))
  {
    var style := ProfileStyle(p);
    var g := Greeting(style, sender);
    var body := Body(intent, style);
    var so := SignOff(intent, style);
    var rest := body + "\n\n" + so + "\n";
    var r := g + rest + ProfileName(p);
    GreetingHoldsSender(style, sender);
    Assembled(g, rest, ProfileName(p), sender);
    TemplateHolds(body, so);
    ContainsMiddle(g, rest, ProfileName(p));
    ContainsTransitive(r, rest, body);
    ContainsTransitive(r, rest, so);
    r
  }

  /** The middle of a reply holds the template's body and its sign-off. */
  lemma TemplateHolds(body: string, so: string)
    ensures Contains(body + "\n\n" + so + "\n", body)
    ensures Contains(body + "\n\n" + so + "\n", so)
  {
    ContainsSelf(body);
    InPrefix(body, "\n\n", body);
    InPrefix(body + "\n\n", so, body);
    InPrefix(body + "\n\n" + so, "\n", body);
    ContainsMiddle(body + "\n\n", so, "\n");
  }

  /** What a reply assembled from three pieces starts with, ends with and holds. */
  lemma Assembled(g: string, rest: string, name: string, sender: string)
    requires Contains(g, sender)
    ensures StartsWith(g + rest + name, g)
    ensures |g + rest + name| >= |name| && (g + rest + name)[|g + rest + name| - |name|..] == name
    ensures Contains(g + rest + name, sender) && Contains(g + rest + name, name)
  {
    var r := g + rest + name;
    assert r[..|g|] == g;
    assert r[|r| - |name|..] == name;
    ContainsMiddle([], g, rest + name);
    assert r == [] + g + (rest + name);
    ContainsTransitive(r, g, sender);
    ContainsMiddle(g + rest, name, []);
    assert r == g + rest + name + [];
  }

  lemma GreetingHoldsSender(style: Style, sender: string)
    ensures Contains(Greeting(style, sender), sender)
  {
    match style
    case Formal => ContainsMiddle("Poštovani ", sender, ",\n\n");
    case Casual => ContainsMiddle("Zdravo ", sender, ",\n\n");
    case Friendly => ContainsMiddle("Hej ", sender, "! \U{1F60A}\n\n");
  }

  /** A reply in the formal style opens with "Poštovani", whatever the
      message was about. */
  lemma FormalReplyGreeting(p: Profile, intent: MessageIntent, sender: string)
    requires p.communicationStyle == Some("formal")
    ensures StartsWith(GenerateResponse(p, intent, sender), "Poštovani " + sender)
  {
    PrefixOfPrefix(GenerateResponse(p, intent, sender), Greeting(Formal, sender), "Poštovani " + sender);
  }

  /** Without a style in the profile the reply is casual: it opens with "Zdravo". */
  lemma DefaultReplyGreeting(p: Profile, intent: MessageIntent, sender: string)
    requires p.communicationStyle.None?
    ensures StartsWith(GenerateResponse(p, intent, sender), "Zdravo " + sender)
  {
    PrefixOfPrefix(GenerateResponse(p, intent, sender), Greeting(Casual, sender), "Zdravo " + sender);
  }

  /** An unknown style replies word for word as the casual style does. */
  lemma UnknownStyleIsCasual(p: Profile, intent: MessageIntent, sender: string)
    requires p.communicationStyle.Some? && p.communicationStyle.value !in {"formal", "casual", "friendly"}
    ensures GenerateResponse(p, intent, sender) == GenerateResponse(p.(communicationStyle := Some("casual")), intent, sender)
  {
    assert ProfileStyle(p) == Casual == ProfileStyle(p.(communicationStyle := Some("casual")));
  }

  lemma PrefixOfPrefix(s: string, t: string, u: string)
    requires StartsWith(s, t) && StartsWith(t, u)
    ensures StartsWith(s, u)
  {
    assert s[..|u|] == t[..|u|];
  }

  // ---------------------------------------------------------------------
  // The draft
  // ---------------------------------------------------------------------

  /** What `draft_response` returns. */
  datatype Draft = Draft(originalMessage: string, sender: string, draftResponse: string, confidence: real)

  /** The fixed confidence of every draft. */
  const DraftConfidence: real := 0.8

  /** `draft_response(incoming_message, sender)`: the reply for the message's
      intent, next to the message and sender it answers. */
  function DraftResponse(p: Profile, incoming: string, sender: string): (d: Draft)
    ensures d.originalMessage == incoming && d.sender == sender && d.confidence == DraftConfidence
    ensures d.draftResponse == GenerateResponse(p, AnalyzeMessageIntent(incoming), sender)
  {
    Draft(incoming, sender, GenerateResponse(p, AnalyzeMessageIntent(incoming), sender), DraftConfidence)
  }

  /** A question gets the question template: in the casual style the reply
      thanks for the question. */
  lemma QuestionGetsQuestionReply(p: Profile, incoming: string, sender: string)
    requires Contains(incoming, "?") && ProfileStyle(p) == Casual
    ensures Contains(DraftResponse(p, incoming, sender).draftResponse, "Hvala na pitanju!")
  {
    assert AnalyzeMessageIntent(incoming) == Question;
    var body := Body(Question, Casual);
    var r := GenerateResponse(p, Question, sender);
    ContainsAt(body, "Hvala na pitanju!", 0);
    ContainsTransitive(r, body, "Hvala na pitanju!");
  }
}
