/** The help assistant of `POST /ai/ask`: a guard against medical questions, an optional answer
    from a hosted language model, and a rule-based fallback that matches phrases in the query. */
module Answers {
  import opened Wrappers
  import opened JsText

  /** The query is cut to this many characters before anything looks at it. */
  const MaxQuery: nat := 2000

  /** The phrases that mark a question as medical. */
  const MedicalHints: seq<string> := [
    "diagnos", "symptom", "treat", "dose", "dosage", "side effect", "interact",
    "is it safe", "should i take", "what should i take", "pain", "fever",
    "prescribe", "contraindication", "pregnancy safe"
  ]

  const BlankAnswer: string := "Please type a question about using Trackii."
  const MedicalDecline: string := "I can’t provide medical advice. Please consult a qualified healthcare professional."
  const LogWeightAnswer: string := "To log weight: open a profile → Logs → + Quick Log → category: weight → enter value → Save."
  const ViewWeightAnswer: string := "Open a profile → Chart tab to see recent weight. The dashboard may also show a quick chart if available."
  const ReminderAnswer: string := "Medication reminders are generated from active prescriptions. Dismiss a card to hide it until its next slot/day."
  const PrescriptionAnswer: string := "Go to a profile → Prescriptions → + Add Rx. Set frequency (e.g., daily, 2x/day, every 8h) and mark active."
  const ProfileAnswer: string := "Profiles: Dashboard → + Add Profile. You can set type (general, pregnancy, child) and toggle active/inactive."
  const WaterAnswer: string := "To track water: open profile → Logs → + Quick Log → category: water → enter cups/oz and Save."
  const MealAnswer: string := "To log meals: open profile → Logs → + Quick Log → category: meal → add notes if useful and Save."
  const DeleteProfileAnswer: string := "Open the profile card menu and choose Delete. This cannot be undone."
  const FaqAnswer: string := "Ask about: profiles, weight logs, water logs, prescriptions, reminders, insights. I can’t give medical advice."
  const GenericAnswer: string := "I can help with Trackii features like profiles, logs, prescriptions, and reminders. What would you like to do?"

  /** Every phrase a topic rule of `localAnswer` looks for, in the order the rules try them. */
  const TopicPhrases: seq<string> := [
    "log weight", "add weight", "weight log", "view weight", "weight chart", "trend",
    "reminder", "notification", "prescription", "rx", "profile", "water", "hydrate",
    "meal", "food", "delete profile", "remove profile", "faq", "help", "how"
  ]

  /** `hints.some(h => s.includes(h))`. */
  function SomeIncluded(s: string, hints: seq<string>): (r: bool)
    ensures r <==> exists k :: 0 <= k < |hints| && Contains(s, hints[k])
    decreases |hints|
  {
    if hints == [] then false
    else if Contains(s, hints[0]) then true
    else
      var rest := SomeIncluded(s, hints[1..]);
      assert forall k :: 1 <= k < |hints| ==> hints[k] == hints[1..][k - 1];
      assert rest ==> exists k :: 1 <= k < |hints| && Contains(s, hints[k]);
      rest
  }

  /** `isMedical`: the lower-cased query contains one of the medical hints. */
  function IsMedical(q: string): (r: bool)
    ensures r <==> exists h :: h in MedicalHints && Contains(Lower(q), h)
  {
    var r := SomeIncluded(Lower(q), MedicalHints);
    assert r ==> exists k :: 0 <= k < |MedicalHints| && Contains(Lower(q), MedicalHints[k]);
    r
  }

  /** The rules of `localAnswer`, in the order it tries them. */
  datatype Rule = Blank | Medical | LogWeight | ViewWeight | Reminder | Prescription | ProfileHelp
                | Water | Meal | DeleteProfile | Faq | Generic

  /** The reply each rule returns. */
  function RuleText(rule: Rule): string {
    match rule
    case Blank => BlankAnswer
    case Medical => MedicalDecline
    case LogWeight => LogWeightAnswer
    case ViewWeight => ViewWeightAnswer
    case Reminder => ReminderAnswer
    case Prescription => PrescriptionAnswer
    case ProfileHelp => ProfileAnswer
    case Water => WaterAnswer
    case Meal => MealAnswer
    case DeleteProfile => DeleteProfileAnswer
    case Faq => FaqAnswer
    case Generic => GenericAnswer
  }

  /** The first rule whose test the lower-cased query passes. */
  function FirstRule(q: string): Rule {
    var s := Lower(q);
    if Trim(s) == "" then Blank
    else if IsMedical(s) then Medical
    else TopicRule(s)
  }

  /** The topic rules, tried in order on the lower-cased query. */
  function TopicRule(s: string): (rule: Rule)
    ensures rule != Blank && rule != Medical
  {
    if Contains(s, "log weight") || Contains(s, "add weight") || Contains(s, "weight log") then LogWeight
    else if Contains(s, "view weight") || Contains(s, "weight chart") || Contains(s, "trend") then ViewWeight
    else if Contains(s, "reminder") || Contains(s, "notification") then Reminder
    else if Contains(s, "prescription") || Contains(s, "rx") then Prescription
    else if Contains(s, "profile") then ProfileHelp
    else if Contains(s, "water") || Contains(s, "hydrate") then Water
    else if Contains(s, "meal") || Contains(s, "food") then Meal
    else if Contains(s, "delete profile") || Contains(s, "remove profile") then DeleteProfile
    else if Contains(s, "faq") || Contains(s, "help") || Contains(s, "how") then Faq
    else Generic
  }

  /** `localAnswer`: the reply of the first rule that matches. */
  function LocalAnswer(q: string): string {
    RuleText(FirstRule(q))
  }

  /** Each rule has its own reply, so the reply tells which rule fired. */
  lemma RuleTextInjective(a: Rule, b: Rule)
    requires RuleText(a) == RuleText(b)
    ensures a == b
  {
  }

  /** The reply is that of rule `rule` exactly when `rule` is the first rule that matches. */
  lemma LocalAnswerIs(q: string, rule: Rule)
    ensures LocalAnswer(q) == RuleText(rule) <==> FirstRule(q) == rule
  {
    if LocalAnswer(q) == RuleText(rule) {
      RuleTextInjective(FirstRule(q), rule);
    }
  }

  /** No reply is empty. */
  lemma LocalAnswerNonEmpty(q: string)
    ensures LocalAnswer(q) != ""
  {
    var rule := FirstRule(q);
    assert |RuleText(rule)| > 0;
  }

  /** The query is blank when nothing but white space is left after trimming. */
  predicate IsBlank(q: string) {
    Trim(Lower(q)) == ""
  }

  lemma BlankIff(q: string)
    ensures IsBlank(q) <==> AllSpace(q)
  {
    TrimEmptyIff(Lower(q));
    LowerKeepsSpace(q);
  }

  /** The "Please type a question" reply comes exactly for a query of white space. */
  lemma LocalAnswerBlank(q: string)
    ensures LocalAnswer(q) == BlankAnswer <==> AllSpace(q)
  {
    LocalAnswerIs(q, Blank);
    FirstRuleBlank(q);
  }

  lemma FirstRuleBlank(q: string)
    ensures FirstRule(q) == Blank <==> AllSpace(q)
  {
    BlankIff(q);
  }

  /** A medical query that is not blank gets the decline, before any topic rule is tried; and
      only such a query does. */
  lemma LocalAnswerMedical(q: string)
    ensures LocalAnswer(q) == MedicalDecline <==> !IsBlank(q) && IsMedical(q)
  {
    LocalAnswerIs(q, Medical);
    FirstRuleMedical(q);
  }

  lemma FirstRuleMedical(q: string)
    ensures FirstRule(q) == Medical <==> !IsBlank(q) && IsMedical(q)
  {
    LowerIdempotent(q);
  }

  /** The reminder rule comes before the prescription rule: a query that mentions reminders
      never gets the prescription answer. */
  lemma ReminderBeforePrescription(q: string)
    requires Contains(Lower(q), "reminder")
    ensures LocalAnswer(q) != PrescriptionAnswer
  {
    LocalAnswerIs(q, Prescription);
    TopicRuleReminder(Lower(q));
  }

  lemma TopicRuleReminder(s: string)
    requires Contains(s, "reminder")
    ensures TopicRule(s) != Prescription
  {
  }

  /** The profile rule comes before the delete rule, and both delete phrases contain "profile":
      the delete answer is never given. */
  lemma DeleteProfileUnreachable(q: string)
    ensures LocalAnswer(q) != DeleteProfileAnswer
  {
    LocalAnswerIs(q, DeleteProfile);
    TopicRuleNoDelete(Lower(q));
  }

  lemma TopicRuleNoDelete(s: string)
    ensures TopicRule(s) != DeleteProfile
  {
    if Contains(s, "delete profile") {
      InPhrase("delete profile", 7);
      ContainsTransitive(s, "delete profile", "profile");
    }
    if Contains(s, "remove profile") {
      InPhrase("remove profile", 7);
      ContainsTransitive(s, "remove profile", "profile");
    }
  }

  lemma InPhrase(phrase: string, i: nat)
    requires i <= |phrase| && phrase[i..] == "profile"
    ensures Contains(phrase, "profile")
  {
    ContainsIff(phrase, "profile");
    assert OccursAt(phrase, "profile", i);
  }

  /** The generic reply comes exactly when the query is not blank, not medical, and contains
      none of the topic phrases. */
  lemma LocalAnswerGeneric(q: string)
    ensures LocalAnswer(q) == GenericAnswer <==>
              !IsBlank(q) && !IsMedical(q) && NoTopic(Lower(q))
  {
    LocalAnswerIs(q, Generic);
    LowerIdempotent(q);
    TopicRuleGeneric(Lower(q));
  }

  /** None of the topic phrases occurs in `s`. */
  predicate NoTopic(s: string) {
    forall k :: 0 <= k < |TopicPhrases| ==> !Contains(s, TopicPhrases[k])
  }

  lemma TopicRuleGeneric(s: string)
    ensures TopicRule(s) == Generic <==> NoTopic(s)
  {
    if TopicRule(s) == Generic {
      forall k | 0 <= k < |TopicPhrases| ensures !Contains(s, TopicPhrases[k]) {
        PhraseAt(k);
      }
    }
    if NoTopic(s) {
      NoPhraseGeneric(s);
    }
  }

  lemma PhraseAt(k: int)
    requires 0 <= k < |TopicPhrases|
    ensures TopicPhrases[k] in ["log weight", "add weight", "weight log", "view weight", "weight chart", "trend",
                                "reminder", "notification", "prescription", "rx", "profile", "water", "hydrate",
                                "meal", "food", "delete profile", "remove profile", "faq", "help", "how"]
  {
  }

  lemma NoPhraseGeneric(s: string)
    requires forall k :: 0 <= k < |TopicPhrases| ==> !Contains(s, TopicPhrases[k])
    ensures && !Contains(s, "log weight") && !Contains(s, "add weight") && !Contains(s, "weight log")
            && !Contains(s, "view weight") && !Contains(s, "weight chart") && !Contains(s, "trend")
            && !Contains(s, "reminder") && !Contains(s, "notification")
            && !Contains(s, "prescription") && !Contains(s, "rx") && !Contains(s, "profile")
            && !Contains(s, "water") && !Contains(s, "hydrate") && !Contains(s, "meal") && !Contains(s, "food")
            && !Contains(s, "delete profile") && !Contains(s, "remove profile")
            && !Contains(s, "faq") && !Contains(s, "help") && !Contains(s, "how")
  {
    assert !Contains(s, TopicPhrases[0]);
    assert !Contains(s, TopicPhrases[1]);
    assert !Contains(s, TopicPhrases[2]);
    assert !Contains(s, TopicPhrases[3]);
    assert !Contains(s, TopicPhrases[4]);
    assert !Contains(s, TopicPhrases[5]);
    assert !Contains(s, TopicPhrases[6]);
    assert !Contains(s, TopicPhrases[7]);
    assert !Contains(s, TopicPhrases[8]);
    assert !Contains(s, TopicPhrases[9]);
    assert !Contains(s, TopicPhrases[10]);
    assert !Contains(s, TopicPhrases[11]);
    assert !Contains(s, TopicPhrases[12]);
    assert !Contains(s, TopicPhrases[13]);
    assert !Contains(s, TopicPhrases[14]);
    assert !Contains(s, TopicPhrases[15]);
    assert !Contains(s, TopicPhrases[16]);
    assert !Contains(s, TopicPhrases[17]);
    assert !Contains(s, TopicPhrases[18]);
    assert !Contains(s, TopicPhrases[19]);
  }

  // ---------------------------------------------------------------------------------------
  // `askLLM` and `ask`

  /** What the hosted model's endpoint gives back: a rejected request (network failure or a
      body that is not JSON), a response that is not `ok`, or a JSON body with the text at
      `choices[0].message.content`, when there is one. */
  datatype LlmOutcome = Rejected | NotOk | Body(content: Option<string>)

  /** The response of `ask`: `{ data: { answer } }`, or the 500 "AI service error". */
  datatype AskResponse = Answer(text: string) | ServiceError

  /** `askLLM`: no key, a failed response and an empty or missing text all give `None`; the
      text is trimmed; a rejected request propagates as a failure. `service` stands for the
      endpoint, given the user message. */
  function AskLlm(apiKey: string, q: string, service: string -> LlmOutcome): (r: Result<Option<string>, string>)
    ensures apiKey == "" ==> r == Success(None)
    ensures r.Failure? <==> apiKey != "" && service(Prefix(q, MaxQuery)).Rejected?
    ensures r.Success? && r.value.Some? ==>
              && r.value.value != ""
              && apiKey != ""
              && exists text :: service(Prefix(q, MaxQuery)) == Body(Some(text)) && r.value.value == Trim(text)
  {
    if apiKey == "" then Success(None)
    else
      match service(Prefix(q, MaxQuery))
      case Rejected => Failure("AI service error")
      case NotOk => Success(None)
      case Body(content) =>
        match content
        case None => Success(None)
        case Some(text) => if Trim(text) == "" then Success(None) else Success(Some(Trim(text)))
  }

  /** `String(req.body?.q || "")`: a missing query reads as the empty text. */
  function QueryText(q: Option<string>): string {
    q.GetOr("")
  }

  /** `ask`: the truncated query; the medical guard; the model's answer when there is one; the
      local rules otherwise. */
  function Ask(body: Option<string>, apiKey: string, service: string -> LlmOutcome): (r: AskResponse)
    ensures r.Answer? ==> r.text != ""
  {
    var q := Prefix(QueryText(body), MaxQuery);
    if IsMedical(q) then Answer(MedicalDecline)
    else
      match AskLlm(apiKey, q, service)
      case Failure(_) => ServiceError
      case Success(reply) =>
        match reply
        case Some(answer) => Answer(answer)
        case None =>
          LocalAnswerNonEmpty(q);
          Answer(LocalAnswer(q))
  }

  /** A medical query is declined whatever the key and whatever the model would say: the model
      is not consulted. */
  lemma AskMedical(body: Option<string>, apiKey: string, service: string -> LlmOutcome,
                   otherKey: string, other: string -> LlmOutcome)
    requires IsMedical(Prefix(QueryText(body), MaxQuery))
    ensures Ask(body, apiKey, service) == Answer(MedicalDecline)
    ensures Ask(body, apiKey, service) == Ask(body, otherKey, other)
  {
  }

  /** Only the first 2000 characters of the query matter, and the model sees no more than those. */
  lemma AskTruncates(text: string, apiKey: string, service: string -> LlmOutcome, other: string -> LlmOutcome)
    requires service(Prefix(text, MaxQuery)) == other(Prefix(text, MaxQuery))
    ensures Ask(Some(text), apiKey, service) == Ask(Some(Prefix(text, MaxQuery)), apiKey, service)
    ensures Ask(Some(text), apiKey, service) == Ask(Some(text), apiKey, other)
  {
    PrefixTwice(text, MaxQuery);
  }

  lemma PrefixTwice<T>(s: seq<T>, n: nat)
    ensures Prefix(Prefix(s, n), n) == Prefix(s, n)
  {
  }

  /** A non-medical query gets the model's non-blank answer, trimmed, when there is a key. */
  lemma AskPrefersModel(body: Option<string>, apiKey: string, service: string -> LlmOutcome, text: string)
    requires !IsMedical(Prefix(QueryText(body), MaxQuery))
    requires apiKey != "" && service(Prefix(QueryText(body), MaxQuery)) == Body(Some(text)) && Trim(text) != ""
    ensures Ask(body, apiKey, service) == Answer(Trim(text))
  {
    PrefixTwice(QueryText(body), MaxQuery);
  }

  /** Without a key, or when the model gives nothing usable, a non-medical query gets the local
      rules' answer. */
  lemma AskFallsBack(body: Option<string>, apiKey: string, service: string -> LlmOutcome)
    requires !IsMedical(Prefix(QueryText(body), MaxQuery))
    requires var outcome := service(Prefix(QueryText(body), MaxQuery));
             || apiKey == ""
             || outcome == NotOk || outcome == Body(None)
             || (outcome.Body? && outcome.content.Some? && Trim(outcome.content.value) == "")
    ensures Ask(body, apiKey, service) == Answer(LocalAnswer(Prefix(QueryText(body), MaxQuery)))
  {
    PrefixTwice(QueryText(body), MaxQuery);
  }

  /** The 500 response comes exactly from a rejected request to the model. */
  lemma AskServiceError(body: Option<string>, apiKey: string, service: string -> LlmOutcome)
    ensures Ask(body, apiKey, service) == ServiceError <==>
              && !IsMedical(Prefix(QueryText(body), MaxQuery))
              && apiKey != ""
              && service(Prefix(QueryText(body), MaxQuery)) == Rejected
  {
    PrefixTwice(QueryText(body), MaxQuery);
  }
}
