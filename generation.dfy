/** Text generation against the local Ollama server, with the server's
    replies as inputs: the configuration and its defaults, the two requests
    the engine sends, the keyword templates of the last-resort fallback, the
    model-name probe, and the prompts of the narrative and anonymisation
    calls. */
module Generation {
  import opened Text

  // ---------------------------------------------------------------------
  // Configuration and requests

  /** The engine configuration. Sampling settings are carried as reals and
      only ever passed through or defaulted. */
  datatype Config = Config(
    ollamaModel: string,
    ollamaUrl: string,
    numGpu: int,
    maxNewTokens: int,
    temperature: real,
    topP: real,
    repeatPenalty: real,
    timeout: int)

  const DefaultConfig: Config := Config("janus:latest", "http://localhost:11434", 99, 1024, 0.7, 0.9, 1.1, 120)

  /** A POST to `<url>/api/generate` with `stream` false. */
  datatype Request = Request(
    url: string,
    model: string,
    prompt: string,
    temperature: real,
    numPredict: int,
    numGpu: int,
    topP: real,
    repeatPenalty: Option<real>,
    timeout: int)

  /** What came back from a request: an exception (connection error, time-out,
      a body that is not JSON or whose `response` is not a string), or a
      status code and the `response` field of the body, if it has one. */
  datatype Reply = Raised | Answered(status: int, response: Option<string>)

  /** The server, as a function from request to reply. */
  type Server = Request -> Reply

  /** Python's `value or default` for an optional number: None and zero take
      the default. */
  function RealOr(value: Option<real>, default: real): (r: real)
    ensures value.None? || value.value == 0.0 ==> r == default
    ensures value.Some? && value.value != 0.0 ==> r == value.value
  {
    if value.Some? && value.value != 0.0 then value.value else default
  }

  function IntOr(value: Option<int>, default: int): (r: int)
    ensures value.None? || value.value == 0 ==> r == default
    ensures value.Some? && value.value != 0 ==> r == value.value
  {
    if value.Some? && value.value != 0 then value.value else default
  }

  /** The primary request: the configured server and model, the caller's
      temperature and token budget unless they are None or zero. */
  function PrimaryRequest(cfg: Config, prompt: string, temperature: Option<real>, maxTokens: Option<int>): (q: Request)
    ensures q.url == cfg.ollamaUrl + "/api/generate" && q.model == cfg.ollamaModel && q.prompt == prompt
    ensures q.temperature == RealOr(temperature, cfg.temperature)
    ensures q.numPredict == IntOr(maxTokens, cfg.maxNewTokens)
    ensures q.numGpu == cfg.numGpu && q.topP == cfg.topP && q.repeatPenalty == Some(cfg.repeatPenalty)
    ensures q.timeout == cfg.timeout
  {
    Request(cfg.ollamaUrl + "/api/generate", cfg.ollamaModel, prompt,
      RealOr(temperature, cfg.temperature), IntOr(maxTokens, cfg.maxNewTokens),
      cfg.numGpu, cfg.topP, Some(cfg.repeatPenalty), cfg.timeout)
  }

  /** The fallback request ignores the configuration: fixed server, model and
      settings, and no repeat penalty. */
  function FallbackRequest(prompt: string): (q: Request)
    ensures q.prompt == prompt && q.repeatPenalty.None?
    ensures q.url == "http://localhost:11434/api/generate" && q.model == "janus:latest"
    ensures q.numPredict == 1024 && q.numGpu == 99 && q.timeout == 120
  {
    Request("http://localhost:11434/api/generate", "janus:latest", prompt, 0.7, 1024, 99, 0.9, None, 120)
  }

  /** The stripped `response` field of a status-200 reply (the empty string
      when the field is missing); None for any other reply. */
  function ReplyText(reply: Reply): (r: Option<string>)
    ensures r.Some? <==> reply.Answered? && reply.status == 200
    ensures r.Some? ==> r.value == Strip(reply.response.GetOr(""))
    ensures r.Some? ==> r.value == [] || (!IsSpace(r.value[0]) && !IsSpace(r.value[|r.value| - 1]))
  {
    if reply.Answered? && reply.status == 200 then Some(Strip(reply.response.GetOr(""))) else None
  }

  // ---------------------------------------------------------------------
  // Keyword templates

  const Investment: string := "investment"
  const Anonymize: string := "anonymize"
  const Overview: string := "overview"

  const InvestmentTemplate: string :=
    "\U{2022} Strong market position in a growing industry\n\U{2022} Proven track record of operational excellence\n\U{2022} Attractive financial profile with growth potential\n\U{2022} Strategic value to potential acquirers"
  const AnonymizeTemplate: string := "The Company operates in its core sector with established market presence."
  const OverviewTemplate: string :=
    "The Target is a well-established player in its industry segment with diversified operations and strong client relationships."
  const UnavailableText: string := "Content generation unavailable - Janus model not loaded."

  /** The template picked by the first keyword found in the lower-cased
      prompt, in the order investment, anonymize, overview. */
  function KeywordTemplate(prompt: string): (r: string)
    ensures |r| >= 10
    ensures r == InvestmentTemplate <==> Contains(Lower(prompt), Investment)
    ensures r == AnonymizeTemplate <==> !Contains(Lower(prompt), Investment) && Contains(Lower(prompt), Anonymize)
    ensures r == OverviewTemplate <==>
              !Contains(Lower(prompt), Investment) && !Contains(Lower(prompt), Anonymize) && Contains(Lower(prompt), Overview)
    ensures r == UnavailableText <==>
              !Contains(Lower(prompt), Investment) && !Contains(Lower(prompt), Anonymize) && !Contains(Lower(prompt), Overview)
  {
    TemplatesDistinct();
    var p := Lower(prompt);
    if Contains(p, Investment) then InvestmentTemplate
    else if Contains(p, Anonymize) then AnonymizeTemplate
    else if Contains(p, Overview) then OverviewTemplate
    else UnavailableText
  }

  lemma TemplatesDistinct()
    ensures |InvestmentTemplate| >= 10 && |AnonymizeTemplate| >= 10
    ensures |OverviewTemplate| >= 10 && |UnavailableText| >= 10
    ensures InvestmentTemplate != AnonymizeTemplate && InvestmentTemplate != OverviewTemplate
    ensures InvestmentTemplate != UnavailableText && AnonymizeTemplate != OverviewTemplate
    ensures AnonymizeTemplate != UnavailableText && OverviewTemplate != UnavailableText
  {
    assert |InvestmentTemplate| == 188 && |AnonymizeTemplate| == 73;
    assert |OverviewTemplate| == 124 && |UnavailableText| == 56;
  }

  // ---------------------------------------------------------------------
  // The degrade chain

  /** Where the text `generate_text` returns comes from: the model (through
      either request), a keyword template, or nowhere (None). */
  datatype Answer = ModelText(text: string) | TemplateText(text: string) | NoAnswer

  /** What the caller receives. */
  function Returned(a: Answer): Option<string> {
    match a
    case ModelText(t) => Some(t)
    case TemplateText(t) => Some(t)
    case NoAnswer => None
  }

  /** The fallback: the second reply's text if it is a non-empty status-200
      answer, otherwise the keyword template. It always answers. */
  function FallbackAnswer(prompt: string, second: Reply): (a: Answer)
    ensures !a.NoAnswer? && a.text != []
    ensures a.ModelText? <==> ReplyText(second).Some? && ReplyText(second).value != []
    ensures a.ModelText? ==> a.text == ReplyText(second).value
    ensures a.TemplateText? ==> a.text == KeywordTemplate(prompt)
  {
    match ReplyText(second)
    case Some(t) => if t != [] then ModelText(t) else TemplateText(KeywordTemplate(prompt))
    case None => TemplateText(KeywordTemplate(prompt))
  }

  /** `generate_text` once availability is known. An unavailable server or an
      exception goes to the fallback; a status-200 reply gives its stripped
      text, even the empty string; any other status falls off the end of the
      function and gives None. */
  function GenerateAnswer(available: bool, server: Server, cfg: Config, prompt: string,
                          temperature: Option<real>, maxTokens: Option<int>): (a: Answer)
    ensures var first := server(PrimaryRequest(cfg, prompt, temperature, maxTokens));
      && (a.NoAnswer? <==> available && first.Answered? && first.status != 200)
      && (!available || first.Raised? ==> a == FallbackAnswer(prompt, server(FallbackRequest(prompt))))
      && (available && first.Answered? && first.status == 200 ==> a == ModelText(ReplyText(first).value))
  {
    if !available then FallbackAnswer(prompt, server(FallbackRequest(prompt)))
    else
      match server(PrimaryRequest(cfg, prompt, temperature, maxTokens))
      case Raised => FallbackAnswer(prompt, server(FallbackRequest(prompt)))
      case Answered(status, response) =>
        if status == 200 then ModelText(Strip(response.GetOr(""))) else NoAnswer
  }

  /** The three outcomes of `generate_text`. */
  lemma GenerateOutcomes(available: bool, server: Server, cfg: Config, prompt: string,
                         temperature: Option<real>, maxTokens: Option<int>)
    ensures var first := server(PrimaryRequest(cfg, prompt, temperature, maxTokens));
      var r := Returned(GenerateAnswer(available, server, cfg, prompt, temperature, maxTokens));
      && (r.None? <==> available && first.Answered? && first.status != 200)
      && (available && first.Answered? && first.status == 200 ==> r == ReplyText(first))
      && (!available || first.Raised? ==> r.Some? && r.value != [])
  {
  }

  // ---------------------------------------------------------------------
  // The availability probe

  /** An entry of the `models` list of `/api/tags`; a missing name reads as "". */
  datatype ModelEntry = ModelEntry(name: Option<string>)

  /** The reply to `GET <url>/api/tags`. */
  datatype CatalogReply = CatalogRaised | Catalog(status: int, models: seq<ModelEntry>)

  predicate NamesJanus(m: ModelEntry) {
    Contains(Lower(m.name.GetOr("")), "janus")
  }

  /** The loop over the model list: does some entry from index i on name a
      Janus model? */
  function AnyJanus(models: seq<ModelEntry>, i: nat): (r: bool)
    requires i <= |models|
    ensures r <==> exists k :: i <= k < |models| && NamesJanus(models[k])
    decreases |models| - i
  {
    if i == |models| then false
    else if NamesJanus(models[i]) then true
    else AnyJanus(models, i + 1)
  }

  /** The probe is true exactly for a status-200 catalogue listing a model
      whose lower-cased name contains "janus"; an exception or another status
      gives false. */
  function Probe(catalog: CatalogReply): (r: bool)
    ensures r <==> (catalog.Catalog? && catalog.status == 200 &&
                    exists k :: 0 <= k < |catalog.models| && NamesJanus(catalog.models[k]))
  {
    catalog.Catalog? && catalog.status == 200 && AnyJanus(catalog.models, 0)
  }

  // ---------------------------------------------------------------------
  // Prompts

  /** The narrative kinds the prompt table knows. */
  datatype NarrativeKind = BusinessOverview | InvestmentHighlights | MarketPosition | ExecutiveSummary

  /** The table key; an unknown key selects the business overview. */
  function NarrativeKindOf(narrativeType: string): (k: NarrativeKind)
    ensures narrativeType == "investment_highlights" <==> k == InvestmentHighlights
    ensures narrativeType == "market_position" <==> k == MarketPosition
    ensures narrativeType == "executive_summary" <==> k == ExecutiveSummary
  {
    if narrativeType == "investment_highlights" then InvestmentHighlights
    else if narrativeType == "market_position" then MarketPosition
    else if narrativeType == "executive_summary" then ExecutiveSummary
    else BusinessOverview
  }

  const AnalystOpening: string := "You are an M&A "
  const OverviewIntroRest: string :=
    " analyst. Write a concise, professional business overview for an investment teaser."
  const OverviewBody: string :=
    "Write 3-4 bullet points describing the business. Use professional language. Do NOT include any company names - keep it anonymous. Focus on:\n- Core business activities\n- Key products/services  \n- Market position\n- Competitive advantages\n\nOutput only the bullet points, no headers or explanations."
  const HighlightsIntroRest: string :=
    " analyst. Generate compelling investment highlights for a blind teaser."
  const HighlightsBody: string :=
    "Write 4-5 investment highlights that would attract potential buyers. Each highlight should:\n- Start with a strong action word\n- Be specific with metrics where available\n- Focus on growth potential and value drivers\n- Be anonymous (no company names)\n\nOutput only the bullet points."
  const MarketIntro: string := "Summarize the market position of this business based on the context."
  const MarketBody: string :=
    "Write 2-3 sentences about market position, competitive landscape, and growth opportunity. Keep it anonymous and professional."
  const SummaryOpening: string := "Write a brief executive summary for an "
  const SummaryIntroRest: string := " teaser."
  const SummaryBody: string :=
    "Write 2-3 sentences summarizing the investment opportunity. Be compelling but factual. No company names."

  function Intro(k: NarrativeKind): string {
    match k
    case BusinessOverview => AnalystOpening + Investment + OverviewIntroRest
    case InvestmentHighlights => AnalystOpening + Investment + HighlightsIntroRest
    case MarketPosition => MarketIntro
    case ExecutiveSummary => SummaryOpening + Investment + SummaryIntroRest
  }

  function Body(k: NarrativeKind): string {
    match k
    case BusinessOverview => OverviewBody
    case InvestmentHighlights => HighlightsBody
    case MarketPosition => MarketBody
    case ExecutiveSummary => SummaryBody
  }

  /** The narrative prompt: the entry's opening, the sector and the context,
      then the entry's instructions. */
  function NarrativePrompt(narrativeType: string, sector: string, context: string): (r: string)
    ensures Contains(r, sector) && Contains(r, context)
  {
    var k := NarrativeKindOf(narrativeType);
    DetailsMention(k, sector, context);
    ContainsAfter(Intro(k), Details(k, sector, context), sector);
    ContainsAfter(Intro(k), Details(k, sector, context), context);
    Intro(k) + Details(k, sector, context)
  }

  /** The details hold the sector and the context. */
  lemma DetailsMention(k: NarrativeKind, sector: string, context: string)
    ensures Contains(Details(k, sector, context), sector)
    ensures Contains(Details(k, sector, context), context)
  {
    var a := "\n\nSector: " + sector + "\nContext: ";
    ContainsInfix("\n\nSector: ", sector, "\nContext: ");
    ContainsBefore(a, context, sector);
    ContainsBefore(a + context, "\n\n", sector);
    ContainsBefore(a + context + "\n\n", Body(k), sector);
    ContainsInfix(a, context, "\n\n");
    ContainsBefore(a + context + "\n\n", Body(k), context);
  }

  function Details(k: NarrativeKind, sector: string, context: string): string {
    "\n\nSector: " + sector + "\nContext: " + context + "\n\n" + Body(k)
  }

  const AnonymizeOpening: string :=
    "Rewrite the following text to remove all identifying information while preserving the facts and metrics.\n\nOriginal text:\n"
  const AnonymizeRulesHead: string :=
    "\" with \"The Company\" or \"The Target\"\n2. Remove any brand names, founder names, or location specifics\n3. Keep all numbers, percentages, and metrics intact\n4. Maintain professional "
  const AnonymizeRulesTail: string :=
    " language\n5. Keep the same length and structure\n\nOutput only the anonymized text, nothing else."

  /** The anonymisation prompt, with the text, the company name and the
      sector interpolated. */
  function AnonymizePrompt(text: string, companyName: string, sector: string): (r: string)
    ensures Contains(r, text) && Contains(r, companyName) && Contains(r, sector)
  {
    var head := AnonymizeHead(text, companyName, sector);
    HeadMentions(text, companyName, sector);
    ContainsBefore(head, Investment, text);
    ContainsBefore(head + Investment, AnonymizeRulesTail, text);
    ContainsBefore(head, Investment, companyName);
    ContainsBefore(head + Investment, AnonymizeRulesTail, companyName);
    ContainsBefore(head, Investment, sector);
    ContainsBefore(head + Investment, AnonymizeRulesTail, sector);
    head + Investment + AnonymizeRulesTail
  }

  /** The anonymisation prompt up to the word "investment" in its fourth
      rule. */
  function AnonymizeHead(text: string, companyName: string, sector: string): string {
    AnonymizeOpening + text + "\n\nCompany to anonymize: " + companyName + "\nSector: " + sector
      + "\n\nRules:\n1. Replace \"" + companyName + AnonymizeRulesHead
  }

  /** The head holds the text, the company name and the sector. */
  lemma HeadMentions(text: string, companyName: string, sector: string)
    ensures Contains(AnonymizeHead(text, companyName, sector), text)
    ensures Contains(AnonymizeHead(text, companyName, sector), companyName)
    ensures Contains(AnonymizeHead(text, companyName, sector), sector)
  {
    var a := AnonymizeOpening + text;
    var b := a + "\n\nCompany to anonymize: " + companyName;
    var c := b + "\nSector: " + sector;
    var d := c + "\n\nRules:\n1. Replace \"" + companyName;
    ContainsInfix(AnonymizeOpening, text, []);
    assert AnonymizeOpening + text + [] == a;
    ContainsBefore(a, "\n\nCompany to anonymize: ", text);
    ContainsBefore(a + "\n\nCompany to anonymize: ", companyName, text);
    ContainsInfix(a + "\n\nCompany to anonymize: ", companyName, []);
    assert a + "\n\nCompany to anonymize: " + companyName + [] == b;
    ContainsBefore(b, "\nSector: ", text);
    ContainsBefore(b + "\nSector: ", sector, text);
    ContainsBefore(b, "\nSector: ", companyName);
    ContainsBefore(b + "\nSector: ", sector, companyName);
    ContainsInfix(b + "\nSector: ", sector, []);
    assert b + "\nSector: " + sector + [] == c;
    ContainsBefore(c, "\n\nRules:\n1. Replace \"", text);
    ContainsBefore(c + "\n\nRules:\n1. Replace \"", companyName, text);
    ContainsBefore(c, "\n\nRules:\n1. Replace \"", companyName);
    ContainsBefore(c + "\n\nRules:\n1. Replace \"", companyName, companyName);
    ContainsBefore(c, "\n\nRules:\n1. Replace \"", sector);
    ContainsBefore(c + "\n\nRules:\n1. Replace \"", companyName, sector);
    ContainsBefore(d, AnonymizeRulesHead, text);
    ContainsBefore(d, AnonymizeRulesHead, companyName);
    ContainsBefore(d, AnonymizeRulesHead, sector);
  }

  /** The anonymisation prompt always contains "investment", whatever the
      text, name and sector. */
  lemma AnonymizePromptMentionsInvestment(text: string, companyName: string, sector: string)
    ensures Contains(Lower(AnonymizePrompt(text, companyName, sector)), Investment)
  {
    ContainsInfix(AnonymizeHead(text, companyName, sector), Investment, AnonymizeRulesTail);
    InvestmentIsLower();
    ContainsLower(AnonymizePrompt(text, companyName, sector), Investment);
  }

  lemma IntroMentionsInvestment(k: NarrativeKind)
    requires k != MarketPosition
    ensures Contains(Intro(k), Investment)
  {
    match k {
      case BusinessOverview => ContainsInfix(AnalystOpening, Investment, OverviewIntroRest);
      case InvestmentHighlights => ContainsInfix(AnalystOpening, Investment, HighlightsIntroRest);
      case ExecutiveSummary => ContainsInfix(SummaryOpening, Investment, SummaryIntroRest);
    }
  }

  /** Appending text keeps a substring. */
  lemma ContainsAfter(a: string, s: string, p: string)
    requires Contains(s, p)
    ensures Contains(a + s, p)
  {
    var i :| 0 <= i <= |s| && OccursAt(s, p, i);
    assert (a + s)[|a| + i..|a| + i + |p|] == s[i..i + |p|];
    assert OccursAt(a + s, p, |a| + i);
  }

  lemma ContainsBefore(s: string, b: string, p: string)
    requires Contains(s, p)
    ensures Contains(s + b, p)
  {
    var i :| 0 <= i <= |s| && OccursAt(s, p, i);
    assert (s + b)[i..i + |p|] == s[i..i + |p|];
    assert OccursAt(s + b, p, i);
  }

  lemma InvestmentIsLower()
    ensures Lower(Investment) == Investment
  {
  }

  lemma NarrativePromptMentionsInvestment(narrativeType: string, sector: string, context: string)
    requires NarrativeKindOf(narrativeType) != MarketPosition
    ensures Contains(Lower(NarrativePrompt(narrativeType, sector, context)), Investment)
  {
    var k := NarrativeKindOf(narrativeType);
    IntroMentionsInvestment(k);
    var prompt := Intro(k) + Details(k, sector, context);
    ContainsBefore(Intro(k), Details(k, sector, context), Investment);
    InvestmentIsLower();
    ContainsLower(prompt, Investment);
  }
}
