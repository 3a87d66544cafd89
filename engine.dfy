/** The engine object: the cached availability probe, text generation with
    its degrade chain, narratives, anonymisation with its rule-based backup,
    sector images, and the batch of sector images. The server and the model
    catalogue are parameters; the image model is never loaded, so every image
    is a placeholder. */
module Engine {
  import opened Text
  import opened Generation
  import opened Anonymize
  import opened Images

  /** The catalogue service, as a function from the tags URL to its reply. */
  type CatalogService = string -> CatalogReply

  /** The last-resort fallback as a method: one request to the fixed server,
      then the keyword template. It never returns None or the empty string. */
  method FallbackTextGeneration(prompt: string, server: Server) returns (text: string)
    ensures Some(text) == Returned(FallbackAnswer(prompt, server(FallbackRequest(prompt))))
    ensures text != []
  {
    var answer := ReplyText(server(FallbackRequest(prompt)));
    if answer.Some? && answer.value != [] {
      text := answer.value;
    } else {
      text := KeywordTemplate(prompt);
    }
  }

  class JanusEngine {
    const config: Config
    /** The probe result, once there is one. */
    var ollamaAvailable: Option<bool>
    /** How many times the catalogue has been probed. */
    ghost var probes: nat

    /** The catalogue is probed at most once, and exactly when the cache is
        filled. */
    ghost predicate Valid()
      reads this
    {
      probes == if ollamaAvailable.None? then 0 else 1
    }

    /** A missing configuration is replaced by the defaults; nothing is
        probed yet. */
    constructor (config: Option<Config>)
      ensures Valid()
      ensures this.config == config.GetOr(DefaultConfig)
      ensures ollamaAvailable.None?
    {
      this.config := config.GetOr(DefaultConfig);
      ollamaAvailable := None;
      probes := 0;
    }

    /** The first call probes `<url>/api/tags` and caches the answer; every
        later call returns the cached answer without probing. */
    method IsAvailable(catalog: CatalogService) returns (available: bool)
      requires Valid()
      modifies this
      ensures Valid() && ollamaAvailable == Some(available)
      ensures old(ollamaAvailable).Some? ==> available == old(ollamaAvailable).value && probes == old(probes)
      ensures old(ollamaAvailable).None? ==> available == Probe(catalog(config.ollamaUrl + "/api/tags"))
    {
      if ollamaAvailable.None? {
        ollamaAvailable := Some(Probe(catalog(config.ollamaUrl + "/api/tags")));
        probes := probes + 1;
      }
      available := ollamaAvailable.value;
    }

    /** `generate_text`: the fallback when the server is unavailable or the
        primary request raises, the stripped answer of a status-200 reply,
        None for any other status. */
    method GenerateText(prompt: string, temperature: Option<real>, maxTokens: Option<int>,
                        catalog: CatalogService, server: Server) returns (result: Option<string>)
      requires Valid()
      modifies this
      ensures Valid() && ollamaAvailable.Some?
      ensures old(ollamaAvailable).Some? ==> ollamaAvailable == old(ollamaAvailable)
      ensures old(ollamaAvailable).None? ==> ollamaAvailable == Some(Probe(catalog(config.ollamaUrl + "/api/tags")))
      ensures result == Returned(GenerateAnswer(ollamaAvailable.value, server, config, prompt, temperature, maxTokens))
    {
      var available := IsAvailable(catalog);
      if !available {
        var text := FallbackTextGeneration(prompt, server);
        return Some(text);
      }
      var reply := server(PrimaryRequest(config, prompt, temperature, maxTokens));
      match reply {
        case Raised =>
          var text := FallbackTextGeneration(prompt, server);
          result := Some(text);
        case Answered(status, response) =>
          if status == 200 {
            result := Some(Strip(response.GetOr("")));
          } else {
            result := None;
          }
      }
    }

    /** `generate_narrative`: the table prompt at temperature 0.4 and 512
        tokens. */
    method GenerateNarrative(context: string, sector: string, narrativeType: string,
                             catalog: CatalogService, server: Server) returns (result: Option<string>)
      requires Valid()
      modifies this
      ensures Valid() && ollamaAvailable.Some?
      ensures old(ollamaAvailable).Some? ==> ollamaAvailable == old(ollamaAvailable)
      ensures old(ollamaAvailable).None? ==> ollamaAvailable == Some(Probe(catalog(config.ollamaUrl + "/api/tags")))
      ensures result == Returned(GenerateAnswer(ollamaAvailable.value, server, config,
        NarrativePrompt(narrativeType, sector, context), Some(0.4), Some(512)))
    {
      result := GenerateText(NarrativePrompt(narrativeType, sector, context), Some(0.4), Some(512), catalog, server);
    }

    /** `anonymize_text`: the model's rewrite at temperature 0.3 with a budget
        of the text's length plus 200 tokens, replaced by the rule-based result
        when it is missing or shorter than ten characters. */
    method AnonymizeText(text: string, companyName: string, sector: string,
                         catalog: CatalogService, server: Server) returns (result: string)
      requires Valid()
      modifies this
      ensures Valid() && ollamaAvailable.Some?
      ensures old(ollamaAvailable).Some? ==> ollamaAvailable == old(ollamaAvailable)
      ensures old(ollamaAvailable).None? ==> ollamaAvailable == Some(Probe(catalog(config.ollamaUrl + "/api/tags")))
      ensures result == AnonymizeOutcome(ollamaAvailable.value, server, config, text, companyName, sector)
    {
      var reply := GenerateText(AnonymizePrompt(text, companyName, sector), Some(0.3), Some(|text| + 200), catalog, server);
      if KeepModelOutput(reply) {
        result := reply.value;
      } else {
        result := RuleBasedAnonymize(text, companyName);
      }
    }

    /** `generate_sector_image`. Without the model, the placeholder. With it,
        the prompts are looked up first (a blank sector raises there), and
        the generation itself always raises because the image model is never
        loaded, so the placeholder is drawn in the error handler. */
    method GenerateSectorImage(sector: string, imageType: string, timestamp: string,
                               catalog: CatalogService) returns (p: Option<Placeholder>)
      requires Valid()
      modifies this
      ensures Valid() && ollamaAvailable.Some?
      ensures old(ollamaAvailable).Some? ==> ollamaAvailable == old(ollamaAvailable)
      ensures old(ollamaAvailable).None? ==> ollamaAvailable == Some(Probe(catalog(config.ollamaUrl + "/api/tags")))
      ensures p.None? <==> AllSpace(sector)
      ensures p.Some? ==> DrawnFor(p.value, sector, imageType, timestamp)
    {
      var available := IsAvailable(catalog);
      if !available {
        p := PlaceholderImage(sector, imageType, timestamp);
        return;
      }
      var prompts := ImagePrompts(sector, imageType);
      if prompts.None? {
        return None;
      }
      p := PlaceholderImage(sector, imageType, timestamp);
    }
  }

  /** What `anonymize_text` returns once availability is known. */
  function AnonymizeOutcome(available: bool, server: Server, cfg: Config,
                            text: string, companyName: string, sector: string): (r: string)
    ensures var reply := Returned(GenerateAnswer(available, server, cfg,
              AnonymizePrompt(text, companyName, sector), Some(0.3), Some(|text| + 200)));
      && (reply.Some? && |reply.value| >= 10 ==> r == reply.value)
      && (reply.None? || |reply.value| < 10 ==> r == Anonymized(text, companyName))
  {
    var reply := Returned(GenerateAnswer(available, server, cfg,
      AnonymizePrompt(text, companyName, sector), Some(0.3), Some(|text| + 200)));
    if KeepModelOutput(reply) then reply.value else Anonymized(text, companyName)
  }

  /** Two probes of a fresh engine: the second call returns the first answer,
      whatever the catalogue says by then. */
  method ProbeTwice(first: CatalogService, second: CatalogService) returns (a: bool, b: bool)
    ensures a == b
    ensures a == Probe(first(DefaultConfig.ollamaUrl + "/api/tags"))
  {
    var engine := new JanusEngine(None);
    a := engine.IsAvailable(first);
    b := engine.IsAvailable(second);
  }

  /** With the server unavailable, every narrative other than the market
      position comes back as the investment template unless the fallback
      server answers with text. */
  lemma NarrativeOffline(server: Server, cfg: Config, narrativeType: string, sector: string, context: string)
    requires NarrativeKindOf(narrativeType) != MarketPosition
    requires server(FallbackRequest(NarrativePrompt(narrativeType, sector, context))).Raised?
    ensures Returned(GenerateAnswer(false, server, cfg, NarrativePrompt(narrativeType, sector, context), Some(0.4), Some(512)))
      == Some(InvestmentTemplate)
  {
    NarrativePromptMentionsInvestment(narrativeType, sector, context);
  }

  // ---------------------------------------------------------------------
  // The rule-based backup is out of reach when the model is

  /** As written: with the server unavailable and the fallback request
      failing, `anonymize_text` returns the investment template, because its
      own prompt mentions investment and the template is longer than ten
      characters; the rule-based anonymiser is never consulted. */
  lemma AnonymizeOfflineIsTemplate(server: Server, cfg: Config, text: string, companyName: string, sector: string)
    requires server(FallbackRequest(AnonymizePrompt(text, companyName, sector))).Raised?
    ensures AnonymizeOutcome(false, server, cfg, text, companyName, sector) == InvestmentTemplate
  {
    AnonymizePromptMentionsInvestment(text, companyName, sector);
  }

  /** The empty text shows the difference: the rule-based anonymiser returns
      it unchanged, but the engine returns the 188-character template. */
  lemma AnonymizeOfflineCounterexample(server: Server, cfg: Config, companyName: string, sector: string)
    requires server(FallbackRequest(AnonymizePrompt("", companyName, sector))).Raised?
    ensures Anonymized("", companyName) == []
    ensures AnonymizeOutcome(false, server, cfg, "", companyName, sector) != Anonymized("", companyName)
  {
    NothingToReplace("", companyName);
    AnonymizeOfflineIsTemplate(server, cfg, "", companyName, sector);
    TemplatesDistinct();
  }

  /** As intended: only text the model produced is kept; a template or a
      missing answer falls back to the rule-based anonymiser. */
  function IntendedAnonymizeOutcome(available: bool, server: Server, cfg: Config,
                                    text: string, companyName: string, sector: string): (r: string)
    ensures var a := GenerateAnswer(available, server, cfg,
              AnonymizePrompt(text, companyName, sector), Some(0.3), Some(|text| + 200));
      && (a.ModelText? && |a.text| >= 10 ==> r == a.text)
      && (!a.ModelText? || |a.text| < 10 ==> r == Anonymized(text, companyName))
  {
    var a := GenerateAnswer(available, server, cfg,
      AnonymizePrompt(text, companyName, sector), Some(0.3), Some(|text| + 200));
    if a.ModelText? && |a.text| >= 10 then a.text else Anonymized(text, companyName)
  }

  /** With the intended rule, an unreachable model yields the rule-based
      anonymisation. */
  lemma IntendedOfflineIsRuleBased(server: Server, cfg: Config, text: string, companyName: string, sector: string)
    requires server(FallbackRequest(AnonymizePrompt(text, companyName, sector))).Raised?
    ensures IntendedAnonymizeOutcome(false, server, cfg, text, companyName, sector) == Anonymized(text, companyName)
  {
  }

  /** The two agree whenever the model answered with enough text. */
  lemma IntendedAgreesOnModelText(available: bool, server: Server, cfg: Config,
                                  text: string, companyName: string, sector: string)
    requires var a := GenerateAnswer(available, server, cfg,
               AnonymizePrompt(text, companyName, sector), Some(0.3), Some(|text| + 200));
      a.ModelText? && |a.text| >= 10
    ensures IntendedAnonymizeOutcome(available, server, cfg, text, companyName, sector)
      == AnonymizeOutcome(available, server, cfg, text, companyName, sector)
  {
  }

  // ---------------------------------------------------------------------
  // A batch of sector images

  const ImageTypes: seq<string> := ["product", "facility", "abstract"]

  /** How many images the batch asks for: `range(min(count, 3))`. */
  function BatchSize(count: int): (n: nat)
    ensures n <= |ImageTypes|
    ensures count <= 0 ==> n == 0
    ensures 0 <= count <= |ImageTypes| ==> n == count
    ensures count >= |ImageTypes| ==> n == |ImageTypes|
  {
    if count <= 0 then 0 else if count < |ImageTypes| then count else |ImageTypes|
  }

  /** The i-th image of a batch is drawn for the i-th image type. */
  predicate DrawnInOrder(images: seq<Placeholder>, sector: string, clock: nat -> string) {
    |images| <= |ImageTypes| &&
    forall i :: 0 <= i < |images| ==> DrawnFor(images[i], sector, ImageTypes[i], clock(i))
  }

  lemma DrawnAppend(acc: seq<Placeholder>, p: Placeholder, sector: string, clock: nat -> string)
    requires DrawnInOrder(acc, sector, clock) && |acc| < |ImageTypes|
    requires DrawnFor(p, sector, ImageTypes[|acc|], clock(|acc|))
    ensures DrawnInOrder(acc + [p], sector, clock)
  {
    forall i | 0 <= i < |acc| + 1
      ensures DrawnFor((acc + [p])[i], sector, ImageTypes[i], clock(i))
    {
      if i < |acc| {
        assert (acc + [p])[i] == acc[i];
      }
    }
  }

  /** `generate_sector_images` on the given engine: one placeholder per
      requested type, in the order product, facility, abstract, each stamped
      by the clock; a blank sector raises on the first image (None here) and
      asking for no images returns the empty list. */
  method GenerateSectorImages(engine: JanusEngine, sector: string, count: int,
                              catalog: CatalogService, clock: nat -> string) returns (images: Option<seq<Placeholder>>)
    requires engine.Valid()
    modifies engine
    ensures engine.Valid()
    ensures old(engine.ollamaAvailable).Some? || BatchSize(count) == 0 ==>
      engine.ollamaAvailable == old(engine.ollamaAvailable)
    ensures old(engine.ollamaAvailable).None? && BatchSize(count) > 0 ==>
      engine.ollamaAvailable == Some(Probe(catalog(engine.config.ollamaUrl + "/api/tags")))
    ensures images.None? <==> BatchSize(count) > 0 && AllSpace(sector)
    ensures images.Some? ==> |images.value| == BatchSize(count)
    ensures images.Some? ==> DrawnInOrder(images.value, sector, clock)
  {
    var n := BatchSize(count);
    var acc: seq<Placeholder> := [];
    // The cache once the first image has asked for it.
    ghost var filled := if engine.ollamaAvailable.Some? then engine.ollamaAvailable
      else Some(Probe(catalog(engine.config.ollamaUrl + "/api/tags")));
    for i := 0 to n
      invariant engine.Valid()
      invariant engine.ollamaAvailable == if i == 0 then old(engine.ollamaAvailable) else filled
      invariant |acc| == i
      invariant i > 0 ==> !AllSpace(sector)
      invariant DrawnInOrder(acc, sector, clock)
    {
      var p := engine.GenerateSectorImage(sector, ImageTypes[i], clock(i), catalog);
      if p.None? {
        return None;
      }
      DrawnAppend(acc, p.value, sector, clock);
      acc := acc + [p.value];
    }
    images := Some(acc);
  }
}
