# Janus engine model

A Dafny model of the decision and string logic in `src/vision/janus_engine.py`.
This is the vision and text-generation engine behind blind investment teasers.
It sends prompts to a local Ollama server running a Janus model.

The model covers these parts of the engine:

- **Availability probe.** The engine lists the server's models once and caches whether any of them is a Janus model.
- **Text generation.** `generate_text` degrades step by step: primary request, then a second request to a fixed server, then a template chosen by a keyword in the prompt.
- **Narratives and anonymisation.** Narrative prompts come from a table. Anonymisation keeps the model's rewrite only when it is long enough; otherwise a rule-based anonymiser rewrites the text with regular expressions.
- **Research parser.** It turns a labelled free-text answer into a five-field record.
- **Sector images.** A prompt table, and the placeholder picture drawn because the image model is never loaded: its colours, gradient, labels and file name. It also covers the loop that builds a batch of sector images.

Modules, one file each:

| file | module | contents |
|---|---|---|
| `text.dfy` | `Text` | ASCII character classes, case maps, `str.strip`, `str.split`, substring tests, the first word of a string |
| `regex.dfy` | `Regex` | `re.sub` with `\b`-bounded case-insensitive words and with a literal followed by a character-class run; the proof that no occurrence of a replaced word survives |
| `anonymize.dfy` | `Anonymize` | `_rule_based_anonymize` as a method over the four name passes and two phrase rewrites |
| `research.dfy` | `Research` | the label searches of `_parse_research_response`, the record, and the parser as a method |
| `images.dfy` | `Images` | `_get_image_prompts`, the placeholder's colour table, the gradient as an array loop, and the placeholder |
| `generation.dfy` | `Generation` | configuration, requests, replies, the catalogue probe, keyword templates, the degrade chain as functions, and the prompts |
| `engine.dfy` | `Engine` | the `JanusEngine` class with the availability cache, its methods, and `generate_sector_images` |

How the outside world appears in the model:

- **Server.** The server is a parameter `server: Request -> Reply`. A `Reply` is either `Raised` (any exception, including a status-200 body that is not JSON) or a status code with the body's optional `response` field. The body is decoded only when the status is 200, so a reply with another status is `Answered` whatever its body.
- **Catalogue.** The `/api/tags` service is a parameter from URL to `CatalogReply`.
- **Timestamps.** The timestamp stamped into a file name is an input string. In the batch of images it comes from a `clock` parameter indexed by the image's position.
- **Probe counter.** The engine's ghost counter `probes` records how many times the catalogue was queried.
- **Exceptions.** An exception that escapes the source (the `IndexError` a blank sector causes) is `None`.

Where the code and its own annotations differ, the model follows the code.
`generate_text` is annotated to return `str`, and its docstring says it returns the generated text (src/vision/janus_engine.py:110-121). Yet the code returns `None` when the primary request gets a status other than 200: that branch only prints and falls off the end of the function. The model keeps this, and `Generation.GenerateOutcomes` states it.

## Model

| member | source | states |
|---|---|---|
| `Engine.JanusEngine.constructor` | src/vision/janus_engine.py:65-67 | a missing configuration becomes the defaults; the cache starts empty |
| `Engine.JanusEngine.IsAvailable` | src/vision/janus_engine.py:96-104 | the first call probes `<url>/api/tags` and caches the answer; later calls return the cached answer and do not probe; the catalogue is probed at most once per engine |
| `Engine.ProbeTwice` | src/vision/janus_engine.py:96-104 | two calls on a fresh engine agree, whatever the catalogue answers the second time |
| `Generation.Probe` | src/vision/janus_engine.py:79-94 | true exactly when the catalogue answers with status 200 and some entry's lower-cased name (missing name read as "") contains "janus"; an exception or another status gives false |
| `Generation.AnyJanus` | src/vision/janus_engine.py:89-92 | the loop over the model list is true exactly when some entry from the given index on names a Janus model |
| `Generation.RealOr` | src/vision/janus_engine.py:126 | `temperature or default`: None and 0 take the default, any other value is kept |
| `Generation.IntOr` | src/vision/janus_engine.py:127 | `max_tokens or default`: None and 0 take the default, any other value is kept |
| `Generation.PrimaryRequest` | src/vision/janus_engine.py:129-147 | the primary request carries the configured URL, model, GPU layers, top-p, repeat penalty and time-out, and the caller's temperature and token budget unless they are None or 0 |
| `Generation.FallbackRequest` | src/vision/janus_engine.py:339-355 | the fallback request uses the fixed server and model, 1024 tokens, 99 GPU layers, a 120-second time-out, and no repeat penalty, whatever the configuration |
| `Generation.ReplyText` | src/vision/janus_engine.py:149-151 | a reply has text exactly when its status is 200; the text is `Strip` of the `response` field, or of "" when the field is missing, and so has no whitespace at either end |
| `Generation.KeywordTemplate` | src/vision/janus_engine.py:363-371 | the investment template exactly when the lower-cased prompt contains "investment"; the anonymise template exactly when it contains "anonymize" and not "investment"; the overview template exactly when it contains "overview" and neither of the other two; the unavailable message exactly when it contains none of the three keywords; every template has at least ten characters |
| `Generation.TemplatesDistinct` | src/vision/janus_engine.py:364-371 | the four templates are pairwise different and each has at least ten characters |
| `Generation.FallbackAnswer` | src/vision/janus_engine.py:337-371 | the fallback always answers with a non-empty string; it is the second reply's text exactly when that reply has status 200 and non-empty stripped text, and the keyword template otherwise |
| `Engine.FallbackTextGeneration` | src/vision/janus_engine.py:337-371 | the fallback as a method returns what `FallbackAnswer` specifies, never None or "" |
| `Generation.GenerateAnswer` | src/vision/janus_engine.py:123-157 | no answer exactly when the server is available and the primary reply has a status other than 200; the fallback's answer when the server is unavailable or the request raises; the primary reply's stripped text on status 200 |
| `Generation.GenerateOutcomes` | src/vision/janus_engine.py:123-157 | `generate_text` returns None exactly when the server is available and the primary reply has a status other than 200; a status-200 reply gives its stripped text, even ""; an unavailable server or an exception gives non-empty text |
| `Engine.JanusEngine.GenerateText` | src/vision/janus_engine.py:110-157 | the method returns what `GenerateAnswer` specifies for the cached availability; an already filled cache is unchanged, and an empty one is filled with the probe of `<url>/api/tags` |
| `Generation.NarrativeKindOf` | src/vision/janus_engine.py:214 | each of the three other table keys selects its entry, and every other string selects the business overview |
| `Generation.NarrativePrompt` | src/vision/janus_engine.py:172-214 | the selected prompt holds the sector and the context |
| `Engine.JanusEngine.GenerateNarrative` | src/vision/janus_engine.py:214-215 | the selected prompt is sent at temperature 0.4 with a budget of 512 tokens; the cache is kept or filled with the probe, as for `generate_text` |
| `Generation.NarrativePromptMentionsInvestment` | src/vision/janus_engine.py:172-212 | every narrative prompt except market position contains "investment", whatever the sector and context |
| `Engine.NarrativeOffline` | src/vision/janus_engine.py:214-215 | with the server unavailable and the fallback request failing, every narrative except market position is the investment template |
| `Generation.AnonymizePromptMentionsInvestment` | src/vision/janus_engine.py:228-244 | the anonymisation prompt contains "investment" whatever the text, company name and sector |
| `Generation.AnonymizePrompt` | src/vision/janus_engine.py:228-244 | the anonymisation prompt holds the text, the company name and the sector |
| `Engine.JanusEngine.AnonymizeText` | src/vision/janus_engine.py:246-252 | the prompt is sent at temperature 0.3 with a budget of the text's length plus 200; the model's answer is kept when it has at least ten characters, otherwise the result is the rule-based anonymisation; the cache is kept or filled with the probe |
| `Engine.AnonymizeOutcome` | src/vision/janus_engine.py:246-252 | the reply of `generate_text` when it has at least ten characters; the rule-based anonymisation when it is None or shorter |
| `Engine.AnonymizeOfflineIsTemplate` | src/vision/janus_engine.py:246-252 | with the server unavailable and the fallback request failing, `anonymize_text` returns the investment template for every input |
| `Engine.AnonymizeOfflineCounterexample` | src/vision/janus_engine.py:246-252 | for the empty text the rule-based result is "" but the engine returns the template |
| `Engine.IntendedAnonymizeOutcome` | src/vision/janus_engine.py:248-250 | corrected rule: the model's own text of ten or more characters is kept; a template or a missing answer gives the rule-based anonymisation |
| `Engine.IntendedOfflineIsRuleBased` | src/vision/janus_engine.py:248-250 | under the corrected rule, an unavailable server with a failing fallback gives the rule-based anonymisation |
| `Engine.IntendedAgreesOnModelText` | src/vision/janus_engine.py:248-250 | the corrected rule and the code agree whenever the model answered with ten or more characters |
| `Anonymize.NamePasses` | src/vision/janus_engine.py:380-385 | four passes, the first over the name as given, and every pass's word folds to the same lower-case string as the name |
| `Anonymize.ApplyPasses` | src/vision/janus_engine.py:386-388 | the passes run in list order: the first pass is applied to the text and the others to its output |
| `Anonymize.RuleBasedAnonymize` | src/vision/janus_engine.py:373-394 | the loop over the four name passes, then the two phrase rewrites, yields `Anonymized(text, name)` |
| `Anonymize.Anonymized` | src/vision/janus_engine.py:377-394 | for a replaceable name, the result is the single whole-word replacement of the name by "The Company" followed by the founder and headquarters rewrites |
| `Anonymize.NameGone` | src/vision/janus_engine.py:380-388 | for a plain alphanumeric name other than "the" and "company", the four passes together do what the first does, and no whole-word occurrence of the name in any letter case is left |
| `Anonymize.PassUnchanged` | src/vision/janus_engine.py:387-388 | a pass over any casing of the name leaves text with no whole-word occurrence of the name unchanged |
| `Anonymize.NothingToReplace` | src/vision/janus_engine.py:373-394 | text with no whole-word occurrence of the name and no match of either phrase comes back unchanged |
| `Regex.ReplaceWord` | src/vision/janus_engine.py:387-388 | text with no whole-word occurrence of the word is unchanged; otherwise the text before the first case-insensitive whole-word occurrence is kept, that occurrence becomes the replacement, and the scan resumes right after it; after a replaceable word is replaced by "The Company", no whole-word occurrence of the word is left |
| `Regex.ReplaceWordStep` | src/vision/janus_engine.py:387-388 | from any index, the scan copies the text up to the next whole-word occurrence of a non-empty word, writes the replacement for it, and resumes after it; with `ReplaceWordUnchanged` this fixes the whole output |
| `Regex.ReplaceWordUnchanged` | src/vision/janus_engine.py:387-388 | a whole-word replacement leaves text with no occurrence unchanged |
| `Regex.ClassRunEnd` | src/vision/janus_engine.py:391-392 | where the greedy `[class]+` stops: every character before it is in the class, and the character there is not |
| `Regex.ReplacePhrase` | src/vision/janus_engine.py:391-392 | text where the phrase never matches is unchanged; otherwise the text before the first match is kept, the lead and the whole class run after it (the founder's name, the city) become the replacement, and the scan resumes where the run stops; the output then contains the replacement |
| `Regex.ReplacePhraseStep` | src/vision/janus_engine.py:391-392 | from any index, the scan copies the text up to the next match, writes the replacement in place of the lead and the maximal class run, and resumes where the run stops; with `ReplacePhraseUnchanged` this fixes the whole output |
| `Regex.PhraseReplaced` | src/vision/janus_engine.py:391-392 | wherever "founded by " or "headquarters in " is followed by at least one character of its class, the output contains the replacement phrase |
| `Regex.ReplacePhraseUnchanged` | src/vision/janus_engine.py:391-392 | a phrase rewrite leaves text where the phrase never matches unchanged |
| `Research.LineCapture` | src/vision/janus_engine.py:308 | the match of `\s*(.+?)(?:\n\|$)` after a label: it is a valid split, whitespace (newlines included) then a newline-free group ending at a newline or the end; among all valid splits it has the latest group start and, for that start, the shortest group; None exactly when no split exists |
| `Research.RateCapture` | src/vision/janus_engine.py:313 | the match of `\s*(\d+\.?\d*%?)` after the label: a valid split whose group is a rate literal, the longest one at the only possible start; None exactly when no split exists |
| `Research.RateStartsWithDigit` | src/vision/janus_engine.py:313 | a rate literal starts with a digit and holds no whitespace, so the `.strip()` at line 315 changes nothing |
| `Research.FirstHit` | src/vision/janus_engine.py:308-325 | `re.search` finds the leftmost index where the label and its pattern both match |
| `Research.Search` | src/vision/janus_engine.py:308-325 | no match exactly when no index matches; otherwise the value is the capture group at the leftmost index where the label and its pattern both match, even when the label occurs earlier without a match; a rest-of-line value is non-empty with no newline; a CAGR value is a rate literal |
| `Research.MissingLabel` | src/vision/janus_engine.py:308-325 | a label absent from the text finds nothing |
| `Research.FirstKeyValue` | src/vision/janus_engine.py:308 | at an occurrence of the label with no match before it, followed by a non-space character, the value is the rest of that character's line |
| `Research.FirstRateValue` | src/vision/janus_engine.py:313 | at an occurrence of the label with no match before it, followed after any whitespace by a digit, the CAGR value is the longest rate literal that digit starts (`RateCapture`), not a shorter prefix |
| `Research.CagrAfterNotAvailable` | src/vision/janus_engine.py:313 | for "CAGR: N/A", then "CAGR: 5%", then "CAGR: 7%" on three lines, the value is "5%": an earlier label with no rate does not stop the search |
| `Research.Usable` | src/vision/janus_engine.py:309 | a captured value is used exactly when it does not contain "N/A" |
| `Research.LineValue` | src/vision/janus_engine.py:308-310 | a one-line field is present exactly when the value is usable, and is then the value with whitespace stripped from both ends |
| `Research.ListValue` | src/vision/janus_engine.py:318-320 | a list field is empty without a usable value; otherwise it holds one item per ';'-separated piece of the value (the semicolon count plus one), the k-th being the k-th piece stripped, free of ';' and of whitespace at either end |
| `Research.ParseResearchResponse` | src/vision/janus_engine.py:294-335 | a missing response gives the default record; otherwise each field is the value its label search yields, or its default |
| `Research.CagrStripped` | src/vision/janus_engine.py:313-315 | stripping a rate literal changes nothing |
| `Research.MarketSizeNotAvailable` | src/vision/janus_engine.py:308-310 | "MARKET_SIZE: N/A" leaves the market size absent |
| `Research.ValueOnNextLine` | src/vision/janus_engine.py:308 | the whitespace after a label crosses a newline: "MARKET_SIZE:\n$5B" gives "$5B" |
| `Research.CagrExample` | src/vision/janus_engine.py:313-315 | "CAGR: 12.5%" gives "12.5%" |
| `Research.CagrNotAvailable` | src/vision/janus_engine.py:313-315 | "CAGR: N/A" leaves the CAGR absent |
| `Images.SectorOf` | src/vision/janus_engine.py:466-563 | the manufacturing entry is chosen exactly for the key "manufacturing" |
| `Images.SectorKey` | src/vision/janus_engine.py:562 | the key is absent exactly for a blank sector (IndexError), and is otherwise a non-empty lower-case word |
| `Images.ImagePrompts` | src/vision/janus_engine.py:562-565 | a blank sector has no prompts; every other sector gets at least two |
| `Images.Prompts` | src/vision/janus_engine.py:467-559 | each list of the table has as many prompts as the source lists (three product, three facility and two abstract for manufacturing; three, two and two for every other sector), the n-th being the n-th text listed |
| `Images.UnknownSectorPrompts` | src/vision/janus_engine.py:563 | a sector whose first word is not in the table gets the manufacturing prompts |
| `Images.UnknownTypePrompts` | src/vision/janus_engine.py:565 | an image type not in the table gets the sector's abstract prompts |
| `Images.BottomColour` | src/vision/janus_engine.py:577-586 | each known sector has its bottom colour, an unknown one gets the manufacturing colour, and every one is a valid colour |
| `Images.Channel` | src/vision/janus_engine.py:590-592 | the channel at row y is the linear interpolation `c0 + (c1 - c0) * y / 600` rounded down, stated without division as `600 * v <= 600 * c0 + (c1 - c0) * y < 600 * v + 600`; it equals the top value at row 0 and the bottom value at row 600, and stays between the two |
| `Images.ChannelMonotone` | src/vision/janus_engine.py:590-592 | each channel moves monotonically from its top value to its bottom value |
| `Images.RowColour` | src/vision/janus_engine.py:589-592 | row 0 is the top colour, and every row from two valid colours is a valid colour |
| `Images.RenderGradient` | src/vision/janus_engine.py:589-593 | the loop paints 600 rows, row y in the colour at y |
| `Images.PlaceholderImage` | src/vision/janus_engine.py:567-618 | a blank sector gives none; otherwise (`Images.DrawnFor`) the title is the upper-cased sector, the caption the bracketed upper-cased type, the file name comes from the first word, and the rows run from (45,35,75) to the sector's colour |
| `Images.FileName` | src/vision/janus_engine.py:614 | the file name is the lower-cased word, '_', the image type, '_', the timestamp and ".png" |
| `Images.FileNameWord` | src/vision/janus_engine.py:586-614 | the file name starts with the same lower-cased first word that picked the colours |
| `Engine.JanusEngine.GenerateSectorImage` | src/vision/janus_engine.py:397-462 | a blank sector gives none; any other gives the placeholder, whether or not the server is available; the cache is kept or filled with the probe |
| `Engine.BatchSize` | src/vision/janus_engine.py:759 | the batch asks for `min(count, 3)` images, and none for a count of zero or less |
| `Engine.DrawnAppend` | src/vision/janus_engine.py:759-762 | appending the next type's placeholder keeps the list in type order |
| `Engine.GenerateSectorImages` | src/vision/janus_engine.py:743-764 | none exactly when at least one image is asked for and the sector is blank; otherwise `min(count, 3)` placeholders for product, facility and abstract, in that order; the engine's cache is unchanged when it was filled or no image is asked for, and otherwise holds the probe's answer |
| `Text.Strip` | src/vision/janus_engine.py:150 | `str.strip()`: empty exactly for all-whitespace input, no whitespace at either end, and the value is the input with both whitespace runs removed |
| `Text.Split` | src/vision/janus_engine.py:319 | `str.split(';')`: the count plus one pieces, none containing ';', joined back they give the input |
| `Text.FirstWordLower` | src/vision/janus_engine.py:586-614 | lower-casing then taking the first word equals taking the first word then lower-casing |

## Left out

- The HTTP calls (`requests.get`, `requests.post`) are not modelled as I/O. Their replies are parameters.
- The JSON decoding of a reply is not modelled. A non-string `response` field makes `.strip()` raise, which is modelled as `Raised`.
- The JSON decoding of the catalogue is not modelled either. `ModelEntry` can hold only a string name or a missing one. An entry that is not an object, or whose `name` is null or not a string, makes `.lower()` raise inside the loop, and the bare `except` turns that into False unless an earlier entry names Janus. Such a catalogue is represented by `CatalogRaised` when no earlier entry names Janus, and otherwise by the list cut just after the first Janus entry. Both give the probe's answer.
- `stream: False` in the request body is not a field of `Request`; it is the same in every request.
- The torch image-generation path is not modelled. `self.processor` is never set, so it always raises and falls back to the placeholder; `random.choice`, the seed and the saved model image are unused on that path.
- `analyze_image`, `generate_chart_image` and `synthesize_research` are not part of this model. The parser they would feed is modelled on its own.
- PIL drawing is not modelled: fonts, text positions, the canvas width (800 for every row), the label colours, and saving the file.
- `mkdir` of the output directory and the output path are not modelled; the model returns the file name.
- `datetime.now()` is not modelled; the timestamp is an input.
- The sampling settings are reals that are only passed on or defaulted; the device, image size and HuggingFace model name are not modelled.
- The `get_janus_engine` singleton is not modelled: `GenerateSectorImages` takes the engine as a parameter. `print` output and the `__main__` demo are not modelled.
- `src/content_generation/__init__.py` is not part of this model: it only re-exports names.
- Character classes, case maps and `\b` are modelled for ASCII only.
- `Images.ImagePrompts`: the inner default `["Professional business image"]` is not modelled. Every sector entry has an "abstract" list, so it is never returned.
- `Images.Channel`: the float division is modelled as exact floor division. Float rounding is far smaller than the gap of 1/600 between a non-integral quotient and the next integer.
- `Anonymize.NameGone` is proved only for names of ASCII letters and digits other than "the" and "company". For those two, the replacement "The Company" itself contains the name. A name of several words can be formed again by its own replacement: for the name "Acme The", each pass turns the last "Acme Acme The" into "Acme" followed by the replacement, which starts with "The", so "Acme Acme Acme Acme Acme The" still holds "Acme The" after the four passes ("Acme The Company company COMPANY Company"). A name that starts or ends with a character other than a letter, digit or `_` has no `\b` at that end.
- `Anonymize.NameGone` holds after the four name passes, not for the anonymiser's whole output. The two phrase rewrites that follow write "the promoters" and "India", and they can bring the name back: with the name "India", "headquarters in Delhi" becomes "headquarters in India". The same holds for names such as "promoters", "founded", "by", "headquarters" and "in".
- The length of `anonymize_text`'s result is counted in characters, as Python counts code points.

## Findings

| source | as written | input that shows it | evidently intended | confidence | as-written member | corrected member |
|---|---|---|---|---|---|---|
| src/vision/janus_engine.py:246-252 | the rule-based anonymiser runs only when `generate_text` returns None or fewer than ten characters; when the model is unreachable, `generate_text` returns the keyword template instead, and the anonymisation prompt always contains "investment" (rule 4), so the 188-character investment bullet list is returned in place of the text | server unavailable and fallback request failing, any text (for example the empty text, whose rule-based result is "") | when the model produced no text, the rule-based anonymisation of the input is returned | not executed; high | `Engine.AnonymizeOfflineIsTemplate`, `Engine.AnonymizeOfflineCounterexample` | `Engine.IntendedAnonymizeOutcome`, `Engine.IntendedOfflineIsRuleBased` |
