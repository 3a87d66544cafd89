/** The rule-based anonymiser that backs up the model: four case-insensitive
    whole-word passes over the company name, then the founder and the
    headquarters rewrites. */
module Anonymize {
  import opened Text
  import opened Regex

  /** One `re.sub(r'\b' + re.escape(word) + r'\b', replacement, ...)` pass. */
  datatype NamePass = NamePass(word: string, replacement: string)

  /** The four name passes: the name as given, upper-cased, lower-cased and
      title-cased. Under re.IGNORECASE all four are the same pattern. */
  function NamePasses(name: string): (ps: seq<NamePass>)
    ensures |ps| == 4
    ensures forall k :: 0 <= k < |ps| ==> Lower(ps[k].word) == Lower(name)
    ensures ps[0] == NamePass(name, TheCompany)
  {
    assert Lower(Upper(name)) == Lower(name);
    assert Lower(Lower(name)) == Lower(name);
    [ NamePass(name, TheCompany), NamePass(Upper(name), "THE COMPANY"),
      NamePass(Lower(name), "the company"), NamePass(Title(name), TheCompany) ]
  }

  /** The text after the passes ps, the last one applied last; equivalently,
      the first one applied first and the others to its output. */
  function ApplyPasses(t: string, ps: seq<NamePass>): (r: string)
    ensures ps != [] ==> r == ApplyPasses(ReplaceWord(t, ps[0].word, ps[0].replacement), ps[1..])
    decreases |ps|
  {
    if ps == [] then t
    else
      var last := ps[|ps| - 1];
      var init := ps[..|ps| - 1];
      if init == [] then
        assert ps[1..] == [];
        ReplaceWord(ApplyPasses(t, init), last.word, last.replacement)
      else
        assert init[0] == ps[0] && init[1..] == ps[1..][..|ps| - 2];
        ReplaceWord(ApplyPasses(t, init), last.word, last.replacement)
  }

  const FoundedBy: string := "founded by "
  const Promoters: string := "founded by the promoters"
  const HeadquartersIn: string := "headquarters in "
  const InIndia: string := "headquarters in India"

  /** What the rule-based anonymiser returns for text and a company name. For
      a replaceable name the four passes do what the first one does. */
  function Anonymized(text: string, name: string): (r: string)
    ensures Replaceable(name) ==> r == ReplacePhrase(ReplacePhrase(ReplaceWord(text, name, TheCompany),
      FoundedBy, false, Promoters), HeadquartersIn, true, InIndia)
  {
    var named := ApplyPasses(text, NamePasses(name));
    var r := ReplacePhrase(ReplacePhrase(named, FoundedBy, false, Promoters), HeadquartersIn, true, InIndia);
    if Replaceable(name) then NameGone(text, name); r else r
  }

  /** The rule-based anonymiser: the name passes in a loop, then the two
      phrase rewrites, each reassigning the result. */
  method RuleBasedAnonymize(text: string, companyName: string) returns (result: string)
    ensures result == Anonymized(text, companyName)
  {
    result := text;
    var patterns := NamePasses(companyName);
    for k := 0 to |patterns|
      invariant result == ApplyPasses(text, patterns[..k])
    {
      assert patterns[..k + 1][..k] == patterns[..k];
      result := ReplaceWord(result, patterns[k].word, patterns[k].replacement);
    }
    assert patterns[..|patterns|] == patterns;
    result := ReplacePhrase(result, FoundedBy, false, Promoters);
    result := ReplacePhrase(result, HeadquartersIn, true, InIndia);
  }

  /** A pass over a word that folds to the name changes nothing in text that
      holds no whole-word occurrence of the name. */
  lemma PassUnchanged(t: string, name: string, p: NamePass)
    requires Lower(p.word) == Lower(name) && NoWholeWord(false, t, name)
    ensures ReplaceWord(t, p.word, p.replacement) == t
  {
    forall q | 0 <= q <= |t| ensures !WholeWordAt(t, q, p.word) {
      SameFoldSamePattern(p.word, name, false, t, q);
    }
    ReplaceWordUnchanged(t, 0, p.word, p.replacement);
  }

  /** For a replaceable name, the first pass removes every whole-word
      occurrence in every letter case, so the other three passes change
      nothing and no occurrence survives the four. This is a fact about the
      name passes only: the phrase rewrites that follow can write the name
      again when it is a word of "the promoters" or "India". */
  lemma NameGone(text: string, name: string)
    requires Replaceable(name)
    ensures ApplyPasses(text, NamePasses(name)) == ReplaceWord(text, name, TheCompany)
    ensures NoWholeWord(false, ApplyPasses(text, NamePasses(name)), name)
  {
    var ps := NamePasses(name);
    var r := ReplaceWord(text, name, TheCompany);
    assert ps[..0] == [] && ps[..1][..0] == [];
    assert ApplyPasses(text, ps[..1]) == r;
    PassUnchanged(r, name, ps[1]);
    assert ps[..2][..1] == ps[..1];
    assert ApplyPasses(text, ps[..2]) == r;
    PassUnchanged(r, name, ps[2]);
    assert ps[..3][..2] == ps[..2];
    assert ApplyPasses(text, ps[..3]) == r;
    PassUnchanged(r, name, ps[3]);
    assert ps[..4][..3] == ps[..3] && ps[..4] == ps;
  }

  /** Text holding no whole-word occurrence of the name and no match of either
      phrase comes back unchanged. */
  lemma NothingToReplace(text: string, name: string)
    requires NoWholeWord(false, text, name)
    requires forall q :: 0 <= q < |text| ==> !PhraseAt(text, q, FoundedBy, false)
    requires forall q :: 0 <= q < |text| ==> !PhraseAt(text, q, HeadquartersIn, true)
    ensures Anonymized(text, name) == text
  {
    var ps := NamePasses(name);
    assert ps[..0] == [] && ps[..1][..0] == [];
    PassUnchanged(text, name, ps[0]);
    assert ApplyPasses(text, ps[..1]) == text;
    PassUnchanged(text, name, ps[1]);
    assert ps[..2][..1] == ps[..1];
    assert ApplyPasses(text, ps[..2]) == text;
    PassUnchanged(text, name, ps[2]);
    assert ps[..3][..2] == ps[..2];
    assert ApplyPasses(text, ps[..3]) == text;
    PassUnchanged(text, name, ps[3]);
    assert ps[..4][..3] == ps[..3] && ps[..4] == ps;
    assert ApplyPasses(text, ps) == text;
    ReplacePhraseUnchanged(text, 0, FoundedBy, false, Promoters);
    ReplacePhraseUnchanged(text, 0, HeadquartersIn, true, InIndia);
  }

  /** The model's rewrite is kept only when it is a string of at least ten
      characters; a missing or shorter answer is replaced by the rule-based
      result. */
  predicate KeepModelOutput(reply: Option<string>) {
    reply.Some? && |reply.value| >= 10
  }
}
