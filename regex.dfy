/** The two kinds of `re.sub(..., flags=re.IGNORECASE)` that the rule-based
    anonymiser performs, written out on ASCII text:

    - `\b<word>\b`: a case-insensitive whole-word occurrence of a literal word;
    - `<lead>[class]+`: a case-insensitive literal lead followed by the maximal
      run of a character class.

    Both scan left to right and replace non-overlapping matches, as re.sub does;
    an empty match (the word "") is replaced and the scan then copies one
    character, as re.sub does since Python 3.7. */
module Regex {
  import opened Text

  /** \b at index i of t. `wordBefore` says whether the character just before t
      is a \w character, for t read as the tail of a longer text; for a whole
      text it is false. */
  predicate BoundaryIn(wordBefore: bool, t: string, i: int)
    requires 0 <= i <= |t|
  {
    (if i == 0 then wordBefore else IsWordChar(t[i - 1])) != (i < |t| && IsWordChar(t[i]))
  }

  /** The literal w, ignoring case, occurs in t at index i. */
  predicate FoldMatch(t: string, i: int, w: string) {
    0 <= i && i + |w| <= |t| && forall k :: 0 <= k < |w| ==> LowerChar(t[i + k]) == LowerChar(w[k])
  }

  /** The pattern \b<w>\b, ignoring case, matches t at index i. */
  predicate WholeWordIn(wordBefore: bool, t: string, i: int, w: string)
    requires 0 <= i <= |t|
  {
    FoldMatch(t, i, w) && BoundaryIn(wordBefore, t, i) && BoundaryIn(wordBefore, t, i + |w|)
  }

  predicate WholeWordAt(t: string, i: int, w: string)
    requires 0 <= i <= |t|
  {
    WholeWordIn(false, t, i, w)
  }

  /** No whole-word occurrence of w anywhere in t. */
  predicate NoWholeWord(wordBefore: bool, t: string, w: string) {
    forall q :: 0 <= q <= |t| ==> !WholeWordIn(wordBefore, t, q, w)
  }

  /** Whether the character before index i of t is a \w character. */
  predicate WordBefore(t: string, i: int)
    requires 0 <= i <= |t|
  {
    i > 0 && IsWordChar(t[i - 1])
  }

  /** q is the first index where \b<w>\b matches t. */
  predicate FirstWholeWord(t: string, q: int, w: string) {
    0 <= q <= |t| && WholeWordAt(t, q, w) && forall p :: 0 <= p < q ==> !WholeWordAt(t, p, w)
  }

  /** What re.sub writes for the part of t that starts at index i. */
  function ReplaceWordFrom(t: string, i: nat, w: string, repl: string): string
    requires i <= |t|
    decreases |t| - i
  {
    if WholeWordAt(t, i, w) then
      if |w| > 0 then repl + ReplaceWordFrom(t, i + |w|, w, repl)
      else if i == |t| then repl
      else repl + [t[i]] + ReplaceWordFrom(t, i + 1, w, repl)
    else if i == |t| then []
    else [t[i]] + ReplaceWordFrom(t, i + 1, w, repl)
  }

  /** re.sub(r'\b' + re.escape(w) + r'\b', repl, t, flags=re.IGNORECASE).
      Text with no whole-word occurrence of w is left as it is; otherwise the
      text before the first occurrence is kept, the occurrence becomes repl,
      and the scan goes on after it. After a replaceable word is replaced by
      "The Company", no whole-word occurrence of it, in any letter case, is
      left. */
  function ReplaceWord(t: string, w: string, repl: string): (r: string)
    ensures NoWholeWord(false, t, w) ==> r == t
    ensures forall q :: |w| > 0 && FirstWholeWord(t, q, w) ==>
      r == t[..q] + repl + ReplaceWordFrom(t, q + |w|, w, repl)
    ensures Replaceable(w) && repl == TheCompany ==> NoWholeWord(false, r, w)
  {
    ReplaceWordFirst(t, w, repl);
    if NoWholeWord(false, t, w) then
      ReplaceWordUnchanged(t, 0, w, repl);
      ReplaceWordFrom(t, 0, w, repl)
    else if Replaceable(w) && repl == TheCompany then
      NoOccurrenceFrom(t, 0, w);
      ReplaceWordFrom(t, 0, w, repl)
    else ReplaceWordFrom(t, 0, w, repl)
  }

  lemma ReplaceWordFirst(t: string, w: string, repl: string)
    ensures forall q :: |w| > 0 && FirstWholeWord(t, q, w) ==>
      ReplaceWordFrom(t, 0, w, repl) == t[..q] + repl + ReplaceWordFrom(t, q + |w|, w, repl)
  {
    forall q | |w| > 0 && FirstWholeWord(t, q, w)
      ensures ReplaceWordFrom(t, 0, w, repl) == t[..q] + repl + ReplaceWordFrom(t, q + |w|, w, repl)
    {
      ReplaceWordStep(t, 0, w, repl, q);
    }
  }

  /** One step of the scan: from i, the text up to the next whole-word
      occurrence q of a non-empty w is copied, the occurrence is written as
      repl, and the scan resumes right after it. */
  lemma {:induction false} ReplaceWordStep(t: string, i: nat, w: string, repl: string, q: nat)
    requires i <= q <= |t| && |w| > 0 && WholeWordAt(t, q, w)
    requires forall p :: i <= p < q ==> !WholeWordAt(t, p, w)
    ensures q + |w| <= |t|
    ensures ReplaceWordFrom(t, i, w, repl) == t[i..q] + (repl + ReplaceWordFrom(t, q + |w|, w, repl))
    decreases q - i
  {
    if i < q {
      ReplaceWordStep(t, i + 1, w, repl, q);
      WordCopied(t, i, q, w, repl, repl + ReplaceWordFrom(t, q + |w|, w, repl));
    } else {
      assert t[i..q] == [];
    }
  }

  /** Where no occurrence starts, the scan copies one character: what it
      writes from i + 1 up to q, preceded by t[i], is what it writes from i. */
  lemma WordCopied(t: string, i: nat, q: nat, w: string, repl: string, tail: string)
    requires i < q <= |t| && !WholeWordAt(t, i, w)
    requires ReplaceWordFrom(t, i + 1, w, repl) == t[i + 1..q] + tail
    ensures ReplaceWordFrom(t, i, w, repl) == t[i..q] + tail
  {
    var rest := ReplaceWordFrom(t, i + 1, w, repl);
    assert ReplaceWordFrom(t, i, w, repl) == [t[i]] + rest;
    ConsSlice(t, i, q, tail);
  }

  /** Text with no whole-word occurrence of w is left as it is. */
  lemma {:induction false} ReplaceWordUnchanged(t: string, i: nat, w: string, repl: string)
    requires i <= |t|
    requires forall q :: i <= q <= |t| ==> !WholeWordAt(t, q, w)
    ensures ReplaceWordFrom(t, i, w, repl) == t[i..]
    decreases |t| - i
  {
    if i < |t| {
      ReplaceWordUnchanged(t, i + 1, w, repl);
      assert t[i..] == [t[i]] + t[i + 1..];
    }
  }

  /** Words equal up to case are the same pattern under re.IGNORECASE. */
  lemma SameFoldSamePattern(w1: string, w2: string, wordBefore: bool, t: string, q: int)
    requires Lower(w1) == Lower(w2) && 0 <= q <= |t|
    ensures WholeWordIn(wordBefore, t, q, w1) <==> WholeWordIn(wordBefore, t, q, w2)
  {
    assert |w1| == |Lower(w1)| == |Lower(w2)| == |w2|;
    assert forall k :: 0 <= k < |w1| ==> LowerChar(w1[k]) == Lower(w1)[k] == Lower(w2)[k] == LowerChar(w2[k]);
  }

  /** A non-empty word of ASCII letters and digits only. */
  predicate Plain(w: string) {
    w != [] && forall k :: 0 <= k < |w| ==> IsAlnum(w[k])
  }

  /** The replacement used for a company name. */
  const TheCompany: string := "The Company"

  /** A plain word that is neither of the two words of "The Company". */
  predicate Replaceable(w: string) {
    Plain(w) && Lower(w) != "the" && Lower(w) != "company"
  }

  /** An occurrence of a plain word is a whole run of \w characters: the
      characters before and after it are not \w characters. */
  lemma OccurrenceIsRun(wordBefore: bool, t: string, q: int, w: string)
    requires Plain(w) && 0 <= q <= |t| && WholeWordIn(wordBefore, t, q, w)
    ensures forall k :: q <= k < q + |w| ==> IsWordChar(t[k])
    ensures !(if q == 0 then wordBefore else IsWordChar(t[q - 1]))
    ensures q + |w| == |t| || !IsWordChar(t[q + |w|])
  {
    forall k | q <= k < q + |w| ensures IsWordChar(t[k]) {
      assert LowerChar(t[q + (k - q)]) == LowerChar(w[k - q]);
    }
  }

  /** \b at index p of a + b, at or after the end of a, is \b in b read after
      the last character of a. */
  lemma BoundaryInTail(wordBefore: bool, a: string, b: string, p: int)
    requires |a| > 0 && |a| <= p <= |a + b|
    ensures BoundaryIn(wordBefore, a + b, p) == BoundaryIn(IsWordChar(a[|a| - 1]), b, p - |a|)
  {
    if p == |a| {
      assert (a + b)[p - 1] == a[|a| - 1];
    } else {
      assert (a + b)[p - 1] == b[p - |a| - 1];
    }
    if p < |a + b| {
      assert (a + b)[p] == b[p - |a|];
    }
  }

  /** An occurrence in the tail b of a + b is an occurrence in b, read after the
      last character of a. */
  lemma OccurrenceInTail(wordBefore: bool, a: string, b: string, q: int, w: string)
    requires |a| > 0 && |a| <= q <= |a + b|
    requires WholeWordIn(wordBefore, a + b, q, w)
    ensures WholeWordIn(IsWordChar(a[|a| - 1]), b, q - |a|, w)
  {
    var j := q - |a|;
    forall k | 0 <= k < |w| ensures LowerChar(b[j + k]) == LowerChar(w[k]) {
      assert (a + b)[q + k] == b[j + k];
    }
    BoundaryInTail(wordBefore, a, b, q);
    BoundaryInTail(wordBefore, a, b, q + |w|);
  }

  /** Inside a run of \w characters no occurrence of a plain word starts, so
      the scan copies the run. */
  lemma {:induction false} CopyRun(t: string, j: nat, e: nat, w: string, repl: string)
    requires Plain(w) && 0 < j <= e <= |t|
    requires forall k :: j - 1 <= k < e ==> IsWordChar(t[k])
    ensures ReplaceWordFrom(t, j, w, repl) == t[j..e] + ReplaceWordFrom(t, e, w, repl)
    decreases e - j
  {
    if j < e {
      assert !BoundaryIn(false, t, j);
      CopyRun(t, j + 1, e, w, repl);
      assert t[j..e] == [t[j]] + t[j + 1..e];
    }
  }

  /** A non-word character is copied: no occurrence of a plain word starts there. */
  lemma CopyNonWord(t: string, e: nat, w: string, repl: string)
    requires Plain(w) && e < |t| && !IsWordChar(t[e])
    ensures ReplaceWordFrom(t, e, w, repl) == [t[e]] + ReplaceWordFrom(t, e + 1, w, repl)
  {
    if WholeWordAt(t, e, w) {
      OccurrenceIsRun(false, t, e, w);
    }
  }

  /** Index of the first non-word character at or after i (or |t|). */
  function RunEnd(t: string, i: nat): (e: nat)
    requires i <= |t|
    ensures i <= e <= |t|
    ensures forall k :: i <= k < e ==> IsWordChar(t[k])
    ensures e == |t| || !IsWordChar(t[e])
    decreases |t| - i
  {
    if i < |t| && IsWordChar(t[i]) then RunEnd(t, i + 1) else i
  }

  /** An occurrence of a plain word that starts inside "The Company",
      followed by a non-word character or by nothing, is one of its two words. */
  lemma OccurrenceInReplacement(rest: string, w: string, q: nat)
    requires Plain(w) && q < |TheCompany|
    requires rest == [] || !IsWordChar(rest[0])
    requires WholeWordIn(false, TheCompany + rest, q, w)
    ensures (q == 0 && Lower(w) == "the") || (q == 4 && Lower(w) == "company")
  {
    var s := TheCompany + rest;
    OccurrenceIsRun(false, s, q, w);
    var n := |w|;
    assert s[..11] == TheCompany;
    if q == 0 {
      assert IsWordChar(s[1]) && IsWordChar(s[2]) && !IsWordChar(s[3]);
      assert n == 3;
      forall k | 0 <= k < 3 ensures Lower(w)[k] == "the"[k] {
        assert LowerChar(s[0 + k]) == LowerChar(w[k]);
      }
    } else if q == 4 {
      assert forall k :: 5 <= k < 11 ==> IsWordChar(s[k]);
      assert n == 7;
      forall k | 0 <= k < 7 ensures Lower(w)[k] == "company"[k] {
        assert LowerChar(s[4 + k]) == LowerChar(w[k]);
      }
    }
  }

  /** From a run start i, the scan copies the rest of the run and then the
      non-word character that ends it. */
  lemma ScanCopiesRun(t: string, i: nat, w: string)
    requires Plain(w) && i < |t| && IsWordChar(t[i])
    ensures var e := RunEnd(t, i + 1); var tail := ReplaceWordFrom(t, e, w, TheCompany);
      && ReplaceWordFrom(t, i + 1, w, TheCompany) == t[i + 1..e] + tail
      && (tail == [] || (e < |t| && tail[0] == t[e]))
  {
    var e := RunEnd(t, i + 1);
    CopyRun(t, i + 1, e, w, TheCompany);
    if e < |t| {
      CopyNonWord(t, e, w, TheCompany);
    }
  }

  /** An occurrence at the start of a copy of the run t[i..e], followed by a
      non-word character or by nothing, is an occurrence in t at i. */
  lemma OccurrenceAtRunCopy(t: string, i: nat, e: nat, tail: string, w: string)
    requires Plain(w) && i < e <= |t|
    requires forall k :: i <= k < e ==> IsWordChar(t[k])
    requires e == |t| || !IsWordChar(t[e])
    requires tail == [] || !IsWordChar(tail[0])
    requires WholeWordIn(WordBefore(t, i), t[i..e] + tail, 0, w)
    ensures WholeWordAt(t, i, w)
  {
    var out := t[i..e] + tail;
    var n := |w|;
    OccurrenceIsRun(WordBefore(t, i), out, 0, w);
    assert n <= e - i by {
      if e - i < |out| { assert out[e - i] == tail[0]; }
    }
    assert forall k :: 0 <= k < e - i ==> out[k] == t[i + k];
    forall k | 0 <= k < n ensures LowerChar(t[i + k]) == LowerChar(w[k]) {
      assert out[0 + k] == t[i + k];
    }
    assert out[0] == t[i];
  }

  /** The output written from a word character t[i] is the rest of its run
      followed by what the scan writes after the run, which starts with a
      non-word character or is empty. */
  lemma CopyIsRunThenTail(t: string, i: nat, w: string)
    requires Plain(w) && i < |t| && IsWordChar(t[i])
    ensures var e := RunEnd(t, i + 1); var tail := ReplaceWordFrom(t, e, w, TheCompany);
      && [t[i]] + ReplaceWordFrom(t, i + 1, w, TheCompany) == t[i..e] + tail
      && (tail == [] || !IsWordChar(tail[0]))
  {
    var e := RunEnd(t, i + 1);
    ScanCopiesRun(t, i, w);
    ConsRun(t, i, e, ReplaceWordFrom(t, i + 1, w, TheCompany), ReplaceWordFrom(t, e, w, TheCompany));
  }

  lemma ConsRun(t: string, i: nat, e: nat, rest: string, tail: string)
    requires i < e <= |t| && rest == t[i + 1..e] + tail
    ensures [t[i]] + rest == t[i..e] + tail
  {
    assert t[i..e] == [t[i]] + t[i + 1..e];
  }

  /** An occurrence of a plain word at the start of s begins with a \w
      character. */
  lemma MatchStartsWithWordChar(wordBefore: bool, s: string, w: string)
    requires Plain(w) && WholeWordIn(wordBefore, s, 0, w)
    ensures |s| > 0 && IsWordChar(s[0])
  {
    OccurrenceIsRun(wordBefore, s, 0, w);
  }

  /** An occurrence at the start of the output written from a copied
      character t[i] is an occurrence in t at i. */
  lemma OccurrenceAtCopy(t: string, i: nat, w: string, out: string)
    requires Plain(w) && i < |t|
    requires out == [t[i]] + ReplaceWordFrom(t, i + 1, w, TheCompany)
    requires WholeWordIn(WordBefore(t, i), out, 0, w)
    ensures WholeWordAt(t, i, w)
  {
    MatchStartsWithWordChar(WordBefore(t, i), out, w);
    assert out[0] == t[i];
    CopyIsRunThenTail(t, i, w);
    var e := RunEnd(t, i + 1);
    OccurrenceAtRunCopy(t, i, e, ReplaceWordFrom(t, e, w, TheCompany), w);
  }

  /** If no occurrence starts inside a, and b read after a holds none, then
      a + b holds none. */
  lemma NoWholeWordConcat(before: bool, a: string, b: string, w: string)
    requires |a| > 0
    requires forall q :: 0 <= q < |a| ==> !WholeWordIn(before, a + b, q, w)
    requires NoWholeWord(IsWordChar(a[|a| - 1]), b, w)
    ensures NoWholeWord(before, a + b, w)
  {
    forall q | |a| <= q <= |a + b| ensures !WholeWordIn(before, a + b, q, w) {
      if WholeWordIn(before, a + b, q, w) {
        OccurrenceInTail(before, a, b, q, w);
      }
    }
  }

  /** One step of NoOccurrenceFrom: an occurrence at i was replaced. */
  lemma ReplacedStep(t: string, i: nat, w: string)
    requires Replaceable(w) && i < |t| && WholeWordAt(t, i, w)
    requires NoWholeWord(WordBefore(t, i + |w|), ReplaceWordFrom(t, i + |w|, w, TheCompany), w)
    ensures NoWholeWord(WordBefore(t, i), ReplaceWordFrom(t, i, w, TheCompany), w)
  {
    var n := |w|;
    var rest := ReplaceWordFrom(t, i + n, w, TheCompany);
    assert ReplaceWordFrom(t, i, w, TheCompany) == TheCompany + rest;
    OccurrenceIsRun(false, t, i, w);
    if i + n < |t| {
      CopyNonWord(t, i + n, w, TheCompany);
    }
    forall q | 0 <= q < |TheCompany| ensures !WholeWordIn(false, TheCompany + rest, q, w) {
      if WholeWordIn(false, TheCompany + rest, q, w) {
        OccurrenceInReplacement(rest, w, q);
      }
    }
    assert WordBefore(t, i + n);
    NoWholeWordConcat(false, TheCompany, rest, w);
  }

  /** One step of NoOccurrenceFrom: t[i] was copied. */
  lemma CopiedStep(t: string, i: nat, w: string)
    requires Replaceable(w) && i < |t| && !WholeWordAt(t, i, w)
    requires NoWholeWord(WordBefore(t, i + 1), ReplaceWordFrom(t, i + 1, w, TheCompany), w)
    ensures NoWholeWord(WordBefore(t, i), ReplaceWordFrom(t, i, w, TheCompany), w)
  {
    var rest := ReplaceWordFrom(t, i + 1, w, TheCompany);
    var out := [t[i]] + rest;
    assert ReplaceWordFrom(t, i, w, TheCompany) == out;
    if WholeWordIn(WordBefore(t, i), out, 0, w) {
      OccurrenceAtCopy(t, i, w, out);
    }
    NoWholeWordConcat(WordBefore(t, i), [t[i]], rest, w);
  }

  /** The output of the scan from index i holds no occurrence of w, read after
      the character before i. */
  lemma {:induction false} NoOccurrenceFrom(t: string, i: nat, w: string)
    requires Replaceable(w) && i <= |t|
    ensures NoWholeWord(WordBefore(t, i), ReplaceWordFrom(t, i, w, TheCompany), w)
    decreases |t| - i
  {
    if i == |t| {
      assert ReplaceWordFrom(t, i, w, TheCompany) == [];
    } else if WholeWordAt(t, i, w) {
      NoOccurrenceFrom(t, i + |w|, w);
      ReplacedStep(t, i, w);
    } else {
      NoOccurrenceFrom(t, i + 1, w);
      CopiedStep(t, i, w);
    }
  }

  // ---------------------------------------------------------------------
  // `<lead>[class]+` rewrites

  /** The class [A-Za-z\s], or [A-Za-z\s,] when `comma` holds. */
  predicate InRunClass(c: char, comma: bool) {
    IsLetter(c) || IsSpace(c) || (comma && c == ',')
  }

  /** End of the maximal run of class characters that starts at j: where the
      greedy `[class]+` stops. */
  function ClassRunEnd(t: string, j: nat, comma: bool): (e: nat)
    requires j <= |t|
    ensures j <= e <= |t|
    ensures forall k :: j <= k < e ==> InRunClass(t[k], comma)
    ensures e == |t| || !InRunClass(t[e], comma)
    decreases |t| - j
  {
    if j < |t| && InRunClass(t[j], comma) then ClassRunEnd(t, j + 1, comma) else j
  }

  /** `<lead>[class]+` matches t at index i, ignoring case. */
  predicate PhraseAt(t: string, i: nat, lead: string, comma: bool) {
    i + |lead| < |t| && FoldMatch(t, i, lead) && InRunClass(t[i + |lead|], comma)
  }

  /** q is the first index where the phrase matches t. */
  predicate FirstPhrase(t: string, q: int, lead: string, comma: bool) {
    0 <= q < |t| && PhraseAt(t, q, lead, comma) && forall p :: 0 <= p < q ==> !PhraseAt(t, p, lead, comma)
  }

  /** What re.sub writes for the part of t that starts at index i. */
  function ReplacePhraseFrom(t: string, i: nat, lead: string, comma: bool, repl: string): string
    requires i <= |t|
    decreases |t| - i
  {
    if i == |t| then []
    else if PhraseAt(t, i, lead, comma) then
      repl + ReplacePhraseFrom(t, ClassRunEnd(t, i + |lead|, comma), lead, comma, repl)
    else [t[i]] + ReplacePhraseFrom(t, i + 1, lead, comma, repl)
  }

  /** re.sub(lead + '[class]+', repl, t, flags=re.IGNORECASE): text where the
      phrase never matches is left as it is. Otherwise the text before the
      first match is kept, the lead and the whole run of class characters
      after it become repl, and the scan goes on where the run stops; so the
      replacement appears in the output. */
  function ReplacePhrase(t: string, lead: string, comma: bool, repl: string): (r: string)
    ensures (forall q :: 0 <= q < |t| ==> !PhraseAt(t, q, lead, comma)) ==> r == t
    ensures forall q :: FirstPhrase(t, q, lead, comma) ==>
      r == t[..q] + repl + ReplacePhraseFrom(t, ClassRunEnd(t, q + |lead|, comma), lead, comma, repl)
    ensures (exists q :: 0 <= q < |t| && PhraseAt(t, q, lead, comma)) ==> Contains(r, repl)
  {
    ReplacePhraseFirst(t, lead, comma, repl);
    if exists q :: 0 <= q < |t| && PhraseAt(t, q, lead, comma) then
      var q :| 0 <= q < |t| && PhraseAt(t, q, lead, comma);
      PhraseReplaced(t, 0, lead, comma, repl, q);
      ReplacePhraseFrom(t, 0, lead, comma, repl)
    else
      ReplacePhraseUnchanged(t, 0, lead, comma, repl);
      ReplacePhraseFrom(t, 0, lead, comma, repl)
  }

  lemma ReplacePhraseFirst(t: string, lead: string, comma: bool, repl: string)
    ensures forall q :: FirstPhrase(t, q, lead, comma) ==>
      ReplacePhraseFrom(t, 0, lead, comma, repl)
        == t[..q] + repl + ReplacePhraseFrom(t, ClassRunEnd(t, q + |lead|, comma), lead, comma, repl)
  {
    forall q | FirstPhrase(t, q, lead, comma)
      ensures ReplacePhraseFrom(t, 0, lead, comma, repl)
        == t[..q] + repl + ReplacePhraseFrom(t, ClassRunEnd(t, q + |lead|, comma), lead, comma, repl)
    {
      ReplacePhraseStep(t, 0, lead, comma, repl, q);
    }
  }

  /** One step of the scan: from i, the text up to the next match q is
      copied, the lead and the maximal class run after it are written as
      repl, and the scan resumes where the run stops. */
  lemma {:induction false} ReplacePhraseStep(t: string, i: nat, lead: string, comma: bool, repl: string, q: nat)
    requires i <= q < |t| && PhraseAt(t, q, lead, comma)
    requires forall p :: i <= p < q ==> !PhraseAt(t, p, lead, comma)
    ensures ReplacePhraseFrom(t, i, lead, comma, repl)
      == t[i..q] + (repl + ReplacePhraseFrom(t, ClassRunEnd(t, q + |lead|, comma), lead, comma, repl))
    decreases q - i
  {
    if i < q {
      ReplacePhraseStep(t, i + 1, lead, comma, repl, q);
      PhraseCopied(t, i, q, lead, comma, repl, repl + ReplacePhraseFrom(t, ClassRunEnd(t, q + |lead|, comma), lead, comma, repl));
    } else {
      PhraseMatched(t, q, lead, comma, repl);
    }
  }

  /** Where the phrase matches, the scan writes repl and resumes where the
      class run stops. */
  lemma PhraseMatched(t: string, q: nat, lead: string, comma: bool, repl: string)
    requires q < |t| && PhraseAt(t, q, lead, comma)
    ensures ReplacePhraseFrom(t, q, lead, comma, repl)
      == t[q..q] + (repl + ReplacePhraseFrom(t, ClassRunEnd(t, q + |lead|, comma), lead, comma, repl))
  {
    assert t[q..q] == [];
  }

  /** Where the phrase does not match, the scan copies one character: what it
      writes from i + 1 up to q, preceded by t[i], is what it writes from i. */
  lemma PhraseCopied(t: string, i: nat, q: nat, lead: string, comma: bool, repl: string, tail: string)
    requires i < q <= |t| && !PhraseAt(t, i, lead, comma)
    requires ReplacePhraseFrom(t, i + 1, lead, comma, repl) == t[i + 1..q] + tail
    ensures ReplacePhraseFrom(t, i, lead, comma, repl) == t[i..q] + tail
  {
    var rest := ReplacePhraseFrom(t, i + 1, lead, comma, repl);
    assert ReplacePhraseFrom(t, i, lead, comma, repl) == [t[i]] + rest;
    ConsSlice(t, i, q, tail);
  }

  lemma ConsSlice(t: string, i: nat, q: nat, tail: string)
    requires i < q <= |t|
    ensures [t[i]] + (t[i + 1..q] + tail) == t[i..q] + tail
  {
    assert t[i..q] == [t[i]] + t[i + 1..q];
  }

  /** Text where the phrase never matches is left as it is. */
  lemma {:induction false} ReplacePhraseUnchanged(t: string, i: nat, lead: string, comma: bool, repl: string)
    requires i <= |t|
    requires forall q :: i <= q < |t| ==> !PhraseAt(t, q, lead, comma)
    ensures ReplacePhraseFrom(t, i, lead, comma, repl) == t[i..]
    decreases |t| - i
  {
    if i < |t| {
      ReplacePhraseUnchanged(t, i + 1, lead, comma, repl);
      assert t[i..] == [t[i]] + t[i + 1..];
    }
  }

  /** Wherever the phrase matches at or after i, the output of the scan from
      i holds the replacement. */
  lemma {:induction false} PhraseReplaced(t: string, i: nat, lead: string, comma: bool, repl: string, q: nat)
    requires i <= q < |t| && PhraseAt(t, q, lead, comma)
    ensures Contains(ReplacePhraseFrom(t, i, lead, comma, repl), repl)
    decreases |t| - i
  {
    var out := ReplacePhraseFrom(t, i, lead, comma, repl);
    if PhraseAt(t, i, lead, comma) {
      var rest := ReplacePhraseFrom(t, ClassRunEnd(t, i + |lead|, comma), lead, comma, repl);
      ContainsInfix([], repl, rest);
      assert [] + repl + rest == out;
    } else {
      PhraseReplaced(t, i + 1, lead, comma, repl, q);
      var rest := ReplacePhraseFrom(t, i + 1, lead, comma, repl);
      assert out == [t[i]] + rest;
      var j :| 0 <= j <= |rest| && OccursAt(rest, repl, j);
      assert out[j + 1..j + 1 + |repl|] == rest[j..j + |repl|];
      assert OccursAt(out, repl, j + 1);
    }
  }
}
