/** The research-response parser: five labelled fields read out of the model's
    free-text answer with `re.search`, each defaulting when its key is
    missing or its value says "N/A".

    Two regular expressions are modelled, both searched for the leftmost
    position where the key and what follows it match:

    - `<key>\s*(.+?)(?:\n|$)`: the rest of a line, where the `\s*` may run
      across newlines;
    - `CAGR:\s*(\d+\.?\d*%?)`: a rate literal. */
module Research {
  import opened Text

  // ---------------------------------------------------------------------
  // Scanning helpers

  predicate SpacesBetween(t: string, a: int, b: int)
    requires 0 <= a <= b <= |t|
  {
    forall k :: a <= k < b ==> IsSpace(t[k])
  }

  predicate NoNewlineBetween(t: string, a: int, b: int)
    requires 0 <= a <= b <= |t|
  {
    forall k :: a <= k < b ==> t[k] != '\n'
  }

  /** End of the run of whitespace that starts at j: where a greedy `\s*` stops. */
  function SpaceRunEnd(t: string, j: nat): (e: nat)
    requires j <= |t|
    ensures j <= e <= |t| && SpacesBetween(t, j, e)
    ensures e == |t| || !IsSpace(t[e])
    decreases |t| - j
  {
    if j < |t| && IsSpace(t[j]) then SpaceRunEnd(t, j + 1) else j
  }

  /** The first newline at or after j, or |t|. */
  function LineEnd(t: string, j: nat): (e: nat)
    requires j <= |t|
    ensures j <= e <= |t| && NoNewlineBetween(t, j, e)
    ensures e == |t| || t[e] == '\n'
    decreases |t| - j
  {
    if j < |t| && t[j] != '\n' then LineEnd(t, j + 1) else j
  }

  /** The last index in [j, e) that does not hold a newline. */
  function LastNonNewline(t: string, j: nat, e: nat): (r: Option<nat>)
    requires j <= e <= |t|
    ensures r.Some? ==> j <= r.value < e && t[r.value] != '\n'
    ensures r.Some? ==> forall k :: r.value < k < e ==> t[k] == '\n'
    ensures r.None? ==> forall k :: j <= k < e ==> t[k] == '\n'
    decreases e - j
  {
    if e == j then None
    else if t[e - 1] != '\n' then Some(e - 1)
    else LastNonNewline(t, j, e - 1)
  }

  /** End of the run of digits that starts at j: where a greedy `\d*` stops. */
  function DigitRunEnd(t: string, j: nat): (e: nat)
    requires j <= |t|
    ensures j <= e <= |t|
    ensures forall k :: j <= k < e ==> IsDigit(t[k])
    ensures e == |t| || !IsDigit(t[e])
    decreases |t| - j
  {
    if j < |t| && IsDigit(t[j]) then DigitRunEnd(t, j + 1) else j
  }

  /** The part of the text a capture group holds. */
  datatype Span = Span(start: nat, end: nat)

  // ---------------------------------------------------------------------
  // `\s*(.+?)(?:\n|$)`

  /** One way for `\s*(.+?)(?:\n|$)` to match at j: `\s*` takes t[j..s], the
      group takes t[s..m], non-empty and without a newline, and m is a newline
      or the end of the text. (`$` also matches just before a final newline,
      which is the same position as the `\n` branch.) */
  predicate LineSplit(t: string, j: int, s: int, m: int) {
    0 <= j <= s < m <= |t| && SpacesBetween(t, j, s) && NoNewlineBetween(t, s, m)
    && (m == |t| || t[m] == '\n')
  }

  /** The match the regular-expression engine returns at j: the greedy `\s*`
      takes as much as still lets the group match, and the lazy group then
      stops at the first newline or the end. When the whitespace after j runs
      to the end of the text, the group is its last character that is not a
      newline, as backtracking finds. */
  function LineCapture(t: string, j: nat): (r: Option<Span>)
    requires j <= |t|
    ensures r.Some? ==> LineSplit(t, j, r.value.start, r.value.end)
    ensures r.Some? ==> forall s, m :: LineSplit(t, j, s, m) ==>
      s < r.value.start || (s == r.value.start && m == r.value.end)
    ensures r.None? ==> forall s, m :: !LineSplit(t, j, s, m)
  {
    var e := SpaceRunEnd(t, j);
    LineSplitStart(t, j);
    if e < |t| then
      LineCaptureAt(t, j, e, e);
      Some(Span(e, LineEnd(t, e)))
    else
      match LastNonNewline(t, j, e)
      case None => None
      case Some(k) =>
        assert SpacesBetween(t, j, k);
        LineCaptureAt(t, j, e, k);
        Some(Span(k, LineEnd(t, k)))
  }

  /** The group of a match starts at a character that is not a newline. */
  lemma LineSplitStart(t: string, j: nat)
    ensures forall s, m :: LineSplit(t, j, s, m) ==> j <= s < |t| && t[s] != '\n'
  {
  }

  /** The split that starts the group at k is the one the engine prefers when
      no later start is possible. */
  lemma LineCaptureAt(t: string, j: nat, e: nat, k: nat)
    requires j <= k < |t| && e == SpaceRunEnd(t, j)
    requires SpacesBetween(t, j, k) && t[k] != '\n'
    requires (k == e) || (e == |t| && forall i :: k < i < e ==> t[i] == '\n')
    ensures LineSplit(t, j, k, LineEnd(t, k))
    ensures forall s, m :: LineSplit(t, j, s, m) ==> s < k || (s == k && m == LineEnd(t, k))
  {
    forall s, m | LineSplit(t, j, s, m) ensures s < k || (s == k && m == LineEnd(t, k)) {
      var ck, cs := t[k], t[s];
      assert k < s && k == e ==> IsSpace(ck);
      assert k < s && k != e ==> cs != '\n';
    }
  }

  // ---------------------------------------------------------------------
  // `\s*(\d+\.?\d*%?)`

  /** The states of a reader of `\d+\.?\d*%?`: nothing read yet, in the
      whole-number digits, after the point, after the percent sign, or
      refused. */
  datatype RateState = Start | Whole | Fraction | Done | Refused

  function RateStep(q: RateState, c: char): RateState {
    match q
    case Start => if IsDigit(c) then Whole else Refused
    case Whole =>
      if IsDigit(c) then Whole else if c == '.' then Fraction else if c == '%' then Done else Refused
    case Fraction => if IsDigit(c) then Fraction else if c == '%' then Done else Refused
    case Done => Refused
    case Refused => Refused
  }

  function RateRead(s: string): RateState {
    if s == [] then Start else RateStep(RateRead(s[..|s| - 1]), s[|s| - 1])
  }

  /** s is a word of the language of `\d+\.?\d*%?`. */
  predicate RateLiteral(s: string) {
    RateRead(s) in {Whole, Fraction, Done}
  }

  /** One way for `\s*(\d+\.?\d*%?)` to match at j. */
  predicate RateSplit(t: string, j: int, s: int, m: int) {
    0 <= j <= s <= m <= |t| && SpacesBetween(t, j, s) && RateLiteral(t[s..m])
  }

  lemma RateReadSnoc(t: string, s: nat, m: nat)
    requires s <= m < |t|
    ensures RateRead(t[s..m + 1]) == RateStep(RateRead(t[s..m]), t[m])
  {
    assert t[s..m + 1][..m - s] == t[s..m];
  }

  /** Reading digits leaves the reader in the whole or the fraction state. */
  lemma {:induction false} RateReadDigits(t: string, s: nat, a: nat, b: nat)
    requires s <= a <= b <= |t|
    requires forall k :: a <= k < b ==> IsDigit(t[k])
    requires RateRead(t[s..a]) in {Whole, Fraction}
    ensures RateRead(t[s..b]) == RateRead(t[s..a])
    decreases b - a
  {
    if a < b {
      RateReadSnoc(t, s, a);
      RateReadDigits(t, s, a + 1, b);
    }
  }

  /** Once refused, a longer text is refused too. */
  lemma {:induction false} RateRefusedStays(t: string, s: nat, a: nat, b: nat)
    requires s <= a <= b <= |t| && RateRead(t[s..a]) == Refused
    ensures RateRead(t[s..b]) == Refused
    decreases b - a
  {
    if a < b {
      RateReadSnoc(t, s, a);
      RateRefusedStays(t, s, a + 1, b);
    }
  }

  /** A rate literal starts with a digit and holds no whitespace. */
  lemma RateStartsWithDigit(t: string, s: nat, m: nat)
    requires s <= m <= |t| && RateLiteral(t[s..m])
    ensures s < m && IsDigit(t[s])
    ensures forall k :: s <= k < m ==> !IsSpace(t[k])
  {
    assert s < m;
    RateReadSnoc(t, s, s);
    assert t[s..s] == [];
    if !IsDigit(t[s]) {
      RateRefusedStays(t, s, s + 1, m);
    }
    forall k | s <= k < m ensures !IsSpace(t[k]) {
      if IsSpace(t[k]) {
        RateReadSnoc(t, s, k);
        RateRefusedStays(t, s, k + 1, m);
      }
    }
  }

  /** The match the regular-expression engine returns at j: `\s*` stops at the
      first non-space, the literal must start there, and the greedy pieces
      take the longest rate literal. */
  function RateCapture(t: string, j: nat): (r: Option<Span>)
    requires j <= |t|
    ensures r.Some? ==> RateSplit(t, j, r.value.start, r.value.end)
    ensures r.Some? ==> forall s, m :: RateSplit(t, j, s, m) ==> s == r.value.start && m <= r.value.end
    ensures r.None? ==> forall s, m :: !RateSplit(t, j, s, m)
  {
    var e := SpaceRunEnd(t, j);
    if e < |t| && IsDigit(t[e]) then
      var d1 := DigitRunEnd(t, e);
      var d2 := if d1 < |t| && t[d1] == '.' then DigitRunEnd(t, d1 + 1) else d1;
      var end := if d2 < |t| && t[d2] == '%' then d2 + 1 else d2;
      RateCaptureSound(t, j, e, d1, d2, end);
      Some(Span(e, end))
    else
      RateSplitStart(t, j);
      None
  }

  lemma RateCaptureSound(t: string, j: nat, e: nat, d1: nat, d2: nat, end: nat)
    requires j <= e < |t| && e == SpaceRunEnd(t, j) && IsDigit(t[e])
    requires d1 == DigitRunEnd(t, e)
    requires d2 == if d1 < |t| && t[d1] == '.' then DigitRunEnd(t, d1 + 1) else d1
    requires end == if d2 < |t| && t[d2] == '%' then d2 + 1 else d2
    ensures RateSplit(t, j, e, end)
    ensures forall s, m :: RateSplit(t, j, s, m) ==> s == e && m <= end
  {
    RateCaptureReads(t, e, d1, d2, end);
    if end < |t| {
      forall m | end < m <= |t| ensures !RateLiteral(t[e..m]) {
        RateRefusedStays(t, e, end + 1, m);
      }
    }
    RateSplitStart(t, j);
  }

  /** The greedy pieces read a rate literal, and one more character would be
      refused. */
  lemma RateCaptureReads(t: string, e: nat, d1: nat, d2: nat, end: nat)
    requires e < |t| && IsDigit(t[e])
    requires d1 == DigitRunEnd(t, e)
    requires d2 == if d1 < |t| && t[d1] == '.' then DigitRunEnd(t, d1 + 1) else d1
    requires end == if d2 < |t| && t[d2] == '%' then d2 + 1 else d2
    ensures e < end <= |t| && RateLiteral(t[e..end])
    ensures end < |t| ==> RateRead(t[e..end + 1]) == Refused
  {
    RateReadSnoc(t, e, e);
    assert t[e..e] == [];
    RateReadDigits(t, e, e + 1, d1);
    if d1 < |t| && t[d1] == '.' {
      RateReadSnoc(t, e, d1);
      RateReadDigits(t, e, d1 + 1, d2);
    }
    if d2 < |t| && t[d2] == '%' {
      RateReadSnoc(t, e, d2);
    }
    if end < |t| {
      RateReadSnoc(t, e, end);
    }
  }

  /** Where `\s*` stops at a non-digit, or at the end, no rate is captured. */
  lemma NoRateAt(t: string, j: nat)
    requires j <= |t|
    requires SpaceRunEnd(t, j) == |t| || !IsDigit(t[SpaceRunEnd(t, j)])
    ensures RateCapture(t, j).None?
  {
    RateSplitStart(t, j);
  }

  /** A rate literal after "CAGR:" can only start where `\s*` stops, at a digit. */
  lemma RateSplitStart(t: string, j: nat)
    requires j <= |t|
    ensures forall s, m :: RateSplit(t, j, s, m) ==> s == SpaceRunEnd(t, j) && s < |t| && IsDigit(t[s])
  {
    var e := SpaceRunEnd(t, j);
    forall s, m | RateSplit(t, j, s, m) ensures s == e && s < |t| && IsDigit(t[s]) {
      RateStartsWithDigit(t, s, m);
    }
  }

  // ---------------------------------------------------------------------
  // re.search

  /** Which of the two patterns follows the key. */
  datatype Pattern = RestOfLine | Rate

  function CaptureAfter(p: Pattern, t: string, j: nat): Option<Span>
    requires j <= |t|
  {
    match p
    case RestOfLine => LineCapture(t, j)
    case Rate => RateCapture(t, j)
  }

  /** The key followed by the pattern matches t at index q. */
  predicate HitAt(t: string, key: string, p: Pattern, q: int) {
    OccursAt(t, key, q) && CaptureAfter(p, t, q + |key|).Some?
  }

  /** The leftmost index at or after q where the key and the pattern match. */
  function FirstHit(t: string, key: string, p: Pattern, q: nat): (r: Option<nat>)
    requires q <= |t|
    ensures r.Some? ==> q <= r.value <= |t| && HitAt(t, key, p, r.value)
    ensures r.Some? ==> forall i :: q <= i < r.value ==> !HitAt(t, key, p, i)
    ensures r.None? ==> forall i :: q <= i <= |t| ==> !HitAt(t, key, p, i)
    decreases |t| - q
  {
    if HitAt(t, key, p, q) then Some(q)
    else if q == |t| then None
    else FirstHit(t, key, p, q + 1)
  }

  /** q is the leftmost index where the key and the pattern match. */
  predicate LeftmostHit(t: string, key: string, p: Pattern, q: int) {
    0 <= q <= |t| && HitAt(t, key, p, q) && forall i :: 0 <= i < q ==> !HitAt(t, key, p, i)
  }

  /** `m = re.search(key + pattern, t)` followed by `m.group(1)`: nothing when
      no index matches; otherwise the capture group of the leftmost match,
      even when the key occurs earlier without the pattern matching there. */
  function Search(t: string, key: string, p: Pattern): (r: Option<string>)
    ensures r.None? <==> forall i :: 0 <= i <= |t| ==> !HitAt(t, key, p, i)
    ensures forall q :: LeftmostHit(t, key, p, q) ==> r == Some(GroupAt(t, key, p, q))
    ensures r.Some? && p == RestOfLine ==> r.value != [] && '\n' !in r.value
    ensures r.Some? && p == Rate ==> RateLiteral(r.value)
  {
    forall q | LeftmostHit(t, key, p, q) ensures FirstHit(t, key, p, 0) == Some(q) {
      FirstHitAt(t, key, p, q);
    }
    match FirstHit(t, key, p, 0)
    case None => None
    case Some(q) => Some(GroupAt(t, key, p, q))
  }

  /** The text of the capture group of the match at index q: the span the
      pattern's own capture function gives after the key. */
  function GroupAt(t: string, key: string, p: Pattern, q: nat): (r: string)
    requires HitAt(t, key, p, q)
    ensures p == RestOfLine ==> r != [] && '\n' !in r
    ensures p == Rate ==> RateLiteral(r)
  {
    var j := q + |key|;
    var g := CaptureAfter(p, t, j).value;
    if p == RestOfLine then
      assert LineSplit(t, j, g.start, g.end);
      t[g.start..g.end]
    else
      assert RateSplit(t, j, g.start, g.end);
      t[g.start..g.end]
  }

  /** A key that does not occur in the text finds nothing. */
  lemma MissingLabel(t: string, key: string, p: Pattern)
    requires !Contains(t, key)
    ensures Search(t, key, p) == None
  {
    forall i | 0 <= i <= |t| ensures !HitAt(t, key, p, i) {
      assert !OccursAt(t, key, i);
    }
  }

  /** When an occurrence of the key, with no match before it, is followed,
      after any whitespace (newlines included), by another character, the
      search returns the rest of the line that character starts. */
  lemma FirstKeyValue(t: string, key: string, q: nat)
    requires OccursAt(t, key, q)
    requires forall i :: 0 <= i < q ==> !HitAt(t, key, RestOfLine, i)
    requires SpaceRunEnd(t, q + |key|) < |t|
    ensures var e := SpaceRunEnd(t, q + |key|);
      Search(t, key, RestOfLine) == Some(t[e..LineEnd(t, e)])
  {
    assert HitAt(t, key, RestOfLine, q);
    FirstHitAt(t, key, RestOfLine, q);
  }

  /** When an occurrence of the key, with no match before it, is followed,
      after any whitespace (newlines included), by a digit, the search for a
      rate returns the longest rate literal that digit starts. */
  lemma FirstRateValue(t: string, key: string, q: nat)
    requires OccursAt(t, key, q)
    requires forall i :: 0 <= i < q ==> !HitAt(t, key, Rate, i)
    requires SpaceRunEnd(t, q + |key|) < |t| && IsDigit(t[SpaceRunEnd(t, q + |key|)])
    ensures RateCapture(t, q + |key|).Some?
    ensures var e := SpaceRunEnd(t, q + |key|);
      Search(t, key, Rate) == Some(t[e..RateCapture(t, q + |key|).value.end])
  {
    var j := q + |key|;
    RateCaptureStart(t, j);
    var c := RateCapture(t, j).value;
    assert HitAt(t, key, Rate, q);
    FirstHitAt(t, key, Rate, q);
    RateGroup(t, key, q);
    assert Search(t, key, Rate) == Some(GroupAt(t, key, Rate, q));
  }

  /** The group of a rate match is the span `RateCapture` returns. */
  lemma RateGroup(t: string, key: string, q: nat)
    requires HitAt(t, key, Rate, q)
    ensures var c := RateCapture(t, q + |key|).value; GroupAt(t, key, Rate, q) == t[c.start..c.end]
  {
  }

  /** Where `\s*` stops at a digit, a rate is captured from there. */
  lemma RateCaptureStart(t: string, j: nat)
    requires j <= |t| && SpaceRunEnd(t, j) < |t| && IsDigit(t[SpaceRunEnd(t, j)])
    ensures RateCapture(t, j).Some? && RateCapture(t, j).value.start == SpaceRunEnd(t, j)
  {
  }

  /** A match with none before it is the one the scan finds. */
  lemma FirstHitAt(t: string, key: string, p: Pattern, q: nat)
    requires HitAt(t, key, p, q)
    requires forall i :: 0 <= i < q ==> !HitAt(t, key, p, i)
    ensures FirstHit(t, key, p, 0) == Some(q)
  {
    var r := FirstHit(t, key, p, 0);
    assert r.Some? && r.value <= q;
  }

  // ---------------------------------------------------------------------
  // The record

  datatype ResearchRecord = ResearchRecord(
    marketSize: Option<string>,
    cagr: Option<string>,
    keyTrends: seq<string>,
    competitiveLandscape: string,
    growthDrivers: seq<string>)

  const DefaultRecord := ResearchRecord(None, None, [], "", [])

  const MarketSizeLabel: string := "MARKET_SIZE:"
  const CagrLabel: string := "CAGR:"
  const KeyTrendsLabel: string := "KEY_TRENDS:"
  const LandscapeLabel: string := "COMPETITIVE_LANDSCAPE:"
  const GrowthDriversLabel: string := "GROWTH_DRIVERS:"
  const NotAvailable: string := "N/A"

  /** The captured rest of the line after the key, when it was found and does
      not contain "N/A". */
  function Usable(t: string, key: string): (r: Option<string>)
    ensures r.Some? ==> Search(t, key, RestOfLine) == r && !Contains(r.value, NotAvailable)
    ensures r.None? ==> Search(t, key, RestOfLine).None? || Contains(Search(t, key, RestOfLine).value, NotAvailable)
  {
    var v := Search(t, key, RestOfLine);
    if v.Some? && !Contains(v.value, NotAvailable) then v else None
  }

  /** A one-line field: the stripped value, or None. */
  function LineValue(t: string, key: string): (r: Option<string>)
    ensures r.Some? <==> Usable(t, key).Some?
    ensures r.Some? ==> r.value == Strip(Usable(t, key).value)
    ensures r.Some? ==> TrimmedAt(Usable(t, key).value, r.value, |Usable(t, key).value| - |TrimStart(Usable(t, key).value)|)
  {
    match Usable(t, key)
    case None => None
    case Some(v) => Some(Strip(v))
  }

  /** Every piece of a list, stripped. */
  function StripAll(pieces: seq<string>): (r: seq<string>)
    ensures |r| == |pieces|
    ensures forall k :: 0 <= k < |r| ==> r[k] == Strip(pieces[k])
  {
    seq(|pieces|, k requires 0 <= k < |pieces| => Strip(pieces[k]))
  }

  /** Stripping adds no character. */
  lemma StripKeepsAbsent(s: string, c: char)
    requires c !in s
    ensures c !in Strip(s)
  {
    var r := Strip(s);
    var i := |s| - |TrimStart(s)|;
    forall m | 0 <= m < |r| ensures r[m] != c {
      assert r[m] == s[i..i + |r|][m];
    }
  }

  /** A list item as the parser leaves it: no ';' and no whitespace at
      either end. */
  predicate CleanItem(s: string) {
    ';' !in s && (s == [] || (!IsSpace(s[0]) && !IsSpace(s[|s| - 1])))
  }

  /** A ';'-separated field: one stripped item per piece, or the empty list. */
  function ListValue(t: string, key: string): (r: seq<string>)
    ensures Usable(t, key).None? ==> r == []
    ensures Usable(t, key).Some? ==> |r| == |Split(Usable(t, key).value, ';')| == Count(Usable(t, key).value, ';') + 1
    ensures Usable(t, key).Some? ==>
      forall k :: 0 <= k < |r| ==> r[k] == Strip(Split(Usable(t, key).value, ';')[k])
    ensures forall k :: 0 <= k < |r| ==> CleanItem(r[k])
  {
    match Usable(t, key)
    case None => []
    case Some(v) =>
      var pieces := Split(v, ';');
      ListItems(pieces);
      StripAll(pieces)
  }

  /** The items of a split list are clean. */
  lemma ListItems(pieces: seq<string>)
    requires forall k :: 0 <= k < |pieces| ==> ';' !in pieces[k]
    ensures forall k :: 0 <= k < |pieces| ==> CleanItem(StripAll(pieces)[k])
  {
    forall k | 0 <= k < |pieces| ensures CleanItem(StripAll(pieces)[k]) {
      CleanStrip(pieces[k]);
    }
  }

  /** Stripping a piece without ';' gives a clean item. */
  lemma CleanStrip(s: string)
    requires ';' !in s
    ensures CleanItem(Strip(s))
  {
    StripKeepsAbsent(s, ';');
  }

  /** The parser: start from the default record and fill in each field whose
      key matches. A missing response makes the first search raise, and the
      handler leaves the defaults. */
  method ParseResearchResponse(response: Option<string>) returns (rec: ResearchRecord)
    ensures response.None? ==> rec == DefaultRecord
    ensures response.Some? ==> rec == ResearchRecord(
      LineValue(response.value, MarketSizeLabel),
      Search(response.value, CagrLabel, Rate),
      ListValue(response.value, KeyTrendsLabel),
      LineValue(response.value, LandscapeLabel).GetOr(""),
      ListValue(response.value, GrowthDriversLabel))
  {
    rec := DefaultRecord;
    if response.None? {
      return;
    }
    var t := response.value;
    var m := Search(t, MarketSizeLabel, RestOfLine);
    if m.Some? && !Contains(m.value, NotAvailable) {
      rec := rec.(marketSize := Some(Strip(m.value)));
    }
    assert rec.marketSize == LineValue(t, MarketSizeLabel);
    var c := Search(t, CagrLabel, Rate);
    if c.Some? {
      rec := rec.(cagr := Some(Strip(c.value)));
      CagrStripped(c.value);
    }
    m := Search(t, KeyTrendsLabel, RestOfLine);
    if m.Some? && !Contains(m.value, NotAvailable) {
      rec := rec.(keyTrends := StripAll(Split(m.value, ';')));
    }
    assert rec.keyTrends == ListValue(t, KeyTrendsLabel);
    m := Search(t, LandscapeLabel, RestOfLine);
    if m.Some? && !Contains(m.value, NotAvailable) {
      rec := rec.(competitiveLandscape := Strip(m.value));
    }
    m := Search(t, GrowthDriversLabel, RestOfLine);
    if m.Some? && !Contains(m.value, NotAvailable) {
      rec := rec.(growthDrivers := StripAll(Split(m.value, ';')));
    }
    assert rec.growthDrivers == ListValue(t, GrowthDriversLabel);
  }

  /** A rate literal holds no whitespace, so stripping it changes nothing. */
  lemma CagrStripped(s: string)
    requires RateLiteral(s)
    ensures Strip(s) == s
  {
    assert s[0..|s|] == s;
    RateStartsWithDigit(s, 0, |s|);
    var q := RateRead(s[..|s| - 1]);
    assert RateStep(q, s[|s| - 1]) == RateRead(s);
  }

  // ---------------------------------------------------------------------
  // Worked cases

  /** "N/A" as the market size leaves the field empty. */
  lemma MarketSizeNotAvailable()
    ensures LineValue("MARKET_SIZE: N/A", MarketSizeLabel) == None
  {
    var t := "MARKET_SIZE: N/A";
    assert OccursAt(t, MarketSizeLabel, 0);
    assert SpaceRunEnd(t, 12) == 13;
    FirstKeyValue(t, MarketSizeLabel, 0);
    assert LineEnd(t, 13) == 16;
    assert t[13..16] == NotAvailable;
    assert OccursAt(t[13..16], NotAvailable, 0);
  }

  /** The `\s*` after the key runs across a newline: the value is read from
      the next line. */
  lemma ValueOnNextLine()
    ensures LineValue("MARKET_SIZE:\n$5B", MarketSizeLabel) == Some("$5B")
  {
    var t := "MARKET_SIZE:\n$5B";
    assert OccursAt(t, MarketSizeLabel, 0);
    assert SpaceRunEnd(t, 12) == 13;
    FirstKeyValue(t, MarketSizeLabel, 0);
    assert LineEnd(t, 13) == 16;
    assert t[13..16] == "$5B";
    assert !Contains("$5B", NotAvailable) by {
      assert "$5B"[0..3][0] != NotAvailable[0];
    }
  }

  /** "CAGR: 12.5%" gives the rate "12.5%". */
  lemma CagrExample()
    ensures Search("CAGR: 12.5%", CagrLabel, Rate) == Some("12.5%")
  {
    var t := "CAGR: 12.5%";
    assert OccursAt(t, CagrLabel, 0);
    assert SpaceRunEnd(t, 5) == 6;
    assert RateRead("1") == Whole;
    assert RateRead("12") == Whole;
    assert RateRead("12.") == Fraction;
    assert "12.5"[..3] == "12.";
    assert RateRead("12.5") == Fraction;
    assert "12.5%"[..4] == "12.5";
    assert RateRead("12.5%") == Done;
    assert t[6..11] == "12.5%";
    assert RateSplit(t, 5, 6, 11);
    var c := RateCapture(t, 5);
    assert c == Some(Span(6, 11));
    assert HitAt(t, CagrLabel, Rate, 0);
    assert FirstHit(t, CagrLabel, Rate, 0) == Some(0);
  }

  /** "CAGR: N/A" leaves the rate empty: no rate literal follows the key. */
  lemma CagrNotAvailable()
    ensures Search("CAGR: N/A", CagrLabel, Rate) == None
  {
    var t := "CAGR: N/A";
    assert SpaceRunEnd(t, 5) == 6 && t[6] == 'N';
    NoRateAt(t, 5);
    forall i | 0 <= i <= |t| ensures !HitAt(t, CagrLabel, Rate, i) {
      if 0 < i && i + |CagrLabel| <= |t| {
        assert t[i..i + |CagrLabel|][0] == t[i] != 'C';
      }
    }
  }

  /** A label whose first occurrence has no rate after it does not stop the
      search: the next occurrence, with "5%", is the match. */
  lemma CagrAfterNotAvailable()
    ensures Search(TwoCagrs, CagrLabel, Rate) == Some("5%")
  {
    var t := TwoCagrs;
    NoCagrHitBefore();
    assert t[10..15] == CagrLabel;
    SecondCagrRate();
    FirstRateValue(t, CagrLabel, 10);
    assert t[16..18] == "5%";
  }

  const TwoCagrs: string := "CAGR: N/A\nCAGR: 5%\nCAGR: 7%"

  lemma NoCagrHitBefore()
    ensures forall i :: 0 <= i < 10 ==> !HitAt(TwoCagrs, CagrLabel, Rate, i)
  {
    var t := TwoCagrs;
    assert SpaceRunEnd(t, 5) == 6 && t[6] == 'N';
    NoRateAt(t, 5);
    forall i | 0 < i < 10 ensures !OccursAt(t, CagrLabel, i) {
      assert t[i..i + |CagrLabel|][0] == t[i] != 'C';
    }
  }

  lemma SecondCagrRate()
    ensures SpaceRunEnd(TwoCagrs, 15) == 16 && IsDigit(TwoCagrs[16])
    ensures RateCapture(TwoCagrs, 15) == Some(Span(16, 18))
  {
    var t := TwoCagrs;
    assert SpaceRunEnd(t, 15) == 16 && t[16] == '5';
    assert DigitRunEnd(t, 16) == 17 && t[17] == '%';
  }
}
