/**
 * `ResearchReport`: one report file, its metadata taken from the file name
 * and its fields taken from the sections of its text. Every field extractor
 * is total: a section or pattern that is missing gives `None` (or an empty
 * value), never an error.
 */
module Reports {
  import opened Seqs
  import opened Wrappers
  import opened Text
  import opened Patterns
  import opened Sections

  // ---------------------------------------------------------------------------
  // File-name metadata

  /** `_extract_version`: the digits of the leftmost `v` that is followed by a digit. */
  function ExtractVersion(filename: string): (r: Option<string>)
    ensures r.None? <==> !Occurs(VersionTag, filename)
    ensures r.Some? ==> |r.value| > 0 && AllDigits(r.value)
  {
    match Find(VersionTag, filename)
    case None => None
    case Some(p) => Some(VersionCapture(filename, p))
  }

  /** `_extract_date`: the leftmost `DDDD-DD-DD` substring. */
  function ExtractDate(filename: string): (r: Option<string>)
    ensures r.None? <==> !Occurs(IsoDate, filename)
    ensures r.Some? ==> IsDateShape(r.value)
  {
    match Find(IsoDate, filename)
    case None => None
    case Some(p) => Some(DateCapture(filename, p))
  }

  /** The version is the maximal digit run after the leftmost `v` that is
      immediately followed by a digit. */
  lemma VersionIsLeftmostDigitRun(filename: string, p: nat)
    requires p + 1 < |filename| && filename[p] == 'v' && IsDigit(filename[p + 1])
    requires forall q :: 0 <= q < p ==> !(filename[q] == 'v' && IsDigit(filename[q + 1]))
    ensures ExtractVersion(filename) == Some(filename[p + 1..Span(filename, p + 1, Digit)])
  {
    FindLeftmost(VersionTag, filename, p);
  }

  /** A name made of a `v`-free prefix, `v`, a digit string and anything not
      starting with a digit gives back exactly that digit string. */
  lemma VersionOfName(pre: string, digits: string, post: string)
    requires 'v' !in pre
    requires |digits| > 0 && AllDigits(digits)
    requires |post| == 0 || !IsDigit(post[0])
    ensures ExtractVersion(pre + "v" + digits + post) == Some(digits)
  {
    var f := pre + "v" + digits + post;
    var p := |pre|;
    assert f[p] == 'v' && f[p + 1] == digits[0];
    forall q | 0 <= q < p ensures !MatchesAt(VersionTag, f, q) {
      assert f[q] == pre[q];
    }
    FindLeftmost(VersionTag, f, p);
    SpanReaches(f, p + 1, p + 1 + |digits|, Digit);
    assert f[p + 1..p + 1 + |digits|] == digits;
  }

  /** The date is the leftmost `DDDD-DD-DD` substring. */
  lemma DateIsLeftmost(filename: string, p: nat)
    requires p + 10 <= |filename| && IsDateShape(filename[p..p + 10])
    requires forall q :: 0 <= q < p ==> !MatchesAt(IsoDate, filename, q)
    ensures ExtractDate(filename) == Some(filename[p..p + 10])
  {
    FindLeftmost(IsoDate, filename, p);
  }

  // ---------------------------------------------------------------------------
  // The parsed report

  /** A report file: the version and date read from its name, its text and
      the sections of that text. */
  datatype Report = Report(
    filename: string,
    version: Option<string>,
    date: Option<string>,
    content: string,
    sections: map<string, string>)

  /** What reading the file name guarantees: a version is a digit string and
      a date has the `DDDD-DD-DD` shape. */
  predicate ReadFromName(r: Report) {
    && (r.version.Some? ==> |r.version.value| > 0 && AllDigits(r.version.value))
    && (r.date.Some? ==> IsDateShape(r.date.value))
  }

  /** `ResearchReport.__init__`, the file already read into `content`. */
  function ParseReport(filename: string, content: string): (r: Report)
    ensures ReadFromName(r)
  {
    Report(filename, ExtractVersion(filename), ExtractDate(filename), content, ParseSections(content))
  }

  /** `sections.get(name, '')` */
  function SectionText(sections: map<string, string>, name: string): (r: string) {
    if name in sections then sections[name] else ""
  }

  const PricingSection := "定價預測"
  const SummarySection := "執行摘要"
  const RiskSection := "風險評估"

  const TargetLabel := "目標價格"
  const CurrentLabel := "當前價格"
  const DirectionLabel := "預測方向"
  const TimeRangeLabel := "時間範圍"
  const RiskLabel := "整體風險等級"

  /** `[看漲看跌中性]`: a character class, not a list of words, so any run of
      these characters is accepted. */
  const DirectionChars: set<char> := {'看', '漲', '跌', '中', '性'}
  /** `[低中高]` */
  const RiskChars: set<char> := {'低', '中', '高'}

  // ---------------------------------------------------------------------------
  // Pricing prediction

  /** The four pricing fields; `None` where the source stores `None`. */
  datatype Pricing = Pricing(
    targetPrice: Option<Price>,
    currentPrice: Option<Price>,
    direction: Option<string>,
    timeRange: Option<string>)

  /** `re.search(label + r'[：:]\s*([\d,]+\.?\d*)\s*([^\s\n]*)', body)` */
  function FindPrice(body: string, tag: string): (r: Option<Price>)
    ensures r.Some? <==> Occurs(Labeled(tag, PriceValue), body)
    ensures r.Some? ==> IsNumberText(r.value.number)
    ensures r.Some? ==> forall k :: 0 <= k < |r.value.unit| ==> !IsSpace(r.value.unit[k])
    ensures r.Some? ==> exists p: nat ::
      && MatchesAt(Labeled(tag, PriceValue), body, p)
      && NoMatchBefore(Labeled(tag, PriceValue), body, p)
      && PriceAt(body, ValueStart(body, p, tag), r.value)
  {
    match Find(Labeled(tag, PriceValue), body)
    case None => None
    case Some(p) => Some(PriceCapture(body, p, tag))
  }

  /** `re.search(label + r'[：:]\s*([...]+)', body)`, group 1. */
  function FindRun(body: string, tag: string, alphabet: set<char>): (r: Option<string>)
    ensures r.Some? <==> Occurs(Labeled(tag, RunOf(alphabet)), body)
    ensures r.Some? ==> |r.value| > 0 && forall k :: 0 <= k < |r.value| ==> r.value[k] in alphabet
    ensures r.Some? ==> exists p: nat ::
      && MatchesAt(Labeled(tag, RunOf(alphabet)), body, p)
      && NoMatchBefore(Labeled(tag, RunOf(alphabet)), body, p)
      && RunAt(body, ValueStart(body, p, tag), alphabet, r.value)
  {
    match Find(Labeled(tag, RunOf(alphabet)), body)
    case None => None
    case Some(p) => Some(RunCapture(body, p, tag, alphabet))
  }

  /** `re.search(label + r'[：:]\s*([^\n]+)', body)`, group 1 stripped. */
  function FindRest(body: string, tag: string): (r: Option<string>)
    ensures r.Some? <==> Occurs(Labeled(tag, RestOfLine), body)
    ensures r.Some? ==> '\n' !in r.value && IsTrimmed(r.value)
  {
    match Find(Labeled(tag, RestOfLine), body)
    case None => None
    case Some(p) => Some(RestCapture(body, p, tag))
  }

  /** `get_pricing_prediction`. A missing or empty pricing section leaves all
      four fields `None`; otherwise each field is present exactly when its
      pattern occurs in the section. */
  function GetPricing(sections: map<string, string>): (r: Pricing)
    ensures SectionText(sections, PricingSection) == "" ==> r == Pricing(None, None, None, None)
    ensures var body := SectionText(sections, PricingSection);
      && (r.targetPrice.Some? <==> body != "" && Occurs(Labeled(TargetLabel, PriceValue), body))
      && (r.currentPrice.Some? <==> body != "" && Occurs(Labeled(CurrentLabel, PriceValue), body))
      && (r.direction.Some? <==> body != "" && Occurs(Labeled(DirectionLabel, RunOf(DirectionChars)), body))
      && (r.timeRange.Some? <==> body != "" && Occurs(Labeled(TimeRangeLabel, RestOfLine), body))
    ensures r.targetPrice.Some? ==> IsNumberText(r.targetPrice.value.number)
    ensures r.currentPrice.Some? ==> IsNumberText(r.currentPrice.value.number)
    ensures r.direction.Some? ==>
      |r.direction.value| > 0 && forall k :: 0 <= k < |r.direction.value| ==> r.direction.value[k] in DirectionChars
    ensures r.timeRange.Some? ==> '\n' !in r.timeRange.value && IsTrimmed(r.timeRange.value)
    ensures var body := SectionText(sections, PricingSection);
      r.targetPrice.Some? ==> exists p: nat ::
        && MatchesAt(Labeled(TargetLabel, PriceValue), body, p)
        && NoMatchBefore(Labeled(TargetLabel, PriceValue), body, p)
        && PriceAt(body, ValueStart(body, p, TargetLabel), r.targetPrice.value)
    ensures var body := SectionText(sections, PricingSection);
      r.currentPrice.Some? ==> exists p: nat ::
        && MatchesAt(Labeled(CurrentLabel, PriceValue), body, p)
        && NoMatchBefore(Labeled(CurrentLabel, PriceValue), body, p)
        && PriceAt(body, ValueStart(body, p, CurrentLabel), r.currentPrice.value)
    ensures var body := SectionText(sections, PricingSection);
      r.direction.Some? ==> exists p: nat ::
        && MatchesAt(Labeled(DirectionLabel, RunOf(DirectionChars)), body, p)
        && NoMatchBefore(Labeled(DirectionLabel, RunOf(DirectionChars)), body, p)
        && RunAt(body, ValueStart(body, p, DirectionLabel), DirectionChars, r.direction.value)
  {
    var body := SectionText(sections, PricingSection);
    if body == "" then Pricing(None, None, None, None)
    else Pricing(
      FindPrice(body, TargetLabel),
      FindPrice(body, CurrentLabel),
      FindRun(body, DirectionLabel, DirectionChars),
      FindRest(body, TimeRangeLabel))
  }

  /** A present target price is the one captured at the leftmost match of its
      pattern: the number, then the unit token after it. */
  lemma TargetPriceIsLeftmostMatch(sections: map<string, string>, p: nat)
    requires var body := SectionText(sections, PricingSection);
      && body != "" && p < |body| && MatchesAt(Labeled(TargetLabel, PriceValue), body, p)
      && forall q :: 0 <= q < p ==> !MatchesAt(Labeled(TargetLabel, PriceValue), body, q)
    ensures GetPricing(sections).targetPrice == Some(PriceCapture(SectionText(sections, PricingSection), p, TargetLabel))
  {
    FindLeftmost(Labeled(TargetLabel, PriceValue), SectionText(sections, PricingSection), p);
  }

  /** A target price written in the pricing section as label, colon,
      whitespace, number, whitespace and unit is read back exactly, provided
      no earlier position of the section starts a match. */
  lemma TargetPriceOfSection(sections: map<string, string>, before: string, c: char, ws: string,
                             number: string, gap: string, unit: string, rest: string)
    requires PricingSection in sections
    requires sections[PricingSection] == before + TargetLabel + [c] + ws + number + gap + unit + rest
    requires NoMatchBefore(Labeled(TargetLabel, PriceValue), sections[PricingSection], |before|)
    requires IsColon(c) && AllSpace(ws) && PriceLayout(number, gap, unit, rest)
    ensures GetPricing(sections).targetPrice == Some(Price(number, unit))
  {
    PriceAfterLabel(sections[PricingSection], before, TargetLabel, c, ws, number, gap, unit, rest);
  }

  /** The same for the current price. */
  lemma CurrentPriceOfSection(sections: map<string, string>, before: string, c: char, ws: string,
                              number: string, gap: string, unit: string, rest: string)
    requires PricingSection in sections
    requires sections[PricingSection] == before + CurrentLabel + [c] + ws + number + gap + unit + rest
    requires NoMatchBefore(Labeled(CurrentLabel, PriceValue), sections[PricingSection], |before|)
    requires IsColon(c) && AllSpace(ws) && PriceLayout(number, gap, unit, rest)
    ensures GetPricing(sections).currentPrice == Some(Price(number, unit))
  {
    PriceAfterLabel(sections[PricingSection], before, CurrentLabel, c, ws, number, gap, unit, rest);
  }

  /** A direction written after its label is read back as the whole run of
      direction characters, up to the first character outside the class. */
  lemma DirectionOfSection(sections: map<string, string>, before: string, c: char, ws: string,
                           direction: string, rest: string)
    requires PricingSection in sections
    requires sections[PricingSection] == before + DirectionLabel + [c] + ws + direction + rest
    requires NoMatchBefore(Labeled(DirectionLabel, RunOf(DirectionChars)), sections[PricingSection], |before|)
    requires IsColon(c) && AllSpace(ws)
    requires |direction| > 0 && forall k :: 0 <= k < |direction| ==> direction[k] in DirectionChars
    requires rest == [] || rest[0] !in DirectionChars
    ensures GetPricing(sections).direction == Some(direction)
  {
    assert direction[0] in DirectionChars;
    RunAfterLabel(sections[PricingSection], before, DirectionLabel, c, ws, DirectionChars, direction, rest);
  }

  /** A time range written after its label is read back as the rest of its
      line, stripped. */
  lemma TimeRangeOfSection(sections: map<string, string>, before: string, c: char, ws: string,
                           range: string, rest: string)
    requires PricingSection in sections
    requires sections[PricingSection] == before + TimeRangeLabel + [c] + ws + range + rest
    requires NoMatchBefore(Labeled(TimeRangeLabel, RestOfLine), sections[PricingSection], |before|)
    requires IsColon(c) && AllSpace(ws)
    requires |range| > 0 && !IsSpace(range[0]) && '\n' !in range
    requires rest == [] || rest[0] == '\n'
    ensures GetPricing(sections).timeRange == Some(Strip(range))
  {
    RestAfterLabel(sections[PricingSection], before, TimeRangeLabel, c, ws, range, rest);
  }

  // ---------------------------------------------------------------------------
  // Key points

  /** A line whose stripped form starts with `- ` or `* `. */
  predicate IsBulletLine(line: string) {
    StartsWith(Strip(line), "- ") || StartsWith(Strip(line), "* ")
  }

  /** `line.strip()[2:].strip()` */
  function BulletText(line: string): (r: string)
    requires IsBulletLine(line)
    ensures IsTrimmed(r)
    ensures '\n' in r ==> '\n' in line
  {
    Strip(Strip(line)[2..])
  }

  /** The point one line contributes: its text when it is a bullet, else nothing. */
  function BulletOf(line: string): (r: seq<string>)
    ensures |r| <= 1
    ensures |r| == 1 <==> IsBulletLine(line)
    ensures forall i :: 0 <= i < |r| ==> IsTrimmed(r[i])
  {
    if IsBulletLine(line) then [BulletText(line)] else []
  }

  /** The text of every bullet line, in order. */
  function Bullets(ls: seq<string>): (r: seq<string>)
    ensures |r| <= |ls|
    ensures forall i :: 0 <= i < |r| ==> IsTrimmed(r[i])
  {
    if |ls| == 0 then [] else BulletOf(ls[0]) + Bullets(ls[1..])
  }

  /** Bullets keep document order: the points of a text are the points of its
      first part followed by those of the rest. */
  lemma {:induction false} BulletsAppend(a: seq<string>, b: seq<string>)
    ensures Bullets(a + b) == Bullets(a) + Bullets(b)
    decreases |a|
  {
    if |a| == 0 {
      assert a + b == b;
    } else {
      assert (a + b)[0] == a[0];
      assert (a + b)[1..] == a[1..] + b;
      BulletsAppend(a[1..], b);
      AppendAssoc(BulletOf(a[0]), Bullets(a[1..]), Bullets(b));
    }
  }

  /** Newline-free lines give newline-free points. */
  lemma {:induction false} BulletsNewlineFree(ls: seq<string>)
    requires forall i :: 0 <= i < |ls| ==> '\n' !in ls[i]
    ensures forall i :: 0 <= i < |Bullets(ls)| ==> '\n' !in Bullets(ls)[i]
    decreases |ls|
  {
    if |ls| > 0 {
      BulletsNewlineFree(ls[1..]);
    }
  }

  const MaxKeyPoints := 5

  /** `points[:5]` */
  function FirstPoints(points: seq<string>): (r: seq<string>)
    ensures |r| == (if |points| < MaxKeyPoints then |points| else MaxKeyPoints)
    ensures r == points[..|r|]
  {
    if |points| <= MaxKeyPoints then points else points[..MaxKeyPoints]
  }

  /** `get_key_points`: the first five bullet points of the executive summary. */
  function KeyPoints(sections: map<string, string>): (r: seq<string>)
    ensures SectionText(sections, SummarySection) == "" ==> r == []
    ensures var all := Bullets(Lines(SectionText(sections, SummarySection)));
      && |r| == (if |all| < MaxKeyPoints then |all| else MaxKeyPoints)
      && r == all[..|r|]
    ensures forall i :: 0 <= i < |r| ==> IsTrimmed(r[i]) && '\n' !in r[i]
  {
    var summary := SectionText(sections, SummarySection);
    var all := Bullets(Lines(summary));
    assert summary == "" ==> all == [] by {
      if summary == "" {
        assert Lines(summary) == [""];
        assert !IsBulletLine("");
      }
    }
    assert forall i :: 0 <= i < |all| ==> IsTrimmed(all[i]) && '\n' !in all[i] by {
      BulletsNewlineFree(Lines(summary));
    }
    FirstPoints(all)
  }

  // ---------------------------------------------------------------------------
  // Risk assessment

  /** `get_risk_assessment`: a non-empty run of 低/中/高 after the overall-risk
      tag, or `""` when the section or the pattern is missing. */
  function GetRisk(sections: map<string, string>): (r: string)
    ensures forall k :: 0 <= k < |r| ==> r[k] in RiskChars
    ensures var body := SectionText(sections, RiskSection);
      r == "" <==> body == "" || !Occurs(Labeled(RiskLabel, RunOf(RiskChars)), body)
    ensures var body := SectionText(sections, RiskSection);
      r != "" ==> exists p: nat ::
        && MatchesAt(Labeled(RiskLabel, RunOf(RiskChars)), body, p)
        && NoMatchBefore(Labeled(RiskLabel, RunOf(RiskChars)), body, p)
        && RunAt(body, ValueStart(body, p, RiskLabel), RiskChars, r)
  {
    var body := SectionText(sections, RiskSection);
    if body == "" then ""
    else match FindRun(body, RiskLabel, RiskChars)
      case Some(level) => level
      case None => ""
  }

  /** A risk level written in the risk section after its label is read back
      as the whole run of 低/中/高, up to the first other character. */
  lemma RiskOfSection(sections: map<string, string>, before: string, c: char, ws: string,
                      level: string, rest: string)
    requires RiskSection in sections
    requires sections[RiskSection] == before + RiskLabel + [c] + ws + level + rest
    requires NoMatchBefore(Labeled(RiskLabel, RunOf(RiskChars)), sections[RiskSection], |before|)
    requires IsColon(c) && AllSpace(ws)
    requires |level| > 0 && forall k :: 0 <= k < |level| ==> level[k] in RiskChars
    requires rest == [] || rest[0] !in RiskChars
    ensures GetRisk(sections) == level
  {
    assert level[0] in RiskChars;
    RunAfterLabel(sections[RiskSection], before, RiskLabel, c, ws, RiskChars, level, rest);
  }
}
