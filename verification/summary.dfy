/**
 * `generate_summary`: the comparison document built from the ordered report
 * collection. The document is a list of lines joined with `\n`: a header, the
 * price table, the key-point timeline, the risk table and the trend section.
 * The generation time and the stock name are given as parameters (the first
 * comes from the clock, the second from a best-effort pattern over the first
 * report's title).
 */
module Summary {
  import opened Wrappers
  import opened Seqs
  import opened Text
  import opened Patterns
  import opened Reports
  import opened Collection
  import opened PriceChange

  /** `f"{x}"` of an optional string: Python prints `None` as `None`. */
  function Show(o: Option<string>): (r: string) {
    match o
    case None => "None"
    case Some(s) => s
  }

  /** `x or '-'` */
  function OrDash(o: Option<string>): (r: string) {
    if Present(o) then o.value else "-"
  }

  function PriceText(o: Option<Price>): (r: Option<string>) {
    match o
    case None => None
    case Some(p) => Some(p.Text())
  }

  /** The `target_price` of a report's pricing prediction. */
  function TargetOf(report: Report): (r: Option<string>) {
    PriceText(GetPricing(report.sections).targetPrice)
  }

  ghost predicate AllRetained(rs: seq<Report>) {
    forall i :: 0 <= i < |rs| ==> Retained(rs[i])
  }

  /** `f"v{report.version:0>3}"` */
  function VersionLabel(r: Report): string
    requires Retained(r)
  {
    "v" + ZeroPad3(r.version.value)
  }

  /** A Markdown table row `| c1 | c2 | ... |`. */
  function Row(cells: seq<string>): (r: string) {
    "|" + Cells(cells)
  }

  function Cells(cells: seq<string>): (r: string) {
    if |cells| == 0 then "" else " " + cells[0] + " |" + Cells(cells[1..])
  }

  /** A table's rule line `|---|---|`, one run of dashes per column. */
  function Rule(widths: seq<nat>): (r: string) {
    "|" + Dashes(widths)
  }

  function Dashes(widths: seq<nat>): (r: string) {
    if |widths| == 0 then "" else Repeat('-', widths[0]) + "|" + Dashes(widths[1..])
  }

  const PriceHeader := Row(["版本", "研究日期", "目標價格", "當前價格", "預測方向", "時間範圍", "變化幅度"])
  const PriceRule := Rule([6, 9, 9, 9, 9, 9, 9])
  const RiskHeader := Row(["版本", "研究日期", "風險等級"])
  const RiskRule := Rule([6, 9, 9])

  /** One row of the price table, with the given change column. */
  function PriceRow(r: Report, change: string): string
    requires Retained(r)
  {
    var p := GetPricing(r.sections);
    Row([VersionLabel(r), r.date.value, Show(TargetOf(r)), Show(PriceText(p.currentPrice)),
         Show(p.direction), Show(p.timeRange), change])
  }

  /** The target price of every report, in order. */
  function Targets(rs: seq<Report>): (ts: seq<Option<string>>)
    ensures |ts| == |rs|
    ensures forall i :: 0 <= i < |rs| ==> ts[i] == TargetOf(rs[i])
  {
    seq(|rs|, i requires 0 <= i < |rs| => TargetOf(rs[i]))
  }

  /** The change column of the loop over the price table from row `i` on,
      `prev` being the cursor `prev_price` and `delta` the cell shown for a
      pair of targets. The cursor is replaced whenever `target_price != '-'`,
      which holds for every row: an absent target is `None`, not `'-'`. */
  function ChangeColumn(targets: seq<Option<string>>, delta: (Option<string>, Option<string>) -> string,
                        i: nat, prev: Option<string>): (changes: seq<string>)
    requires i <= |targets|
    ensures |changes| == |targets| - i
    decreases |targets| - i
  {
    if i == |targets| then []
    else
      var target := targets[i];
      var change := if i > 0 && Present(prev) && target != Some("-") then delta(prev, target) else "-";
      [change] + ChangeColumn(targets, delta, i + 1, if target != Some("-") then target else prev)
  }

  /** The change of row `i` described without the cursor: nothing for the
      first row, otherwise the change from the target of the row right
      before it, when that target is present. */
  function NeighbourChange(targets: seq<Option<string>>, delta: (Option<string>, Option<string>) -> string,
                           i: nat): string
    requires i < |targets|
  {
    if i > 0 && Present(targets[i - 1]) then delta(targets[i - 1], targets[i]) else "-"
  }

  /** The cell of the change column: `calculate_price_change(...) or '-'`. */
  function ChangeCell(prev: Option<string>, target: Option<string>): string {
    OrDash(CalculatePriceChange(prev, target))
  }

  lemma TargetIsNotDash(r: Report)
    ensures TargetOf(r) != Some("-")
  {
    var t := TargetOf(r);
    if t.Some? {
      assert t.value[|t.value| - 1 - |GetPricing(r.sections).targetPrice.value.unit|] == ' ';
    }
  }

  lemma {:induction false} ChangeColumnFrom(targets: seq<Option<string>>, delta: (Option<string>, Option<string>) -> string,
                                            i: nat, prev: Option<string>)
    requires i <= |targets|
    requires forall j :: 0 <= j < |targets| ==> targets[j] != Some("-")
    requires if i == 0 then prev == None else prev == targets[i - 1]
    ensures |ChangeColumn(targets, delta, i, prev)| == |targets| - i
    ensures forall k {:trigger ChangeColumn(targets, delta, i, prev)[k]} :: 0 <= k < |targets| - i ==>
      ChangeColumn(targets, delta, i, prev)[k] == NeighbourChange(targets, delta, i + k)
    decreases |targets| - i
  {
    if i < |targets| {
      var rest := ChangeColumn(targets, delta, i + 1, targets[i]);
      ChangeColumnFrom(targets, delta, i + 1, targets[i]);
      assert ChangeColumn(targets, delta, i, prev) == [NeighbourChange(targets, delta, i)] + rest;
      forall k | 1 <= k < |targets| - i
        ensures ChangeColumn(targets, delta, i, prev)[k] == NeighbourChange(targets, delta, i + k)
      {
        assert ChangeColumn(targets, delta, i, prev)[k] == rest[k - 1];
      }
    }
  }

  /** The cursor always holds the previous row's target: row `i` of the
      change column is the change from row `i - 1` to row `i`, and row 0 has
      none. The delta is therefore never taken across a row without a target. */
  lemma ChangeAgainstPreviousRow(targets: seq<Option<string>>, delta: (Option<string>, Option<string>) -> string)
    requires forall j :: 0 <= j < |targets| ==> targets[j] != Some("-")
    ensures |ChangeColumn(targets, delta, 0, None)| == |targets|
    ensures forall i {:trigger ChangeColumn(targets, delta, 0, None)[i]} :: 0 <= i < |targets| ==>
      ChangeColumn(targets, delta, 0, None)[i] == NeighbourChange(targets, delta, i)
  {
    ChangeColumnFrom(targets, delta, 0, None);
  }

  function PriceRows(rs: seq<Report>, changes: seq<string>): (rows: seq<string>)
    requires AllRetained(rs) && |changes| == |rs|
    ensures |rows| == |rs|
    ensures forall i :: 0 <= i < |rs| ==> rows[i] == PriceRow(rs[i], changes[i])
  {
    seq(|rs|, i requires 0 <= i < |rs| => PriceRow(rs[i], changes[i]))
  }

  /** The rows of the price table: one per report, in collection order. */
  function PriceTable(rs: seq<Report>): (rows: seq<string>)
    requires AllRetained(rs)
    ensures |rows| == |rs|
  {
    var targets := Targets(rs);
    forall j | 0 <= j < |rs| ensures targets[j] != Some("-") {
      TargetIsNotDash(rs[j]);
    }
    ChangeAgainstPreviousRow(targets, ChangeCell);
    PriceRows(rs, ChangeColumn(targets, ChangeCell, 0, None))
  }

  /** The change column of row `i` stated without the cursor: `-` for the
      first row and after a row without a target, otherwise the change
      between the two targets. */
  function RowChange(rs: seq<Report>, i: nat): string
    requires i < |rs|
  {
    if i == 0 || TargetOf(rs[i - 1]).None? then "-"
    else OrDash(CalculatePriceChange(TargetOf(rs[i - 1]), TargetOf(rs[i])))
  }

  /** Row `i` of the price table shows report `i` with the change from the
      target of report `i - 1`; the first row, and a row after one without a
      target, show `-`. */
  lemma PriceTableRows(rs: seq<Report>, i: nat)
    requires AllRetained(rs) && i < |rs|
    ensures PriceTable(rs)[i] == PriceRow(rs[i], RowChange(rs, i))
  {
    var targets := Targets(rs);
    forall j | 0 <= j < |rs| ensures targets[j] != Some("-") {
      TargetIsNotDash(rs[j]);
    }
    ChangeAgainstPreviousRow(targets, ChangeCell);
    assert ChangeColumn(targets, ChangeCell, 0, None)[i] == NeighbourChange(targets, ChangeCell, i);
    if i > 0 && targets[i - 1].Some? {
      TargetIsPresent(rs[i - 1]);
    }
  }

  lemma TargetIsPresent(r: Report)
    requires TargetOf(r).Some?
    ensures Present(TargetOf(r))
  {
    assert TargetOf(r).value[|GetPricing(r.sections).targetPrice.value.number|] == ' ';
  }

  const NoKeyPoints := "- （未提取到關鍵觀點）"

  function Bulleted(points: seq<string>): (r: seq<string>)
    ensures |r| == |points|
    ensures forall i :: 0 <= i < |r| ==> r[i] == "- " + points[i]
  {
    if |points| == 0 then [] else ["- " + points[0]] + Bulleted(points[1..])
  }

  /** A timeline entry: a heading, then the key points as bullets, or a
      single placeholder bullet when there are none. */
  function Entry(heading: string, points: seq<string>): (ls: seq<string>)
    ensures |ls| == 3 + if |points| == 0 then 1 else |points|
    ensures ls[0] == heading && ls[1] == "" && ls[|ls| - 1] == ""
    ensures |points| == 0 ==> ls[2] == NoKeyPoints
    ensures forall i :: 0 <= i < |points| ==> ls[2 + i] == "- " + points[i]
  {
    var items := if |points| > 0 then Bulleted(points) else [NoKeyPoints];
    var ls := [heading, ""] + items + [""];
    assert forall i :: 0 <= i < |items| ==> ls[2 + i] == items[i] by {
      Framed([heading, ""], items, [""]);
    }
    ls
  }

  /** The timeline entry of one report, headed by its version and date. */
  function TimelineEntry(r: Report): seq<string>
    requires Retained(r)
  {
    Entry("### " + VersionLabel(r) + " - " + r.date.value, KeyPoints(r.sections))
  }

  function Timeline(rs: seq<Report>): seq<string>
    requires AllRetained(rs)
  {
    if |rs| == 0 then [] else TimelineEntry(rs[0]) + Timeline(rs[1..])
  }

  /** One row of the risk table: the risk level, or `-` when none was found. */
  function RiskRow(r: Report): (row: string)
    requires Retained(r)
  {
    var risk := GetRisk(r.sections);
    Row([VersionLabel(r), r.date.value, if risk != "" then risk else "-"])
  }

  function RiskRows(rs: seq<Report>): (rows: seq<string>)
    requires AllRetained(rs)
    ensures |rows| == |rs|
    ensures forall i :: 0 <= i < |rs| ==> rows[i] == RiskRow(rs[i])
  {
    if |rs| == 0 then [] else [RiskRow(rs[0])] + RiskRows(rs[1..])
  }

  const TrendPlaceholder := "需要至少兩份報告才能進行趨勢分析。"

  function KeptSentence(direction: string): string {
    "**預測方向**：維持「" + direction + "」"
  }

  function TurnSentence(first: string, last: string): string {
    "**預測方向變化**：從「" + first + "」轉為「" + last + "」"
  }

  function TargetSentence(first: string, last: string, change: string): string {
    "**目標價格變化**：從 " + first + " 到 " + last + "（" + change + "）"
  }

  /** The direction sentence, present only when both directions are; the
      "維持" (kept) form exactly when they are equal. */
  function DirectionLines(first: Option<string>, last: Option<string>): (ls: seq<string>)
    ensures |ls| > 0 <==> Present(first) && Present(last)
    ensures |ls| > 0 ==>
      ls == [if first.value == last.value then KeptSentence(last.value) else TurnSentence(first.value, last.value), ""]
  {
    if Present(first) && Present(last) then
      (if first.value != last.value then [TurnSentence(first.value, last.value)]
       else [KeptSentence(last.value)])
      + [""]
    else []
  }

  /** The target-price sentence, present only when both targets are and
      their change can be computed. */
  function TargetLines(first: Option<string>, last: Option<string>): (ls: seq<string>)
    ensures |ls| > 0 <==> Present(first) && Present(last) && CalculatePriceChange(first, last).Some?
    ensures |ls| > 0 ==>
      ls == [TargetSentence(first.value, last.value, CalculatePriceChange(first, last).value), ""]
  {
    if Present(first) && Present(last) then
      var change := CalculatePriceChange(first, last);
      if Present(change) then [TargetSentence(first.value, last.value, change.value), ""]
      else []
    else []
  }

  /** The body of the trend section: the placeholder with fewer than two
      reports, otherwise the sentences comparing the first and the last. */
  function TrendLines(rs: seq<Report>): (ls: seq<string>)
    ensures |rs| < 2 ==> ls == [TrendPlaceholder, ""]
    ensures |rs| >= 2 ==>
      var first := GetPricing(rs[0].sections);
      var last := GetPricing(rs[|rs| - 1].sections);
      ls == DirectionLines(first.direction, last.direction) + TargetLines(TargetOf(rs[0]), TargetOf(rs[|rs| - 1]))
  {
    if |rs| >= 2 then
      var first := GetPricing(rs[0].sections);
      var last := GetPricing(rs[|rs| - 1].sections);
      DirectionLines(first.direction, last.direction) + TargetLines(TargetOf(rs[0]), TargetOf(rs[|rs| - 1]))
    else [TrendPlaceholder, ""]
  }

  function HeaderLines(code: string, name: string, timestamp: string, count: nat): seq<string> {
    [ "# " + code + " " + name + " 研究對比摘要",
      "",
      "> **生成時間**：" + timestamp + "  ",
      "> **研究報告數量**：" + NatToString(count) + " 份",
      "",
      "---",
      "" ]
  }

  const SectionRule: seq<string> := ["", "---", ""]
  const PriceHead: seq<string> := ["## 價格預測變化", "", PriceHeader, PriceRule]
  const TimelineHead: seq<string> := ["## 關鍵觀點演變", ""]
  const TimelineFoot: seq<string> := ["---", ""]
  const RiskHead: seq<string> := ["## 風險評估變化", "", RiskHeader, RiskRule]
  const TrendHead: seq<string> := ["## 趨勢分析", ""]
  const TrendFoot: seq<string> := ["---", "", "*此摘要由自動化腳本生成，如有疑問請查閱原始研究報告。*"]

  function PriceSection(rs: seq<Report>): seq<string>
    requires AllRetained(rs)
  {
    PriceHead + PriceTable(rs) + SectionRule
  }

  function TimelineSection(rs: seq<Report>): seq<string>
    requires AllRetained(rs)
  {
    TimelineHead + Timeline(rs) + TimelineFoot
  }

  function RiskSection(rs: seq<Report>): seq<string>
    requires AllRetained(rs)
  {
    RiskHead + RiskRows(rs) + SectionRule
  }

  function TrendSection(rs: seq<Report>): seq<string> {
    TrendHead + TrendLines(rs) + TrendFoot
  }

  function DocumentLines(code: string, name: string, timestamp: string, rs: seq<Report>): seq<string>
    requires AllRetained(rs)
  {
    HeaderLines(code, name, timestamp, |rs|) + PriceSection(rs) + LaterSections(rs)
  }

  /** The sections after the price table. */
  function LaterSections(rs: seq<Report>): seq<string>
    requires AllRetained(rs)
  {
    TimelineSection(rs) + RiskSection(rs) + TrendSection(rs)
  }

  function NoReports(code: string): string {
    "# " + code + " 研究對比摘要\n\n尚未有研究報告。\n"
  }

  /** `generate_summary` over a collected list of reports. */
  function RenderSummary(code: string, name: string, timestamp: string, rs: seq<Report>): (doc: string)
    requires AllRetained(rs)
    ensures |rs| == 0 ==> doc == NoReports(code)
  {
    if |rs| == 0 then NoReports(code)
    else JoinLines(DocumentLines(code, name, timestamp, rs))
  }

  // ---------------------------------------------------------------------------
  // The document as lines

  predicate NewlineFree(ls: seq<string>) {
    forall i :: 0 <= i < |ls| ==> '\n' !in ls[i]
  }

  /** The reports as the collection hands them over: retained, with the
      version and date their file names yield. */
  ghost predicate Collected(rs: seq<Report>) {
    forall i :: 0 <= i < |rs| ==> Retained(rs[i]) && ReadFromName(rs[i])
  }

  lemma JoinedNewlineFree(a: seq<string>, b: seq<string>)
    requires NewlineFree(a) && NewlineFree(b)
    ensures NewlineFree(a + b)
  {
    forall i | 0 <= i < |a + b| ensures '\n' !in (a + b)[i] {
      if i >= |a| {
        assert (a + b)[i] == b[i - |a|];
      }
    }
  }

  lemma DigitsNewlineFree(ds: string)
    requires AllDigits(ds)
    ensures '\n' !in ds
  {
  }

  lemma VersionLabelNewlineFree(r: Report)
    requires Retained(r) && ReadFromName(r)
    ensures '\n' !in VersionLabel(r)
  {
    var v := r.version.value;
    ZeroPad3KeepsValue(v);
    DigitsNewlineFree(ZeroPad3(v));
  }

  lemma DateNewlineFree(d: string)
    requires IsDateShape(d)
    ensures '\n' !in d
  {
  }

  /** What a captured price looks like: a number token and a unit without
      whitespace. */
  predicate PriceShaped(pr: Price) {
    IsNumberText(pr.number) && forall k :: 0 <= k < |pr.unit| ==> !IsSpace(pr.unit[k])
  }

  lemma PriceTextNewlineFree(pr: Price)
    requires PriceShaped(pr)
    ensures '\n' !in pr.Text()
  {
  }

  lemma RunNewlineFree(run: string, alphabet: set<char>)
    requires '\n' !in alphabet
    requires forall k :: 0 <= k < |run| ==> run[k] in alphabet
    ensures '\n' !in run
  {
  }

  lemma PricingNewlineFree(p: Pricing)
    requires p.targetPrice.Some? ==> PriceShaped(p.targetPrice.value)
    requires p.currentPrice.Some? ==> PriceShaped(p.currentPrice.value)
    requires p.direction.Some? ==> forall k :: 0 <= k < |p.direction.value| ==> p.direction.value[k] in DirectionChars
    requires p.timeRange.Some? ==> '\n' !in p.timeRange.value
    ensures '\n' !in Show(PriceText(p.targetPrice))
    ensures '\n' !in Show(PriceText(p.currentPrice))
    ensures '\n' !in Show(p.direction)
    ensures '\n' !in Show(p.timeRange)
  {
    if p.targetPrice.Some? {
      PriceTextNewlineFree(p.targetPrice.value);
    }
    if p.currentPrice.Some? {
      PriceTextNewlineFree(p.currentPrice.value);
    }
    if p.direction.Some? {
      RunNewlineFree(p.direction.value, DirectionChars);
    }
  }

  lemma {:induction false} RowNewlineFree(cells: seq<string>)
    requires NewlineFree(cells)
    ensures '\n' !in Row(cells)
    decreases |cells|
  {
    CellsNewlineFree(cells);
  }

  lemma {:induction false} CellsNewlineFree(cells: seq<string>)
    requires NewlineFree(cells)
    ensures '\n' !in Cells(cells)
    decreases |cells|
  {
    if |cells| > 0 {
      assert '\n' !in cells[0];
      CellsNewlineFree(cells[1..]);
    }
  }

  lemma {:induction false} DashesNewlineFree(widths: seq<nat>)
    ensures '\n' !in Dashes(widths)
    decreases |widths|
  {
    if |widths| > 0 {
      DashesNewlineFree(widths[1..]);
    }
  }

  lemma PriceHeaderNewlineFree()
    ensures '\n' !in PriceHeader && '\n' !in PriceRule
  {
    var cells := ["版本", "研究日期", "目標價格", "當前價格", "預測方向", "時間範圍", "變化幅度"];
    assert '\n' !in cells[0] && '\n' !in cells[1] && '\n' !in cells[2] && '\n' !in cells[3];
    assert '\n' !in cells[4] && '\n' !in cells[5] && '\n' !in cells[6];
    RowNewlineFree(cells);
    DashesNewlineFree([6, 9, 9, 9, 9, 9, 9]);
  }

  lemma RiskHeaderNewlineFree()
    ensures '\n' !in RiskHeader && '\n' !in RiskRule
  {
    var cells := ["版本", "研究日期", "風險等級"];
    assert '\n' !in cells[0] && '\n' !in cells[1] && '\n' !in cells[2];
    RowNewlineFree(cells);
    DashesNewlineFree([6, 9, 9]);
  }

  lemma PriceHeadNewlineFree()
    ensures NewlineFree(PriceHead)
  {
    PriceHeaderNewlineFree();
    assert '\n' !in PriceHead[0] && '\n' !in PriceHead[1];
  }

  lemma RiskHeadNewlineFree()
    ensures NewlineFree(RiskHead)
  {
    RiskHeaderNewlineFree();
    assert '\n' !in RiskHead[0] && '\n' !in RiskHead[1];
  }

  lemma SectionRuleNewlineFree()
    ensures NewlineFree(SectionRule)
  {
    assert '\n' !in SectionRule[0] && '\n' !in SectionRule[1] && '\n' !in SectionRule[2];
  }

  lemma TimelineFrameNewlineFree()
    ensures NewlineFree(TimelineHead) && NewlineFree(TimelineFoot)
  {
    assert '\n' !in TimelineHead[0] && '\n' !in TimelineHead[1];
    assert '\n' !in TimelineFoot[0] && '\n' !in TimelineFoot[1];
  }

  lemma TrendFrameNewlineFree()
    ensures NewlineFree(TrendHead) && NewlineFree(TrendFoot)
  {
    assert '\n' !in TrendHead[0] && '\n' !in TrendHead[1];
    assert '\n' !in TrendFoot[0] && '\n' !in TrendFoot[1] && '\n' !in TrendFoot[2];
  }

  lemma PriceRowNewlineFree(r: Report, change: string)
    requires Retained(r) && ReadFromName(r) && '\n' !in change
    ensures '\n' !in PriceRow(r, change)
  {
    var p := GetPricing(r.sections);
    assert '\n' !in VersionLabel(r) by { VersionLabelNewlineFree(r); }
    assert '\n' !in r.date.value by { DateNewlineFree(r.date.value); }
    assert '\n' !in Show(TargetOf(r)) && '\n' !in Show(PriceText(p.currentPrice))
        && '\n' !in Show(p.direction) && '\n' !in Show(p.timeRange) by {
      PricingNewlineFree(p);
    }
    SevenCellsNewlineFree(VersionLabel(r), r.date.value, Show(TargetOf(r)), Show(PriceText(p.currentPrice)),
                          Show(p.direction), Show(p.timeRange), change);
  }

  lemma SevenCellsNewlineFree(c0: string, c1: string, c2: string, c3: string, c4: string, c5: string, c6: string)
    requires '\n' !in c0 && '\n' !in c1 && '\n' !in c2 && '\n' !in c3
    requires '\n' !in c4 && '\n' !in c5 && '\n' !in c6
    ensures '\n' !in Row([c0, c1, c2, c3, c4, c5, c6])
  {
    RowNewlineFree([c0, c1, c2, c3, c4, c5, c6]);
  }

  lemma ChangeColumnNewlineFree(targets: seq<Option<string>>, i: nat, prev: Option<string>)
    requires i <= |targets|
    ensures NewlineFree(ChangeColumn(targets, ChangeCell, i, prev))
    decreases |targets| - i
  {
    if i < |targets| {
      ChangeColumnNewlineFree(targets, i + 1, if targets[i] != Some("-") then targets[i] else prev);
    }
  }

  lemma PriceTableNewlineFree(rs: seq<Report>)
    requires Collected(rs)
    ensures NewlineFree(PriceTable(rs))
  {
    var changes := ChangeColumn(Targets(rs), ChangeCell, 0, None);
    ChangeColumnNewlineFree(Targets(rs), 0, None);
    assert PriceTable(rs) == PriceRows(rs, changes);
    forall i | 0 <= i < |rs| ensures '\n' !in PriceRows(rs, changes)[i] {
      PriceRowNewlineFree(rs[i], changes[i]);
    }
  }

  lemma EntryNewlineFree(heading: string, points: seq<string>)
    requires '\n' !in heading && NewlineFree(points)
    ensures NewlineFree(Entry(heading, points))
  {
    var ls := Entry(heading, points);
    forall i | 0 <= i < |ls| ensures '\n' !in ls[i] {
      if 2 <= i < |ls| - 1 {
        if |points| == 0 {
          assert ls[i] == NoKeyPoints;
        } else {
          assert ls[2 + (i - 2)] == "- " + points[i - 2];
        }
      }
    }
  }

  lemma TimelineEntryNewlineFree(r: Report)
    requires Retained(r) && ReadFromName(r)
    ensures NewlineFree(TimelineEntry(r))
  {
    assert '\n' !in VersionLabel(r) by { VersionLabelNewlineFree(r); }
    assert '\n' !in r.date.value by { DateNewlineFree(r.date.value); }
    var points := KeyPoints(r.sections);
    assert NewlineFree(points);
    HeadingNewlineFree(VersionLabel(r), r.date.value, points);
  }

  lemma HeadingNewlineFree(version: string, date: string, points: seq<string>)
    requires '\n' !in version && '\n' !in date && NewlineFree(points)
    ensures NewlineFree(Entry("### " + version + " - " + date, points))
  {
    EntryNewlineFree("### " + version + " - " + date, points);
  }

  lemma {:induction false} TimelineNewlineFree(rs: seq<Report>)
    requires Collected(rs)
    ensures NewlineFree(Timeline(rs))
    decreases |rs|
  {
    if |rs| > 0 {
      TimelineEntryNewlineFree(rs[0]);
      TimelineNewlineFree(rs[1..]);
      JoinedNewlineFree(TimelineEntry(rs[0]), Timeline(rs[1..]));
    }
  }

  lemma RiskRowNewlineFree(r: Report)
    requires Retained(r) && ReadFromName(r)
    ensures '\n' !in RiskRow(r)
  {
    var risk := GetRisk(r.sections);
    assert '\n' !in VersionLabel(r) by { VersionLabelNewlineFree(r); }
    assert '\n' !in r.date.value by { DateNewlineFree(r.date.value); }
    assert '\n' !in risk by { RunNewlineFree(risk, RiskChars); }
    ThreeCellsNewlineFree(VersionLabel(r), r.date.value, if risk != "" then risk else "-");
  }

  lemma ThreeCellsNewlineFree(c0: string, c1: string, c2: string)
    requires '\n' !in c0 && '\n' !in c1 && '\n' !in c2
    ensures '\n' !in Row([c0, c1, c2])
  {
    RowNewlineFree([c0, c1, c2]);
  }

  lemma RiskRowsNewlineFree(rs: seq<Report>)
    requires Collected(rs)
    ensures NewlineFree(RiskRows(rs))
  {
    forall i | 0 <= i < |rs| ensures '\n' !in RiskRows(rs)[i] {
      RiskRowNewlineFree(rs[i]);
    }
  }

  lemma DirectionLinesNewlineFree(first: Option<string>, last: Option<string>)
    requires '\n' !in Show(first) && '\n' !in Show(last)
    ensures NewlineFree(DirectionLines(first, last))
  {
    var ls := DirectionLines(first, last);
    if |ls| > 0 {
      assert '\n' !in KeptSentence(last.value);
      assert '\n' !in TurnSentence(first.value, last.value);
    }
  }

  lemma TargetLinesNewlineFree(first: Option<string>, last: Option<string>)
    requires '\n' !in Show(first) && '\n' !in Show(last)
    ensures NewlineFree(TargetLines(first, last))
  {
    var change := CalculatePriceChange(first, last);
    if Present(first) && Present(last) && change.Some? {
      SentenceNewlineFree(first.value, last.value, change.value);
    }
  }

  lemma SentenceNewlineFree(first: string, last: string, change: string)
    requires '\n' !in first && '\n' !in last && '\n' !in change
    ensures '\n' !in TargetSentence(first, last, change)
  {
  }

  lemma TrendLinesNewlineFree(rs: seq<Report>)
    ensures NewlineFree(TrendLines(rs))
  {
    if |rs| >= 2 {
      var first := GetPricing(rs[0].sections);
      var last := GetPricing(rs[|rs| - 1].sections);
      PricingNewlineFree(first);
      PricingNewlineFree(last);
      var dir := DirectionLines(first.direction, last.direction);
      var tgt := TargetLines(TargetOf(rs[0]), TargetOf(rs[|rs| - 1]));
      DirectionLinesNewlineFree(first.direction, last.direction);
      TargetLinesNewlineFree(TargetOf(rs[0]), TargetOf(rs[|rs| - 1]));
      JoinedNewlineFree(dir, tgt);
    } else {
      assert '\n' !in TrendPlaceholder;
    }
  }

  lemma Framed3NewlineFree(head: seq<string>, body: seq<string>, foot: seq<string>)
    requires NewlineFree(head) && NewlineFree(body) && NewlineFree(foot)
    ensures NewlineFree(head + body + foot)
  {
    JoinedNewlineFree(head, body);
    JoinedNewlineFree(head + body, foot);
  }

  lemma HeaderNewlineFree(code: string, name: string, timestamp: string, count: nat)
    requires '\n' !in code && '\n' !in name && '\n' !in timestamp
    ensures NewlineFree(HeaderLines(code, name, timestamp, count))
  {
    DigitsNewlineFree(NatToString(count));
    var ls := HeaderLines(code, name, timestamp, count);
    assert '\n' !in ls[0] && '\n' !in ls[1] && '\n' !in ls[2] && '\n' !in ls[3];
    assert '\n' !in ls[4] && '\n' !in ls[5] && '\n' !in ls[6];
  }

  lemma {:induction false} DocumentNewlineFree(code: string, name: string, timestamp: string, rs: seq<Report>)
    requires '\n' !in code && '\n' !in name && '\n' !in timestamp
    requires AllRetained(rs) && Collected(rs)
    ensures NewlineFree(DocumentLines(code, name, timestamp, rs))
  {
    PriceHeadNewlineFree();
    RiskHeadNewlineFree();
    SectionRuleNewlineFree();
    TimelineFrameNewlineFree();
    TrendFrameNewlineFree();
    HeaderNewlineFree(code, name, timestamp, |rs|);
    PriceTableNewlineFree(rs);
    Framed3NewlineFree(PriceHead, PriceTable(rs), SectionRule);
    TimelineNewlineFree(rs);
    Framed3NewlineFree(TimelineHead, Timeline(rs), TimelineFoot);
    RiskRowsNewlineFree(rs);
    Framed3NewlineFree(RiskHead, RiskRows(rs), SectionRule);
    TrendLinesNewlineFree(rs);
    Framed3NewlineFree(TrendHead, TrendLines(rs), TrendFoot);
    Framed3NewlineFree(TimelineSection(rs), RiskSection(rs), TrendSection(rs));
    Framed3NewlineFree(HeaderLines(code, name, timestamp, |rs|), PriceSection(rs), LaterSections(rs));
  }

  /** With newline-free parameters, splitting the rendered document at line
      breaks gives back exactly the lines it was built from. */
  lemma RenderedLines(code: string, name: string, timestamp: string, rs: seq<Report>)
    requires '\n' !in code && '\n' !in name && '\n' !in timestamp
    requires AllRetained(rs) && Collected(rs) && |rs| > 0
    ensures Lines(RenderSummary(code, name, timestamp, rs)) == DocumentLines(code, name, timestamp, rs)
  {
    DocumentNewlineFree(code, name, timestamp, rs);
    LinesOfJoinLines(DocumentLines(code, name, timestamp, rs));
  }

  /** Line `11 + i` of the rendered document is the price-table row of the
      `i`-th report, whose change column compares it with the report right
      before it. */
  lemma PriceRowIsLine(code: string, name: string, timestamp: string, rs: seq<Report>, i: nat)
    requires '\n' !in code && '\n' !in name && '\n' !in timestamp
    requires AllRetained(rs) && Collected(rs) && i < |rs|
    ensures 11 + i < |Lines(RenderSummary(code, name, timestamp, rs))|
    ensures Lines(RenderSummary(code, name, timestamp, rs))[11 + i] == PriceRow(rs[i], RowChange(rs, i))
  {
    RenderedLines(code, name, timestamp, rs);
    PriceTableInDocument(code, name, timestamp, rs, i);
    PriceTableRows(rs, i);
  }

  lemma PriceTableInDocument(code: string, name: string, timestamp: string, rs: seq<Report>, i: nat)
    requires AllRetained(rs) && i < |rs|
    ensures 11 + i < |DocumentLines(code, name, timestamp, rs)|
    ensures DocumentLines(code, name, timestamp, rs)[11 + i] == PriceTable(rs)[i]
  {
    var header := HeaderLines(code, name, timestamp, |rs|);
    Middle(header, PriceSection(rs), LaterSections(rs), 11 + i);
    Middle(PriceHead, PriceTable(rs), SectionRule, 4 + i);
  }

  /** `generate_summary` for a directory listing given as (file name, file
      text) pairs: no usable report gives the fixed two-paragraph notice. */
  function GenerateSummary(code: string, name: string, timestamp: string, files: seq<(string, string)>): (doc: string)
    ensures |CollectReports(files)| == 0 ==> doc == "# " + code + " 研究對比摘要\n\n尚未有研究報告。\n"
    ensures |CollectReports(files)| > 0 && '\n' !in code && '\n' !in name && '\n' !in timestamp ==>
      Lines(doc) == DocumentLines(code, name, timestamp, CollectReports(files))
  {
    var rs := CollectReports(files);
    if |rs| > 0 && '\n' !in code && '\n' !in name && '\n' !in timestamp then
      RenderedLines(code, name, timestamp, rs);
      RenderSummary(code, name, timestamp, rs)
    else RenderSummary(code, name, timestamp, rs)
  }
}
