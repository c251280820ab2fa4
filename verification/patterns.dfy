/**
 * The regular expressions of the summary script, each written out as a
 * hand-made matcher. `MatchesAt(pat, s, p)` says whether `re.match` of the
 * pattern succeeds at position `p`; `Find` is `re.search`, the leftmost such
 * position; the `...Capture` functions compute the groups at that position.
 *
 * Only the greedy path of each pattern is followed. For the price, direction
 * and risk patterns a shorter `\s*` can never help, because the character that
 * must follow it is never whitespace; the one pattern where backtracking
 * changes the outcome, `\s*([^\n]+)`, is handled case by case below.
 * The argument for `RunOf` relies on its alphabet holding no whitespace, as
 * the direction and risk classes do not; with a space in the class, `\s*`
 * could hand a space to the group and the greedy path would be wrong.
 */
module Patterns {
  import opened Wrappers
  import opened Text

  /** What follows `label[：:]\s*` in a labelled pattern. */
  datatype Value =
    | PriceValue                 // ([\d,]+\.?\d*)\s*([^\s\n]*)
    | RunOf(alphabet: set<char>) // ([...]+), for a class without whitespace
    | RestOfLine                 // ([^\n]+)

  datatype Pattern =
    | VersionTag                         // v(\d+)
    | IsoDate                            // (\d{4}-\d{2}-\d{2})
    | NumberToken                        // ([\d,]+\.?\d*)
    | Labeled(name: string, value: Value)

  /** Both the full-width and the ASCII colon end a label. */
  predicate IsColon(c: char) {
    c == '：' || c == ':'
  }

  /** `\d{4}-\d{2}-\d{2}` matched against the whole of `d`. */
  predicate IsDateShape(d: string) {
    && |d| == 10
    && IsDigit(d[0]) && IsDigit(d[1]) && IsDigit(d[2]) && IsDigit(d[3])
    && d[4] == '-' && IsDigit(d[5]) && IsDigit(d[6])
    && d[7] == '-' && IsDigit(d[8]) && IsDigit(d[9])
  }

  /** `[\d,]+\.?\d*` matched against the whole of `t`: a run of digits and
      commas, then optionally a point followed by digits only. */
  predicate IsNumberText(t: string) {
    && |t| > 0
    && InClass(t[0], DigitOrComma)
    && forall k :: 0 <= k < |t| ==>
         InClass(t[k], DigitOrComma) || (t[k] == '.' && forall j :: k < j < |t| ==> IsDigit(t[j]))
  }

  predicate LabelAt(s: string, p: nat, name: string) {
    p + |name| < |s| && s[p..p + |name|] == name && IsColon(s[p + |name|])
  }

  /** Where the value of a labelled pattern starts: after the colon and the
      greedy `\s*`. */
  function ValueStart(s: string, p: nat, name: string): (e: nat)
    requires LabelAt(s, p, name)
    ensures p + |name| < e <= |s|
    ensures forall k :: p + |name| + 1 <= k < e ==> IsSpace(s[k])
    ensures e == |s| || !IsSpace(s[e])
  {
    Span(s, p + |name| + 1, Space)
  }

  /** `t` is the longest number text starting at `i`: the next character
      cannot extend it (and as every non-empty prefix of a number text is
      one, no longer stretch is a number text either). */
  predicate LongestNumberAt(s: string, i: nat, t: string) {
    && i + |t| <= |s| && t == s[i..i + |t|] && IsNumberText(t)
    && (i + |t| == |s| || !IsNumberText(s[i..i + |t| + 1]))
  }

  /** `w` is the first word at or after `i`: the whole run of non-space
      characters that follows the whitespace starting at `i`. */
  predicate FirstWordFrom(s: string, i: nat, w: string) {
    && i <= |s|
    && var u := Span(s, i, Space);
    && u + |w| <= |s| && w == s[u..u + |w|]
    && (u + |w| == |s| || IsSpace(s[u + |w|]))
    && forall k :: 0 <= k < |w| ==> !IsSpace(w[k])
  }

  /** End of the greedy `[\d,]+\.?\d*` starting at `p`. */
  function NumberEnd(s: string, p: nat): (n: nat)
    requires p < |s| && InClass(s[p], DigitOrComma)
    ensures p < n <= |s|
    ensures IsNumberText(s[p..n])
    ensures LongestNumberAt(s, p, s[p..n])
  {
    var a := Span(s, p, DigitOrComma);
    if a < |s| && s[a] == '.' then
      var n := Span(s, a + 1, Digit);
      NumberWithPoint(s, p, a, n);
      n
    else
      NumberWithoutPoint(s, p, a);
      a
  }

  /** Digits and commas, a point, then digits up to a non-digit: the longest
      number text. */
  lemma NumberWithPoint(s: string, p: nat, a: nat, n: nat)
    requires p < a < |s| && s[a] == '.'
    requires forall k :: p <= k < a ==> InClass(s[k], DigitOrComma)
    requires a + 1 <= n <= |s| && forall k :: a + 1 <= k < n ==> IsDigit(s[k])
    requires n == |s| || !IsDigit(s[n])
    ensures LongestNumberAt(s, p, s[p..n])
  {
    assert forall k :: 0 <= k < n - p ==> s[p..n][k] == s[p + k];
    assert n < |s| ==> s[p..n + 1][a - p] == '.' && !IsDigit(s[p..n + 1][n - p]);
  }

  /** Digits and commas up to a character that is neither they nor a point:
      the longest number text. */
  lemma NumberWithoutPoint(s: string, p: nat, a: nat)
    requires p < a <= |s|
    requires forall k :: p <= k < a ==> InClass(s[k], DigitOrComma)
    requires a == |s| || (!InClass(s[a], DigitOrComma) && s[a] != '.')
    ensures LongestNumberAt(s, p, s[p..a])
  {
    assert forall k :: 0 <= k < a - p ==> s[p..a][k] == s[p + k];
    assert a < |s| ==> s[p..a + 1][a - p] == s[a];
  }

  predicate ValueMatches(value: Value, s: string, q: nat)
    requires q <= |s|
  {
    var e := Span(s, q, Space);
    match value
    case PriceValue => e < |s| && InClass(s[e], DigitOrComma)
    case RunOf(alphabet) => e < |s| && s[e] in alphabet
    // `\s*` backs off when only whitespace is left: `[^\n]+` can then still
    // take one whitespace character that is not a newline.
    case RestOfLine => e < |s| || exists k :: q <= k < e && s[k] != '\n'
  }

  /** Does the pattern match starting exactly at position `p`? */
  predicate MatchesAt(pat: Pattern, s: string, p: nat) {
    match pat
    case VersionTag => p + 1 < |s| && s[p] == 'v' && IsDigit(s[p + 1])
    case IsoDate => p + 10 <= |s| && IsDateShape(s[p..p + 10])
    case NumberToken => p < |s| && InClass(s[p], DigitOrComma)
    case Labeled(name, value) =>
      LabelAt(s, p, name) && ValueMatches(value, s, p + |name| + 1)
  }

  /** `re.search` from position `from`: the leftmost position where the
      pattern matches, if any. (Every pattern here consumes at least one
      character, so the empty position at the end never matches.) */
  function FindFrom(pat: Pattern, s: string, from: nat): (r: Option<nat>)
    requires from <= |s|
    ensures r.None? <==> forall p :: from <= p < |s| ==> !MatchesAt(pat, s, p)
    ensures r.Some? ==>
      && from <= r.value < |s|
      && MatchesAt(pat, s, r.value)
      && forall p :: from <= p < r.value ==> !MatchesAt(pat, s, p)
    decreases |s| - from
  {
    if from == |s| then None
    else if MatchesAt(pat, s, from) then Some(from)
    else FindFrom(pat, s, from + 1)
  }

  /** `re.search(pat, s)` succeeds somewhere. */
  predicate Occurs(pat: Pattern, s: string) {
    exists p :: 0 <= p < |s| && MatchesAt(pat, s, p)
  }

  function Find(pat: Pattern, s: string): (r: Option<nat>) {
    FindFrom(pat, s, 0)
  }

  /** The search lands on the leftmost matching position, whatever follows. */
  lemma FindLeftmost(pat: Pattern, s: string, p: nat)
    requires p < |s| && MatchesAt(pat, s, p)
    requires forall q :: 0 <= q < p ==> !MatchesAt(pat, s, q)
    ensures Find(pat, s) == Some(p)
  {
  }

  /** Group 1 of `v(\d+)`: the whole digit run after the `v`. */
  function VersionCapture(s: string, p: nat): (v: string)
    requires MatchesAt(VersionTag, s, p)
    ensures |v| > 0 && AllDigits(v)
    ensures p + 1 + |v| <= |s| && v == s[p + 1..p + 1 + |v|]
    ensures p + 1 + |v| == |s| || !IsDigit(s[p + 1 + |v|])
  {
    s[p + 1..Span(s, p + 1, Digit)]
  }

  /** Group 1 of the date pattern. */
  function DateCapture(s: string, p: nat): (d: string)
    requires MatchesAt(IsoDate, s, p)
    ensures IsDateShape(d)
  {
    s[p..p + 10]
  }

  /** Group 1 of `([\d,]+\.?\d*)`. */
  function NumberCapture(s: string, p: nat): (t: string)
    requires MatchesAt(NumberToken, s, p)
    ensures IsNumberText(t)
    ensures LongestNumberAt(s, p, t)
  {
    s[p..NumberEnd(s, p)]
  }

  /** A price as the source renders it: number, one space, unit. */
  datatype Price = Price(number: string, unit: string) {
    function Text(): string {
      number + " " + unit
    }
  }

  /** Groups 1 and 2 of `label[：:]\s*([\d,]+\.?\d*)\s*([^\s\n]*)`, the unit stripped.
      The `\s*` before the unit may cross a line break, so the unit can be
      the first word of the next line. */
  function PriceCapture(s: string, p: nat, name: string): (pr: Price)
    requires MatchesAt(Labeled(name, PriceValue), s, p)
    ensures PriceAt(s, ValueStart(s, p, name), pr)
  {
    PriceFrom(s, ValueStart(s, p, name))
  }

  /** `pr` is the price whose number starts at `e`: the longest number text
      there, then the first word after it as the unit. */
  predicate PriceAt(s: string, e: nat, pr: Price) {
    LongestNumberAt(s, e, pr.number) && FirstWordFrom(s, e + |pr.number|, pr.unit)
  }

  function PriceFrom(s: string, e: nat): (pr: Price)
    requires e < |s| && InClass(s[e], DigitOrComma)
    ensures PriceAt(s, e, pr)
  {
    var n := NumberEnd(s, e);
    var unit := WordAfter(s, n);
    PriceOfParts(s, e, n, unit);
    Price(s[e..n], unit)
  }

  lemma PriceOfParts(s: string, e: nat, n: nat, unit: string)
    requires e <= n <= |s| && LongestNumberAt(s, e, s[e..n]) && FirstWordFrom(s, n, unit)
    ensures PriceAt(s, e, Price(s[e..n], unit))
  {
    assert e + |s[e..n]| == n;
  }

  /** `\s*([^\s\n]*)` from position `n`: the first word at or after `n`,
      possibly empty. The source strips it, which changes nothing, as the
      word holds no whitespace (`StripNoSpace`). */
  function WordAfter(s: string, n: nat): (w: string)
    requires n <= |s|
    ensures FirstWordFrom(s, n, w)
  {
    WordAt(s, Span(s, n, Space))
  }

  /** The whole run of non-space characters starting at `u`. */
  function WordAt(s: string, u: nat): (w: string)
    requires u <= |s|
    ensures u + |w| <= |s| && w == s[u..u + |w|]
    ensures u + |w| == |s| || IsSpace(s[u + |w|])
    ensures forall k :: 0 <= k < |w| ==> !IsSpace(w[k])
  {
    var v := Span(s, u, NonSpace);
    assert forall k :: 0 <= k < v - u ==> s[u..v][k] == s[u + k];
    s[u..v]
  }

  /** Group 1 of `label[：:]\s*([...]+)`: a non-empty run of alphabet characters. */
  function RunCapture(s: string, p: nat, name: string, alphabet: set<char>): (r: string)
    requires MatchesAt(Labeled(name, RunOf(alphabet)), s, p)
    ensures |r| > 0 && forall k :: 0 <= k < |r| ==> r[k] in alphabet
    ensures RunAt(s, ValueStart(s, p, name), alphabet, r)
  {
    var e := ValueStart(s, p, name);
    s[e..Span(s, e, OneOf(alphabet))]
  }

  /** `r` is the whole run of alphabet characters starting at `e`: the next
      character, if any, is outside the alphabet. */
  predicate RunAt(s: string, e: nat, alphabet: set<char>, r: string) {
    && e + |r| <= |s| && r == s[e..e + |r|]
    && (e + |r| == |s| || s[e + |r|] !in alphabet)
  }

  /** Group 1 of `label[：:]\s*([^\n]+)`, stripped. When only whitespace
      follows the colon the group is a single whitespace character, which
      strips to the empty string. */
  function RestCapture(s: string, p: nat, name: string): (r: string)
    requires MatchesAt(Labeled(name, RestOfLine), s, p)
    ensures '\n' !in r
    ensures r == Strip(r)
    ensures ValueStart(s, p, name) == |s| ==> r == ""
    ensures var e := ValueStart(s, p, name);
      e < |s| ==> exists l: nat :: LineEndsAt(s, e, l) && r == Strip(s[e..l])
  {
    var e := ValueStart(s, p, name);
    if e < |s| then RestFrom(s, e) else ""
  }

  /** `[^\n]+` from `e`, stripped. */
  function RestFrom(s: string, e: nat): (r: string)
    requires e < |s|
    ensures '\n' !in r
    ensures r == Strip(r)
    ensures exists l: nat :: LineEndsAt(s, e, l) && r == Strip(s[e..l])
  {
    var l := Span(s, e, NonNewline);
    LineEnd(s, e, l);
    StripIdempotent(s[e..l]);
    Strip(s[e..l])
  }

  lemma LineEnd(s: string, e: nat, l: nat)
    requires e <= |s| && l == Span(s, e, NonNewline)
    ensures LineEndsAt(s, e, l) && '\n' !in s[e..l]
  {
    assert forall k :: 0 <= k < l - e ==> s[e..l][k] == s[e + k];
  }

  /** `s[i..l]` is the rest of a line: no line break inside, and a line
      break or the end of the text right after it. */
  predicate LineEndsAt(s: string, i: nat, l: nat) {
    i <= l <= |s| && (forall k :: i <= k < l ==> s[k] != '\n') && (l == |s| || s[l] == '\n')
  }

  /** Whatever follows a price, searching it for a number finds the price's
      own number first. */
  lemma {:induction false} NumberOfPriceText(pr: Price)
    requires IsNumberText(pr.number)
    ensures Find(NumberToken, pr.Text()) == Some(0)
    ensures NumberCapture(pr.Text(), 0) == pr.number
  {
    var t := pr.Text();
    assert t[..|pr.number|] == pr.number;
    assert MatchesAt(NumberToken, t, 0);
    assert t[0..|pr.number|] == pr.number;
    assert t[|pr.number|..] == " " + pr.unit;
    NumberEndAt(t, 0, |pr.number|);
  }

  /** The greedy number match over a string that starts with a complete
      number text ends exactly where that text ends. */
  lemma NumberEndAt(s: string, p: nat, m: nat)
    requires p < m <= |s| && IsNumberText(s[p..m])
    requires m == |s| || ClosesNumber(s[m..])
    ensures NumberEnd(s, p) == m
  {
    var t := s[p..m];
    assert forall k :: p <= k < m ==> s[k] == t[k - p];
    var a := Span(s, p, DigitOrComma);
    if exists k :: 0 <= k < |t| && t[k] == '.' {
      var k :| 0 <= k < |t| && t[k] == '.';
      assert a == p + k by {
        assert forall j :: p <= j < p + k ==> InClass(s[j], DigitOrComma);
        SpanReaches(s, p, p + k, DigitOrComma);
      }
      SpanReaches(s, p + k + 1, m, Digit);
    } else {
      assert m < |s| ==> s[m] == s[m..][0];
      SpanReaches(s, p, m, DigitOrComma);
    }
  }

  /** The text after a number cannot extend it: it is empty or starts with
      neither a digit, a comma nor a point. */
  predicate ClosesNumber(t: string) {
    t == [] || !(IsDigit(t[0]) || t[0] == ',' || t[0] == '.')
  }

  // ---------------------------------------------------------------------------
  // What a labelled pattern captures from a line laid out as
  // `label`, colon, whitespace, value, and whatever follows.

  predicate AllSpace(ws: string) {
    forall k :: 0 <= k < |ws| ==> IsSpace(ws[k])
  }

  predicate IsWord(w: string) {
    forall k :: 0 <= k < |w| ==> !IsSpace(w[k])
  }

  /** No earlier position of `s` starts a match of `pat`. */
  predicate NoMatchBefore(pat: Pattern, s: string, p: nat) {
    forall q :: 0 <= q < p ==> !MatchesAt(pat, s, q)
  }

  /** Number, whitespace, unit and the rest of the text, laid out so that
      the number is read whole and the unit is read whole: nothing after
      the number extends it, the unit is a word that ends at whitespace or
      at the end of the text, and an empty unit ends the text. */
  predicate PriceLayout(number: string, gap: string, unit: string, rest: string) {
    && IsNumberText(number) && AllSpace(gap) && IsWord(unit)
    && ClosesNumber(gap + unit + rest)
    && (unit == [] ==> rest == [])
    && (rest == [] || IsSpace(rest[0]))
  }

  /** The label sits at `|before|` and its value starts right after the
      whitespace that follows the colon. */
  lemma LabelThenValue(s: string, before: string, name: string, c: char, ws: string, x: string)
    requires s == before + name + [c] + ws + x
    requires IsColon(c) && AllSpace(ws) && |x| > 0 && !IsSpace(x[0])
    ensures LabelAt(s, |before|, name)
    ensures ValueStart(s, |before|, name) == |before| + |name| + 1 + |ws|
    ensures forall k :: 0 <= k < |x| ==> s[|before| + |name| + 1 + |ws| + k] == x[k]
  {
    var p := |before|;
    var q := p + |name| + 1;
    var e := q + |ws|;
    assert s[p..p + |name|] == name;
    assert s[p + |name|] == c;
    assert forall k :: q <= k < e ==> s[k] == ws[k - q];
    assert forall k :: 0 <= k < |x| ==> s[e + k] == x[k];
    SpanReaches(s, q, e, Space);
  }

  /** A price written after its label is captured exactly: the number and
      the unit as written. */
  lemma PriceAfterLabel(s: string, before: string, name: string, c: char, ws: string,
                        number: string, gap: string, unit: string, rest: string)
    requires s == before + name + [c] + ws + number + gap + unit + rest
    requires NoMatchBefore(Labeled(name, PriceValue), s, |before|)
    requires IsColon(c) && AllSpace(ws) && PriceLayout(number, gap, unit, rest)
    ensures Find(Labeled(name, PriceValue), s) == Some(|before|)
    ensures PriceCapture(s, |before|, name) == Price(number, unit)
  {
    var x := number + gap + unit + rest;
    assert s == before + name + [c] + ws + x;
    LabelThenValue(s, before, name, c, ws, x);
    PriceValueAt(s, |before|, name, |before| + |name| + 1 + |ws|, x, number, gap, unit, rest);
  }

  /** `PriceAfterLabel` with the value's characters given by position. */
  lemma PriceValueAt(s: string, p: nat, name: string, e: nat, x: string,
                     number: string, gap: string, unit: string, rest: string)
    requires LabelAt(s, p, name) && ValueStart(s, p, name) == e
    requires e + |x| == |s| && forall k :: 0 <= k < |x| ==> s[e + k] == x[k]
    requires x == number + gap + unit + rest
    requires NoMatchBefore(Labeled(name, PriceValue), s, p)
    requires PriceLayout(number, gap, unit, rest)
    ensures Find(Labeled(name, PriceValue), s) == Some(p)
    ensures PriceCapture(s, p, name) == Price(number, unit)
  {
    var tail := gap + unit + rest;
    var n := e + |number|;
    assert x == number + tail;
    NumberValueAt(s, e, n, x, number, tail);
    assert MatchesAt(Labeled(name, PriceValue), s, p);
    FindLeftmost(Labeled(name, PriceValue), s, p);
    UnitValueAt(s, e, n, x, number, gap, unit, rest);
    PriceOfNumberAndWord(s, e, n, number, unit);
  }

  /** A number text followed by something that cannot extend it is the
      greedy number match. */
  lemma NumberValueAt(s: string, e: nat, n: nat, x: string, number: string, tail: string)
    requires e + |x| == |s| && forall k :: 0 <= k < |x| ==> s[e + k] == x[k]
    requires x == number + tail && IsNumberText(number) && ClosesNumber(tail)
    requires n == e + |number|
    ensures e < |s| && InClass(s[e], DigitOrComma)
    ensures n <= |s| && NumberEnd(s, e) == n && s[e..n] == number
  {
    assert s[e + 0] == x[0];
    Segment(s, e, x, 0, number);
    assert s[e..n] == number;
    assert n < |s| ==> s[n..] == tail by {
      if n < |s| {
        Segment(s, e, x, |number|, tail);
      }
    }
    NumberEndAt(s, e, n);
  }

  /** After the number come whitespace and then the unit, a word ending at
      whitespace or at the end of the text: the unit is the word read
      after the number. */
  lemma UnitValueAt(s: string, e: nat, n: nat, x: string, number: string, gap: string, unit: string, rest: string)
    requires e + |x| == |s| && forall k :: 0 <= k < |x| ==> s[e + k] == x[k]
    requires x == number + gap + unit + rest && AllSpace(gap) && IsWord(unit)
    requires (unit == [] ==> rest == []) && (rest == [] || IsSpace(rest[0]))
    requires n == e + |number|
    ensures n <= |s| && WordAfter(s, n) == unit
  {
    var g := n + |gap|;
    var v := g + |unit|;
    UnitLayout(s, e, x, number, gap, unit, rest);
    WordAfterGap(s, n, g, v);
  }

  /** The layout of the value, read off at absolute positions of the text. */
  lemma UnitLayout(s: string, e: nat, x: string, number: string, gap: string, unit: string, rest: string)
    requires e + |x| == |s| && forall k :: 0 <= k < |x| ==> s[e + k] == x[k]
    requires x == number + gap + unit + rest && AllSpace(gap) && IsWord(unit)
    requires (unit == [] ==> rest == []) && (rest == [] || IsSpace(rest[0]))
    ensures var g := e + |number| + |gap|; var v := g + |unit|;
      && v <= |s|
      && (forall k :: e + |number| <= k < g ==> IsSpace(s[k]))
      && (forall k :: g <= k < v ==> !IsSpace(s[k]))
      && (v == |s| || IsSpace(s[v]))
      && (g == v ==> v == |s|)
      && s[g..v] == unit
  {
    var n := e + |number|;
    var g := n + |gap|;
    var v := g + |unit|;
    ClassOfPiece(s, e, x, |number|, gap, Space);
    ClassOfPiece(s, e, x, |number| + |gap|, unit, NonSpace);
    Segment(s, e, x, |number| + |gap|, unit);
    if v < |s| {
      assert s[e + (v - e)] == x[v - e];
      assert x[v - e] == rest[0];
    }
    assert s[g..v] == unit;
  }

  /** Whitespace from `n` to `g`, then a word from `g` to `v`: the word
      read from `n` is `s[g..v]`. */
  lemma WordAfterGap(s: string, n: nat, g: nat, v: nat)
    requires n <= g <= v <= |s|
    requires forall k :: n <= k < g ==> IsSpace(s[k])
    requires forall k :: g <= k < v ==> !IsSpace(s[k])
    requires v == |s| || IsSpace(s[v])
    requires g == v ==> v == |s|
    ensures WordAfter(s, n) == s[g..v]
  {
    SpanReaches(s, g, v, NonSpace);
    SpanReaches(s, n, g, Space);
  }

  /** The price read at `e` is the greedy number there and the word after it. */
  lemma PriceOfNumberAndWord(s: string, e: nat, n: nat, number: string, unit: string)
    requires e < |s| && InClass(s[e], DigitOrComma)
    requires NumberEnd(s, e) == n && s[e..n] == number
    requires WordAfter(s, n) == unit
    ensures PriceFrom(s, e) == Price(number, unit)
  {
  }

  /** A stretch of the value whose characters are all of one class puts
      characters of that class at the matching positions of the text. */
  lemma ClassOfPiece(s: string, e: nat, x: string, off: nat, part: string, cls: CharClass)
    requires e + |x| <= |s| && forall k :: 0 <= k < |x| ==> s[e + k] == x[k]
    requires off + |part| <= |x| && x[off..off + |part|] == part
    requires forall k :: 0 <= k < |part| ==> InClass(part[k], cls)
    ensures forall k :: e + off <= k < e + off + |part| ==> InClass(s[k], cls)
  {
    Segment(s, e, x, off, part);
    forall k | e + off <= k < e + off + |part| ensures InClass(s[k], cls) {
      assert s[k] == part[k - (e + off)];
    }
  }

  /** A stretch of the value is found at the matching offset of the text. */
  lemma Segment(s: string, e: nat, x: string, off: nat, part: string)
    requires e + |x| <= |s| && forall k :: 0 <= k < |x| ==> s[e + k] == x[k]
    requires off + |part| <= |x| && x[off..off + |part|] == part
    ensures forall k :: e + off <= k < e + off + |part| ==> s[k] == part[k - (e + off)]
    ensures e + off + |part| == |s| ==> s[e + off..] == part
  {
    forall k | e + off <= k < e + off + |part| ensures s[k] == part[k - (e + off)] {
      assert s[e + (k - e)] == x[k - e];
      assert x[off..off + |part|][k - (e + off)] == x[k - e];
    }
  }

  /** A run of alphabet characters written after its label is captured
      exactly, up to the first character outside the alphabet. */
  lemma RunAfterLabel(s: string, before: string, name: string, c: char, ws: string,
                      alphabet: set<char>, run: string, rest: string)
    requires s == before + name + [c] + ws + run + rest
    requires NoMatchBefore(Labeled(name, RunOf(alphabet)), s, |before|)
    requires IsColon(c) && AllSpace(ws)
    requires |run| > 0 && !IsSpace(run[0]) && forall k :: 0 <= k < |run| ==> run[k] in alphabet
    requires rest == [] || rest[0] !in alphabet
    ensures Find(Labeled(name, RunOf(alphabet)), s) == Some(|before|)
    ensures RunCapture(s, |before|, name, alphabet) == run
  {
    var x := run + rest;
    assert s == before + name + [c] + ws + x;
    LabelThenValue(s, before, name, c, ws, x);
    RunValueAt(s, |before|, name, |before| + |name| + 1 + |ws|, x, alphabet, run, rest);
  }

  /** `RunAfterLabel` with the value's characters given by position. */
  lemma RunValueAt(s: string, p: nat, name: string, e: nat, x: string,
                   alphabet: set<char>, run: string, rest: string)
    requires LabelAt(s, p, name) && ValueStart(s, p, name) == e
    requires e + |x| == |s| && forall k :: 0 <= k < |x| ==> s[e + k] == x[k]
    requires x == run + rest
    requires NoMatchBefore(Labeled(name, RunOf(alphabet)), s, p)
    requires |run| > 0 && forall k :: 0 <= k < |run| ==> run[k] in alphabet
    requires rest == [] || rest[0] !in alphabet
    ensures Find(Labeled(name, RunOf(alphabet)), s) == Some(p)
    ensures RunCapture(s, p, name, alphabet) == run
  {
    assert s[e + 0] == x[0];
    assert MatchesAt(Labeled(name, RunOf(alphabet)), s, p);
    FindLeftmost(Labeled(name, RunOf(alphabet)), s, p);
    RunLayout(s, e, e + |run|, x, alphabet, run, rest);
  }

  /** A run of alphabet characters that the next character does not
      continue is exactly what the greedy class match takes. */
  lemma RunLayout(s: string, e: nat, v: nat, x: string, alphabet: set<char>, run: string, rest: string)
    requires e + |x| == |s| && forall k :: 0 <= k < |x| ==> s[e + k] == x[k]
    requires x == run + rest && v == e + |run|
    requires forall k :: 0 <= k < |run| ==> run[k] in alphabet
    requires rest == [] || rest[0] !in alphabet
    ensures v <= |s| && Span(s, e, OneOf(alphabet)) == v && s[e..v] == run
  {
    ClassOfPiece(s, e, x, 0, run, OneOf(alphabet));
    Segment(s, e, x, 0, run);
    if v < |s| {
      assert s[e + |run|] == x[|run|];
    }
    SpanReaches(s, e, v, OneOf(alphabet));
    assert s[e..v] == run;
  }

  /** The rest of a line written after its label is captured up to the line
      break, then stripped. */
  lemma RestAfterLabel(s: string, before: string, name: string, c: char, ws: string,
                       text: string, rest: string)
    requires s == before + name + [c] + ws + text + rest
    requires NoMatchBefore(Labeled(name, RestOfLine), s, |before|)
    requires IsColon(c) && AllSpace(ws)
    requires |text| > 0 && !IsSpace(text[0]) && '\n' !in text
    requires rest == [] || rest[0] == '\n'
    ensures Find(Labeled(name, RestOfLine), s) == Some(|before|)
    ensures RestCapture(s, |before|, name) == Strip(text)
  {
    var x := text + rest;
    assert s == before + name + [c] + ws + x;
    LabelThenValue(s, before, name, c, ws, x);
    RestValueAt(s, |before|, name, |before| + |name| + 1 + |ws|, x, text, rest);
  }

  /** `RestAfterLabel` with the value's characters given by position. */
  lemma RestValueAt(s: string, p: nat, name: string, e: nat, x: string, text: string, rest: string)
    requires LabelAt(s, p, name) && ValueStart(s, p, name) == e
    requires e + |x| == |s| && forall k :: 0 <= k < |x| ==> s[e + k] == x[k]
    requires x == text + rest
    requires NoMatchBefore(Labeled(name, RestOfLine), s, p)
    requires |text| > 0 && '\n' !in text
    requires rest == [] || rest[0] == '\n'
    ensures Find(Labeled(name, RestOfLine), s) == Some(p)
    ensures RestCapture(s, p, name) == Strip(text)
  {
    assert MatchesAt(Labeled(name, RestOfLine), s, p);
    FindLeftmost(Labeled(name, RestOfLine), s, p);
    var v := e + |text|;
    RestLayout(s, e, v, x, text, rest);
    assert RestFrom(s, e) == Strip(s[e..v]);
  }

  /** A line text followed by a line break or the end of the text is what
      the greedy `[^\n]+` takes. */
  lemma RestLayout(s: string, e: nat, v: nat, x: string, text: string, rest: string)
    requires e + |x| == |s| && forall k :: 0 <= k < |x| ==> s[e + k] == x[k]
    requires x == text + rest && v == e + |text|
    requires |text| > 0 && '\n' !in text
    requires rest == [] || rest[0] == '\n'
    ensures e < |s| && v <= |s| && Span(s, e, NonNewline) == v && s[e..v] == text
  {
    assert forall k :: 0 <= k < |text| ==> InClass(text[k], NonNewline) by {
      forall k | 0 <= k < |text| ensures InClass(text[k], NonNewline) {
        assert text[k] in text;
      }
    }
    ClassOfPiece(s, e, x, 0, text, NonNewline);
    Segment(s, e, x, 0, text);
    if v < |s| {
      assert s[e + |text|] == x[|text|];
    }
    SpanReaches(s, e, v, NonNewline);
    assert s[e..v] == text;
  }

  /** A run of `cls` characters from `i` to `j` that is not continued ends the span. */
  lemma {:induction false} SpanReaches(s: string, i: nat, j: nat, cls: CharClass)
    requires i <= j <= |s|
    requires forall k :: i <= k < j ==> InClass(s[k], cls)
    requires j == |s| || !InClass(s[j], cls)
    ensures Span(s, i, cls) == j
    decreases j - i
  {
    if i < j {
      SpanReaches(s, i + 1, j, cls);
    }
  }
}
