/**
 * `ResearchReport._parse_sections`: a report is cut into sections at its
 * second-level headings (`## name`). The parser is a left fold over the lines
 * of the report; the lemmas below relate it to a description by positions:
 * which names end up stored, and which body each one gets.
 */
module Sections {
  import opened Text
  import opened Seqs

  /** A line opening a section. `### ...` lines do not: their fourth character
      is `#`, not the space the marker needs. */
  predicate IsHeading(line: string) {
    StartsWith(line, "## ")
  }

  function HeadingName(line: string): string
    requires IsHeading(line)
  {
    Strip(line[3..])
  }

  /** Parser state: the sections stored so far, the name of the open section,
      and the lines collected for it. No open section is the empty name: the
      source's `None` and a heading that strips to `""` are both false in its
      `if current_section` tests, so both drop the lines that follow them. */
  datatype Splitter = Splitter(sections: map<string, string>, current: string, body: seq<string>)

  const Start := Splitter(map[], "", [])

  /** Stores the open section, if there is one, under its name. */
  function Close(st: Splitter): map<string, string> {
    if st.current != "" then st.sections[st.current := Strip(JoinLines(st.body))] else st.sections
  }

  /** One iteration of the loop over the lines. */
  function Step(st: Splitter, line: string): Splitter {
    if IsHeading(line) then Splitter(Close(st), HeadingName(line), [])
    else if st.current != "" then st.(body := st.body + [line])
    else st
  }

  function Run(st: Splitter, ls: seq<string>): Splitter
    decreases |ls|
  {
    if |ls| == 0 then st else Run(Step(st, ls[0]), ls[1..])
  }

  /** Stored names are non-empty and stripped, stored bodies are stripped. */
  ghost predicate WellFormed(st: Splitter) {
    && IsTrimmed(st.current)
    && forall k :: k in st.sections ==> k != "" && IsTrimmed(k) && IsTrimmed(st.sections[k])
  }

  lemma {:induction false} RunWellFormed(st: Splitter, ls: seq<string>)
    requires WellFormed(st)
    ensures WellFormed(Run(st, ls))
    decreases |ls|
  {
    if |ls| > 0 {
      RunWellFormed(Step(st, ls[0]), ls[1..]);
    }
  }

  /** The section map of a list of lines. */
  function SplitSections(ls: seq<string>): (r: map<string, string>)
    ensures forall k :: k in r ==> k != "" && IsTrimmed(k) && IsTrimmed(r[k])
  {
    RunWellFormed(Start, ls);
    Close(Run(Start, ls))
  }

  /** `_parse_sections` over the whole text of a report: every stored name is
      non-empty and neither starts nor ends with whitespace, and so does no
      stored body. */
  function ParseSections(content: string): (r: map<string, string>)
    ensures forall k :: k in r ==> k != "" && IsTrimmed(k) && IsTrimmed(r[k])
  {
    SplitSections(Lines(content))
  }

  /** Every stored name and body equals its own strip. */
  lemma StoredTextIsStripped(content: string, k: string)
    requires k in ParseSections(content)
    ensures Strip(k) == k && Strip(ParseSections(content)[k]) == ParseSections(content)[k]
  {
    TrimmedStripsToItself(k);
    TrimmedStripsToItself(ParseSections(content)[k]);
  }

  // ---------------------------------------------------------------------------
  // The same map described by positions.

  /** Line `i` is a heading named `k`. */
  ghost predicate NamedAt(ls: seq<string>, i: int, k: string) {
    0 <= i < |ls| && IsHeading(ls[i]) && HeadingName(ls[i]) == k
  }

  /** Line `i` is the last heading named `k`. */
  ghost predicate LastNamedAt(ls: seq<string>, i: int, k: string) {
    NamedAt(ls, i, k) && forall j :: i < j < |ls| ==> !NamedAt(ls, j, k)
  }

  /** Index of the first heading at or after `i`, or the end of the lines:
      the body of a section opened at line `i - 1` is `ls[i..SectionEnd(ls, i)]`. */
  function SectionEnd(ls: seq<string>, i: nat): (j: nat)
    requires i <= |ls|
    ensures i <= j <= |ls|
    ensures forall k :: i <= k < j ==> !IsHeading(ls[k])
    ensures j == |ls| || IsHeading(ls[j])
    decreases |ls| - i
  {
    if i == |ls| || IsHeading(ls[i]) then i else SectionEnd(ls, i + 1)
  }

  lemma {:induction false} RunAppend(st: Splitter, a: seq<string>, b: seq<string>)
    ensures Run(st, a + b) == Run(Run(st, a), b)
    decreases |a|
  {
    if |a| > 0 {
      assert (a + b)[1..] == a[1..] + b;
      RunAppend(Step(st, a[0]), a[1..], b);
    } else {
      assert a + b == b;
    }
  }

  /** Lines without a heading only grow the open section's body. */
  lemma {:induction false} RunBody(st: Splitter, ls: seq<string>)
    requires st.current != ""
    requires forall j :: 0 <= j < |ls| ==> !IsHeading(ls[j])
    ensures Run(st, ls) == st.(body := st.body + ls)
    decreases |ls|
  {
    if |ls| > 0 {
      RunBody(Step(st, ls[0]), ls[1..]);
      assert st.body + [ls[0]] + ls[1..] == st.body + ls;
    } else {
      assert st.body + ls == st.body;
    }
  }

  /** Lines without a heading change nothing while no section is open. */
  lemma {:induction false} RunPreamble(st: Splitter, ls: seq<string>)
    requires st.current == ""
    requires forall j :: 0 <= j < |ls| ==> !IsHeading(ls[j])
    ensures Run(st, ls) == st
    decreases |ls|
  {
    if |ls| > 0 {
      RunPreamble(Step(st, ls[0]), ls[1..]);
    }
  }

  /** Lines before the first heading belong to no section. */
  lemma PreambleDropped(pre: seq<string>, ls: seq<string>)
    requires forall j :: 0 <= j < |pre| ==> !IsHeading(pre[j])
    ensures SplitSections(pre + ls) == SplitSections(ls)
  {
    RunAppend(Start, pre, ls);
    RunPreamble(Start, pre);
  }

  /** Once a name is neither open nor used by a later heading, its stored body
      (or its absence) is final. */
  lemma {:induction false} KeyIsFinal(st: Splitter, ls: seq<string>, k: string)
    requires st.current != k
    requires forall j :: 0 <= j < |ls| ==> !NamedAt(ls, j, k)
    ensures k in Close(Run(st, ls)) <==> k in st.sections
    ensures k in st.sections ==> Close(Run(st, ls))[k] == st.sections[k]
    decreases |ls|
  {
    if |ls| > 0 {
      assert !NamedAt(ls, 0, k);
      assert forall j :: 0 <= j < |ls| - 1 ==> !NamedAt(ls[1..], j, k) by {
        forall j | 0 <= j < |ls| - 1 ensures !NamedAt(ls[1..], j, k) {
          assert !NamedAt(ls, j + 1, k);
        }
      }
      KeyIsFinal(Step(st, ls[0]), ls[1..], k);
    }
  }

  /** A heading closes the open section and opens its own, empty one. */
  lemma RunFromHeading(st: Splitter, ls: seq<string>)
    requires |ls| > 0 && IsHeading(ls[0])
    ensures Run(st, ls) == Run(Splitter(Close(st), HeadingName(ls[0]), []), ls[1..])
  {
  }

  /** A freshly opened section collects its heading-free lines. */
  lemma RunFreshSection(st: Splitter, body: seq<string>, after: seq<string>)
    requires st.current != "" && st.body == []
    requires forall j :: 0 <= j < |body| ==> !IsHeading(body[j])
    ensures Run(st, body + after) == Run(st.(body := body), after)
  {
    RunAppend(st, body, after);
    RunBody(st, body);
    assert st.body + body == body;
  }

  /** Running up to a heading at line `i` opens its section, empty. */
  lemma RunToHeading(ls: seq<string>, i: nat)
    requires i < |ls| && IsHeading(ls[i])
    ensures Run(Start, ls) == Run(Splitter(Close(Run(Start, ls[..i])), HeadingName(ls[i]), []), ls[i + 1..])
  {
    var rest := ls[i..];
    assert ls == ls[..i] + rest;
    RunAppend(Start, ls[..i], rest);
    RunFromHeading(Run(Start, ls[..i]), rest);
    assert rest[1..] == ls[i + 1..];
  }

  /** A section opened just before line `i` collects the lines up to the next
      heading. */
  lemma RunSectionBody(st: Splitter, ls: seq<string>, i: nat)
    requires st.current != "" && st.body == [] && i <= |ls|
    ensures Run(st, ls[i..]) == Run(st.(body := ls[i..SectionEnd(ls, i)]), ls[SectionEnd(ls, i)..])
  {
    var e := SectionEnd(ls, i);
    var body := ls[i..e];
    SliceSplit(ls, i, e);
    assert forall j :: 0 <= j < |body| ==> body[j] == ls[i + j];
    RunFreshSection(st, body, ls[e..]);
  }

  /** Running up to the end of the section opened at line `i` leaves that
      section open with all of its lines collected. */
  lemma RunThroughSection(ls: seq<string>, i: nat)
    requires i < |ls| && IsHeading(ls[i]) && HeadingName(ls[i]) != ""
    ensures var e := SectionEnd(ls, i + 1);
      Run(Start, ls) ==
      Run(Splitter(Close(Run(Start, ls[..i])), HeadingName(ls[i]), ls[i + 1..e]), ls[e..])
  {
    RunToHeading(ls, i);
    RunSectionBody(Splitter(Close(Run(Start, ls[..i])), HeadingName(ls[i]), []), ls, i + 1);
  }

  /** An open section named `k` is stored with its collected body when the
      remaining lines start with another name's heading (or are exhausted)
      and never name `k` again. */
  lemma {:induction false} OpenSectionIsStored(st: Splitter, tail: seq<string>)
    requires st.current != ""
    requires |tail| == 0 || IsHeading(tail[0])
    requires forall j :: 0 <= j < |tail| ==> !NamedAt(tail, j, st.current)
    ensures st.current in Close(Run(st, tail))
    ensures Close(Run(st, tail))[st.current] == Strip(JoinLines(st.body))
  {
    if |tail| > 0 {
      assert !NamedAt(tail, 0, st.current);
      var st4 := Step(st, tail[0]);
      forall j | 0 <= j < |tail| - 1 ensures !NamedAt(tail[1..], j, st.current) {
        assert !NamedAt(tail, j + 1, st.current);
      }
      KeyIsFinal(st4, tail[1..], st.current);
    }
  }

  /** No line after the last heading named `k` is named `k`. */
  lemma NotNamedAfter(ls: seq<string>, i: nat, e: nat, k: string)
    requires LastNamedAt(ls, i, k) && i < e <= |ls|
    ensures forall j :: 0 <= j < |ls[e..]| ==> !NamedAt(ls[e..], j, k)
  {
    forall j | 0 <= j < |ls[e..]| ensures !NamedAt(ls[e..], j, k) {
      assert ls[e..][j] == ls[e + j];
      assert !NamedAt(ls, e + j, k);
    }
  }

  /** The last heading named `k` decides what `k` maps to: the stripped lines
      between it and the next heading. Earlier sections of the same name are
      overwritten. */
  lemma LastOccurrenceWins(ls: seq<string>, i: nat, k: string)
    requires LastNamedAt(ls, i, k) && k != ""
    ensures k in SplitSections(ls)
    ensures SplitSections(ls)[k] == Strip(JoinLines(ls[i + 1..SectionEnd(ls, i + 1)]))
  {
    var e := SectionEnd(ls, i + 1);
    var st := Splitter(Close(Run(Start, ls[..i])), k, ls[i + 1..e]);
    RunThroughSection(ls, i);
    NotNamedAfter(ls, i, e, k);
    OpenSectionIsStored(st, ls[e..]);
  }

  /** Every stored name comes from a heading, or from the state the run
      started in. */
  lemma {:induction false} KeysFromHeadings(st: Splitter, ls: seq<string>, k: string)
    requires k in Close(Run(st, ls))
    ensures k in st.sections || (k == st.current && k != "") || exists i :: NamedAt(ls, i, k)
    decreases |ls|
  {
    if |ls| > 0 {
      KeysFromHeadings(Step(st, ls[0]), ls[1..], k);
      if exists i :: NamedAt(ls[1..], i, k) {
        var i :| NamedAt(ls[1..], i, k);
        assert NamedAt(ls, i + 1, k);
      } else if IsHeading(ls[0]) && k == HeadingName(ls[0]) {
        assert NamedAt(ls, 0, k);
      }
    }
  }

  lemma {:induction false} LastNamedExists(ls: seq<string>, i: nat, k: string)
    requires NamedAt(ls, i, k)
    ensures exists j :: LastNamedAt(ls, j, k)
    decreases |ls| - i
  {
    if !LastNamedAt(ls, i, k) {
      var j :| i < j < |ls| && NamedAt(ls, j, k);
      LastNamedExists(ls, j, k);
    }
  }

  /** A name is stored exactly when some heading carries it and it is not
      empty. */
  lemma StoredNames(ls: seq<string>, k: string)
    ensures k in SplitSections(ls) <==> k != "" && exists i :: NamedAt(ls, i, k)
  {
    if k in SplitSections(ls) {
      KeysFromHeadings(Start, ls, k);
    }
    if k != "" && exists i :: NamedAt(ls, i, k) {
      var i :| NamedAt(ls, i, k);
      LastNamedExists(ls, i, k);
      var j :| LastNamedAt(ls, j, k);
      LastOccurrenceWins(ls, j, k);
    }
  }

  /** A `### ` line is never a section heading, so it stays in the body of the
      section around it. */
  lemma SubHeadingStaysInBody(ls: seq<string>, i: nat, j: nat)
    requires i < j < |ls| && StartsWith(ls[j], "### ")
    requires forall m :: i < m < j ==> !IsHeading(ls[m])
    ensures !IsHeading(ls[j]) && j < SectionEnd(ls, i + 1)
  {
    assert ls[j][2] == '#';
  }
}
