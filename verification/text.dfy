/**
 * Character classes and the handful of `str` operations the summary script
 * relies on: `strip()`, `split('\n')`, `'\n'.join(...)`, `int(...)` on a digit
 * string, `str(n)` and the `0>3` format padding.
 */
module Text {

  /** The characters Python's `str.isspace()` accepts; `\s` in a `str` pattern
      matches exactly these as well. */
  predicate IsSpace(c: char) {
    || ('\t' <= c <= '\r')
    || ('\U{001C}' <= c <= ' ')
    || c == '\U{0085}' || c == '\U{00A0}' || c == '\U{1680}'
    || ('\U{2000}' <= c <= '\U{200A}')
    || c == '\U{2028}' || c == '\U{2029}' || c == '\U{202F}' || c == '\U{205F}'
    || c == '\U{3000}'
  }

  /** An ASCII decimal digit. */
  predicate IsDigit(c: char) {
    '0' <= c <= '9'
  }

  predicate AllDigits(s: string) {
    forall k :: 0 <= k < |s| ==> IsDigit(s[k])
  }

  predicate StartsWith(s: string, prefix: string) {
    |prefix| <= |s| && s[..|prefix|] == prefix
  }

  /** `s.lstrip()` */
  function TrimStart(s: string): (r: string)
    ensures |r| <= |s| && r == s[|s| - |r|..]
    ensures forall k :: 0 <= k < |s| - |r| ==> IsSpace(s[k])
    ensures r == [] || !IsSpace(r[0])
  {
    if |s| > 0 && IsSpace(s[0]) then TrimStart(s[1..]) else s
  }

  /** `s.rstrip()` */
  function TrimEnd(s: string): (r: string)
    ensures |r| <= |s| && r == s[..|r|]
    ensures forall k :: |r| <= k < |s| ==> IsSpace(s[k])
    ensures r == [] || !IsSpace(r[|r| - 1])
  {
    if |s| > 0 && IsSpace(s[|s| - 1]) then TrimEnd(s[..|s| - 1]) else s
  }

  /** Neither starts nor ends with whitespace. */
  predicate IsTrimmed(s: string) {
    s == [] || (!IsSpace(s[0]) && !IsSpace(s[|s| - 1]))
  }

  /** `s.strip()`: the text between the leading and the trailing whitespace. */
  function Strip(s: string): (r: string)
    ensures r == [] <==> forall k :: 0 <= k < |s| ==> IsSpace(s[k])
    ensures IsTrimmed(r)
    ensures forall c :: c in r ==> c in s
  {
    TrimEnd(TrimStart(s))
  }

  /** Text that is already trimmed is its own strip. */
  lemma TrimmedStripsToItself(s: string)
    requires IsTrimmed(s)
    ensures Strip(s) == s
  {
    assert TrimStart(s) == s;
  }

  /** Stripping twice is stripping once. */
  lemma StripIdempotent(s: string)
    ensures Strip(Strip(s)) == Strip(s)
  {
    TrimmedStripsToItself(Strip(s));
  }

  /** Text without any whitespace strips to itself. */
  lemma StripNoSpace(s: string)
    requires forall k :: 0 <= k < |s| ==> !IsSpace(s[k])
    ensures Strip(s) == s
  {
    assert TrimStart(s) == s;
  }

  /** `s.split('\n')`: never empty, one more piece than there are newlines. */
  function Lines(s: string): (r: seq<string>)
    ensures |r| >= 1
    ensures forall i :: 0 <= i < |r| ==> '\n' !in r[i]
  {
    if |s| == 0 then [""]
    else
      var rest := Lines(s[1..]);
      if s[0] == '\n' then [""] + rest else [[s[0]] + rest[0]] + rest[1..]
  }

  /** `'\n'.join(ls)` */
  function JoinLines(ls: seq<string>): (r: string) {
    if |ls| == 0 then ""
    else if |ls| == 1 then ls[0]
    else ls[0] + "\n" + JoinLines(ls[1..])
  }

  /** Joining the pieces of a split gives the text back. */
  lemma {:induction false} JoinLinesOfLines(s: string)
    ensures JoinLines(Lines(s)) == s
  {
    if |s| > 0 {
      var rest := Lines(s[1..]);
      JoinLinesOfLines(s[1..]);
      if s[0] != '\n' {
        if |rest| == 1 {
          assert JoinLines(Lines(s)) == [s[0]] + rest[0];
        } else {
          assert JoinLines(Lines(s)) == ([s[0]] + rest[0]) + "\n" + JoinLines(rest[1..]);
          assert s[1..] == rest[0] + "\n" + JoinLines(rest[1..]);
        }
      } else {
        assert s == "\n" + s[1..];
      }
    }
  }

  /** Splitting a join of newline-free pieces gives the pieces back. */
  lemma {:induction false} LinesOfJoinLines(ls: seq<string>)
    requires |ls| >= 1
    requires forall i :: 0 <= i < |ls| ==> '\n' !in ls[i]
    ensures Lines(JoinLines(ls)) == ls
  {
    if |ls| == 1 {
      LinesOfNewlineFree(ls[0]);
    } else {
      LinesOfJoinLines(ls[1..]);
      LinesOfLineThenRest(ls[0], JoinLines(ls[1..]));
      assert [ls[0]] + ls[1..] == ls;
    }
  }

  lemma {:induction false} LinesOfNewlineFree(s: string)
    requires '\n' !in s
    ensures Lines(s) == [s]
  {
    if |s| > 0 {
      LinesOfNewlineFree(s[1..]);
      assert [s[0]] + s[1..] == s;
    }
  }

  lemma {:induction false} LinesOfLineThenRest(a: string, b: string)
    requires '\n' !in a
    ensures Lines(a + "\n" + b) == [a] + Lines(b)
  {
    if |a| == 0 {
      assert a + "\n" + b == "\n" + b;
      assert ("\n" + b)[1..] == b;
    } else {
      assert (a + "\n" + b)[1..] == a[1..] + "\n" + b;
      LinesOfLineThenRest(a[1..], b);
      assert [a[0]] + a[1..] == a;
    }
  }

  /** The character classes the source's patterns are built from. */
  datatype CharClass =
    | Space                       // \s
    | Digit                       // \d
    | DigitOrComma                // [\d,]
    | NonSpace                    // [^\s\n]
    | NonNewline                  // [^\n]
    | OneOf(alphabet: set<char>)  // an explicit bracket class such as [低中高]

  predicate InClass(c: char, cls: CharClass) {
    match cls
    case Space => IsSpace(c)
    case Digit => IsDigit(c)
    case DigitOrComma => IsDigit(c) || c == ','
    case NonSpace => !IsSpace(c)
    case NonNewline => c != '\n'
    case OneOf(alphabet) => c in alphabet
  }

  /** End of the longest run of `cls` characters starting at `i`
      (what a greedy `cls*` consumes from there). */
  function Span(s: string, i: nat, cls: CharClass): (j: nat)
    requires i <= |s|
    ensures i <= j <= |s|
    ensures forall k :: i <= k < j ==> InClass(s[k], cls)
    ensures j == |s| || !InClass(s[j], cls)
    decreases |s| - i
  {
    if i < |s| && InClass(s[i], cls) then Span(s, i + 1, cls) else i
  }

  function DigitValue(c: char): nat
    requires IsDigit(c)
  {
    c as int - '0' as int
  }

  /** `int(ds)` for a string of ASCII digits. */
  function DigitsValue(ds: string): nat
    requires AllDigits(ds)
  {
    if |ds| == 0 then 0 else 10 * DigitsValue(ds[..|ds| - 1]) + DigitValue(ds[|ds| - 1])
  }

  function DigitChar(d: nat): (c: char)
    requires d < 10
    ensures IsDigit(c) && DigitValue(c) == d
  {
    ('0' as int + d) as char
  }

  /** `str(n)` for a natural number. */
  function NatToString(n: nat): (r: string)
    ensures |r| >= 1 && AllDigits(r)
    ensures r[0] == '0' ==> n == 0
  {
    if n < 10 then [DigitChar(n)] else NatToString(n / 10) + [DigitChar(n % 10)]
  }

  /** `int(str(n)) == n`. */
  lemma {:induction false} DigitsValueOfNatToString(n: nat)
    ensures DigitsValue(NatToString(n)) == n
  {
    if n >= 10 {
      DigitsValueOfNatToString(n / 10);
      var r := NatToString(n);
      assert r[..|r| - 1] == NatToString(n / 10);
    }
  }

  /** Leading zeros do not change `int(...)`. */
  lemma {:induction false} DigitsValueLeadingZeros(zs: string, ds: string)
    requires AllDigits(ds)
    requires forall k :: 0 <= k < |zs| ==> zs[k] == '0'
    ensures AllDigits(zs + ds) && DigitsValue(zs + ds) == DigitsValue(ds)
  {
    if |ds| == 0 {
      LeadingZerosOnly(zs);
      assert zs + ds == zs;
    } else {
      DigitsValueLeadingZeros(zs, ds[..|ds| - 1]);
      assert (zs + ds)[..|zs + ds| - 1] == zs + ds[..|ds| - 1];
    }
  }

  lemma {:induction false} LeadingZerosOnly(zs: string)
    requires forall k :: 0 <= k < |zs| ==> zs[k] == '0'
    ensures AllDigits(zs) && DigitsValue(zs) == 0
  {
    if |zs| > 0 {
      LeadingZerosOnly(zs[..|zs| - 1]);
    }
  }

  function Repeat(c: char, n: nat): (r: string)
    ensures |r| == n && forall k :: 0 <= k < n ==> r[k] == c
  {
    seq(n, _ => c)
  }

  /** The format spec `0>3`: right-align in a field of width 3, filling with '0';
      a longer value is left as it is. */
  function ZeroPad3(s: string): (r: string)
    ensures |r| == if |s| >= 3 then |s| else 3
    ensures r[|r| - |s|..] == s
    ensures forall k :: 0 <= k < |r| - |s| ==> r[k] == '0'
  {
    if |s| >= 3 then s else Repeat('0', 3 - |s|) + s
  }

  /** Padding a version number keeps its integer value. */
  lemma ZeroPad3KeepsValue(ds: string)
    requires AllDigits(ds)
    ensures AllDigits(ZeroPad3(ds)) && DigitsValue(ZeroPad3(ds)) == DigitsValue(ds)
  {
    if |ds| < 3 {
      DigitsValueLeadingZeros(Repeat('0', 3 - |ds|), ds);
    }
  }
}
