/**
  The fixed regular expressions that the header stripper applies with
  Python 2's `re.match`, written as lists of pieces.

  Each pattern is a concatenation of literal text (in which an unescaped `.`
  keeps its regex meaning), single `\d` classes and the starred classes `\d*`
  and `\s*`; no pattern uses alternation or groups, so a small backtracking
  prefix matcher gives `re.match` its exact meaning: the pattern matches when
  some prefix of the line matches it, whatever follows. Character classes are
  those of Python 2 byte strings without flags.
 */
module Patterns {

  /** `\d` on a Python 2 byte string: an ASCII digit. */
  predicate IsDigit(c: char) {
    '0' <= c <= '9'
  }

  /** `\s` on a Python 2 byte string without flags: space, tab, newline,
      carriage return, vertical tab or form feed. */
  predicate IsSpace(c: char) {
    c == ' ' || c == '\t' || c == '\n' || c == '\r' || c == '\U{000B}' || c == '\U{000C}'
  }

  datatype Piece =
    | Chars(text: string)  // regex text: each `.` is any character but a newline
    | Digit                // `\d`
    | Digits               // `\d*`
    | Spaces               // `\s*`

  /** Character `c` is allowed where the regex text has `t`. */
  predicate FitsChar(t: char, c: char) {
    if t == '.' then c != '\n' else c == t
  }

  /** `u` begins with characters matching the regex text `t` one by one. */
  predicate FitsText(t: string, u: string) {
    |t| <= |u| && forall i :: 0 <= i < |t| ==> FitsChar(t[i], u[i])
  }

  /** `re.match(p, s) is not None`: some prefix of `s` matches `p`. A starred
      class may take any number of characters (backtracking). */
  predicate MatchesPrefix(p: seq<Piece>, s: string)
    decreases |p|, |s|
  {
    if p == [] then true
    else match p[0]
      case Chars(t) => FitsText(t, s) && MatchesPrefix(p[1..], s[|t|..])
      case Digit => s != [] && IsDigit(s[0]) && MatchesPrefix(p[1..], s[1..])
      case Digits => MatchesPrefix(p[1..], s) || (s != [] && IsDigit(s[0]) && MatchesPrefix(p, s[1..]))
      case Spaces => MatchesPrefix(p[1..], s) || (s != [] && IsSpace(s[0]) && MatchesPrefix(p, s[1..]))
  }

  /** Line 48: the raw first line must start with `UNCLASSIFIED`. */
  function Unclassified(): seq<Piece> {
    [Chars("UNCLASSIFIED")]
  }

  /** Line 70: the single-line modern header. `\d*` accepts zero digits. */
  function ModernHeader(): seq<Piece> {
    [ Chars("UNCLASSIFIED U.S. Department of State Case No. F-"), Digit, Digit, Digit, Digit,
      Chars("-"), Digits, Chars(" Doc No. C"), Digits, Chars(" Date: "),
      Digit, Digit, Chars("/"), Digit, Digit, Chars("/"), Digit, Digit, Digit, Digit ]
  }

  /** Line 78: the Benghazi production footer, with any whitespace (possibly
      none) after `UNCLASSIFIED`. */
  function BenghaziFooter(): seq<Piece> {
    [Chars("UNCLASSIFIED"), Spaces, Chars("STATE DEPT. - PRODUCED TO HOUSE SELECT BENGHAZI COMM.")]
  }

  /** Line 80: the four continuation lines of a legacy header, in order.
      Each is plain regex text, so `re.match` with it is `FitsText`
      (see `TextMatches`). */
  function Markers(): (ms: seq<string>)
    ensures |ms| == 4
  {
    ["U.S. Department of State", "Case No.", "Doc No.", "Date"]
  }

  // ---------------------------------------------------------------------
  // Facts about the matcher

  /** Regex text matches exactly the lines that begin with it, each `.`
      standing for any character but a newline; without a `.`, that is a
      literal prefix test. */
  lemma TextMatches(t: string, s: string)
    ensures MatchesPrefix([Chars(t)], s) <==> FitsText(t, s)
    ensures '.' !in t ==> (MatchesPrefix([Chars(t)], s) <==> t <= s)
  {
    assert [Chars(t)][1..] == [];
    if '.' !in t && FitsText(t, s) {
      forall i | 0 <= i < |t| ensures t[i] == s[i] {
        assert t[i] in t;
      }
    }
  }

  /** A text piece matches its own text: every character, `.` included,
      fits itself. */
  lemma TextMatchesItself(t: string, p: seq<Piece>, r: string)
    ensures MatchesPrefix([Chars(t)] + p, t + r) == MatchesPrefix(p, r)
  {
    var s := t + r;
    assert ([Chars(t)] + p)[1..] == p;
    assert s[|t|..] == r;
    forall i | 0 <= i < |t| ensures FitsChar(t[i], s[i]) {
      assert s[i] == t[i];
    }
  }

  /** A single digit class takes one digit. */
  lemma DigitMatches(d: char, p: seq<Piece>, r: string)
    requires IsDigit(d)
    ensures MatchesPrefix([Digit] + p, [d] + r) == MatchesPrefix(p, r)
  {
    assert ([Digit] + p)[1..] == p;
    assert ([d] + r)[1..] == r;
  }

  /** `\d*` can take a whole run of digits. */
  lemma {:induction false} DigitsTakeRun(ds: string, p: seq<Piece>, r: string)
    requires forall i :: 0 <= i < |ds| ==> IsDigit(ds[i])
    requires MatchesPrefix(p, r)
    ensures MatchesPrefix([Digits] + p, ds + r)
    decreases |ds|
  {
    assert ([Digits] + p)[1..] == p;
    if ds == [] {
      assert ds + r == r;
    } else {
      DigitsTakeRun(ds[1..], p, r);
      assert (ds + r)[1..] == ds[1..] + r;
    }
  }

  /** `\s*` can take a whole run of whitespace. */
  lemma {:induction false} SpacesTakeRun(ws: string, p: seq<Piece>, r: string)
    requires forall i :: 0 <= i < |ws| ==> IsSpace(ws[i])
    requires MatchesPrefix(p, r)
    ensures MatchesPrefix([Spaces] + p, ws + r)
    decreases |ws|
  {
    assert ([Spaces] + p)[1..] == p;
    if ws == [] {
      assert ws + r == r;
    } else {
      SpacesTakeRun(ws[1..], p, r);
      assert (ws + r)[1..] == ws[1..] + r;
    }
  }

  /** The text of the Benghazi footer after `UNCLASSIFIED` and its
      whitespace. */
  function FooterText(): string {
    "STATE DEPT. - PRODUCED TO HOUSE SELECT BENGHAZI COMM."
  }

  /** Line 78: `UNCLASSIFIED`, any run of whitespace (possibly none) and the
      footer text make a footer line, whatever follows them. */
  lemma BenghaziFooterAccepts(ws: string, rest: string)
    requires forall i :: 0 <= i < |ws| ==> IsSpace(ws[i])
    ensures MatchesPrefix(BenghaziFooter(), "UNCLASSIFIED" + ws + FooterText() + rest)
  {
    var t := FooterText();
    assert [Chars(t)] + [] == [Chars(t)];
    TextMatchesItself(t, [], rest);
    SpacesTakeRun(ws, [Chars(t)], t + rest);
    TextMatchesItself("UNCLASSIFIED", [Spaces] + [Chars(t)], ws + (t + rest));
    assert "UNCLASSIFIED" + ws + t + rest == "UNCLASSIFIED" + (ws + (t + rest));
    assert [Chars("UNCLASSIFIED")] + ([Spaces] + [Chars(t)]) == BenghaziFooter();
  }

  /** `n` single digit classes in a row. */
  function DigitClasses(n: nat): (p: seq<Piece>)
    ensures |p| == n && forall i :: 0 <= i < n ==> p[i] == Digit
  {
    if n == 0 then [] else [Digit] + DigitClasses(n - 1)
  }

  /** A run of single digit classes takes exactly as many digits. */
  lemma {:induction false} DigitClassesTake(ds: string, p: seq<Piece>, r: string)
    requires forall i :: 0 <= i < |ds| ==> IsDigit(ds[i])
    ensures MatchesPrefix(DigitClasses(|ds|) + p, ds + r) == MatchesPrefix(p, r)
    decreases |ds|
  {
    if ds == [] {
      assert ds + r == r;
      assert DigitClasses(0) + p == p;
    } else {
      var q := DigitClasses(|ds| - 1) + p;
      assert DigitClasses(|ds|) + p == [Digit] + q;
      assert ds + r == [ds[0]] + (ds[1..] + r);
      DigitMatches(ds[0], q, ds[1..] + r);
      DigitClassesTake(ds[1..], p, r);
    }
  }

  predicate AllDigits(ds: string) {
    forall i :: 0 <= i < |ds| ==> IsDigit(ds[i])
  }

  /** The modern header line as the State Department prints it: case
      `F-<year>-<caseNo>`, document `C<docNo>`, date `<month>/<day>/<yr>`. */
  function ModernHeaderLine(year: string, caseNo: string, docNo: string,
                            month: string, day: string, yr: string): string
  {
    "UNCLASSIFIED U.S. Department of State Case No. F-" + year + "-" + caseNo
    + " Doc No. C" + docNo + " Date: " + month + "/" + day + "/" + yr
  }

  /** Line 70: every line of the documented modern form is a modern header,
      whatever follows it, the case and document numbers having any number
      of digits. */
  lemma ModernHeaderAccepts(year: string, caseNo: string, docNo: string,
                            month: string, day: string, yr: string, rest: string)
    requires |year| == 4 && |month| == 2 && |day| == 2 && |yr| == 4
    requires AllDigits(year) && AllDigits(caseNo) && AllDigits(docNo)
    requires AllDigits(month) && AllDigits(day) && AllDigits(yr)
    ensures MatchesPrefix(ModernHeader(), ModernHeaderLine(year, caseNo, docNo, month, day, yr) + rest)
  {
    ModernHeaderNested();
    ModernHeaderLineNested(year, caseNo, docNo, month, day, yr, rest);
    NestedHeaderMatches(year, caseNo, docNo, month, day, yr, rest);
  }

  /** The modern header pattern, grouped from the right. */
  function NestedHeader(): seq<Piece> {
    [Chars("UNCLASSIFIED U.S. Department of State Case No. F-")] + (DigitClasses(4) + ([Chars("-")]
    + ([Digits] + ([Chars(" Doc No. C")] + ([Digits] + ([Chars(" Date: ")] + (DigitClasses(2)
    + ([Chars("/")] + (DigitClasses(2) + ([Chars("/")] + DigitClasses(4)))))))))))
  }

  /** The modern header line followed by `rest`, grouped from the right. */
  function NestedHeaderLine(year: string, caseNo: string, docNo: string,
                            month: string, day: string, yr: string, rest: string): string
  {
    "UNCLASSIFIED U.S. Department of State Case No. F-" + (year + ("-" + (caseNo + (" Doc No. C"
    + (docNo + (" Date: " + (month + ("/" + (day + ("/" + (yr + rest)))))))))))
  }

  lemma ModernHeaderNested()
    ensures ModernHeader() == NestedHeader()
  {
  }

  lemma ModernHeaderLineNested(year: string, caseNo: string, docNo: string,
                               month: string, day: string, yr: string, rest: string)
    ensures ModernHeaderLine(year, caseNo, docNo, month, day, yr) + rest
         == NestedHeaderLine(year, caseNo, docNo, month, day, yr, rest)
  {
  }

  /** Each piece takes its own part of the line, from the right. */
  lemma NestedHeaderMatches(year: string, caseNo: string, docNo: string,
                            month: string, day: string, yr: string, rest: string)
    requires |year| == 4 && |month| == 2 && |day| == 2 && |yr| == 4
    requires AllDigits(year) && AllDigits(caseNo) && AllDigits(docNo)
    requires AllDigits(month) && AllDigits(day) && AllDigits(yr)
    ensures MatchesPrefix(NestedHeader(), NestedHeaderLine(year, caseNo, docNo, month, day, yr, rest))
  {
    var t0, t1, t2, t3 := "UNCLASSIFIED U.S. Department of State Case No. F-", "-", " Doc No. C", " Date: ";
    var p10 := DigitClasses(4);
    var p9 := [Chars("/")] + p10;
    var p8 := DigitClasses(2) + p9;
    var p7 := [Chars("/")] + p8;
    var p6 := DigitClasses(2) + p7;
    var p5 := [Chars(t3)] + p6;
    var p4 := [Digits] + p5;
    var p3 := [Chars(t2)] + p4;
    var p2 := [Digits] + p3;
    var p1 := [Chars(t1)] + p2;
    var p0 := DigitClasses(4) + p1;
    var s9 := yr + rest;
    var s8 := "/" + s9;
    var s7 := day + s8;
    var s6 := "/" + s7;
    var s5 := month + s6;
    var s4 := t3 + s5;
    var s3 := docNo + s4;
    var s2 := t2 + s3;
    var s1 := caseNo + s2;
    var s0 := t1 + s1;
    assert p10 + [] == p10;
    DigitClassesTake(yr, [], rest);
    TextMatchesItself("/", p10, s9);
    DigitClassesTake(day, p9, s8);
    TextMatchesItself("/", p8, s7);
    DigitClassesTake(month, p7, s6);
    TextMatchesItself(t3, p6, s5);
    DigitsTakeRun(docNo, p5, s4);
    TextMatchesItself(t2, p4, s3);
    DigitsTakeRun(caseNo, p3, s2);
    TextMatchesItself(t1, p2, s1);
    DigitClassesTake(year, p1, s0);
    TextMatchesItself(t0, p0, year + s0);
  }
}
