/**
  The line normaliser: the three `re.sub` calls that `clean_and_enumerate`
  applies, in order, to every line before the recognizer sees it.

  Each substitution pattern ends in `$` and has no word boundary, so it
  removes the longest trailing stretch of the line that matches it, with the
  whitespace before it, even from the middle of a word ("COUNTERPART" loses
  "PART"). In Python 2, `$` matches at the end of the string or just before a
  final newline; a final newline therefore survives every strip.
 */
module Normaliser {
  import opened Patterns

  /** The three trailing classification marks, in the order they are stripped. */
  datatype TrailingMark =
    | Codes       // (\s*B\d(\([A-F]\))?,)*\s*B\d(\([A-F]\))?$
    | FullOrPart  // \s*(FULL|PART)$
    | ReleaseIn   // \s*(RELEASE IN)$

  predicate AllSpaces(t: string) {
    forall i :: 0 <= i < |t| ==> IsSpace(t[i])
  }

  /** `\s*B\d(\([A-F]\))?` matching the whole of `t`. */
  predicate IsCodeItem(t: string) {
    var n := |t|;
    || (n >= 2 && AllSpaces(t[..n - 2]) && t[n - 2] == 'B' && IsDigit(t[n - 1]))
    || (n >= 5 && AllSpaces(t[..n - 5]) && t[n - 5] == 'B' && IsDigit(t[n - 4])
        && t[n - 3] == '(' && 'A' <= t[n - 2] <= 'F' && t[n - 1] == ')')
  }

  /** Index of the first comma of `t`, or `|t|` if there is none. */
  function FirstComma(t: string): (k: nat)
    ensures k <= |t|
    ensures k < |t| ==> t[k] == ','
  {
    if t == [] then 0 else if t[0] == ',' then 0 else 1 + FirstComma(t[1..])
  }

  /** No comma comes before the one `FirstComma` finds. */
  lemma {:induction false} FirstCommaIsFirst(t: string)
    ensures forall i :: 0 <= i < FirstComma(t) ==> t[i] != ','
    decreases |t|
  {
    if t != [] && t[0] != ',' {
      FirstCommaIsFirst(t[1..]);
      forall i | 1 <= i < FirstComma(t) ensures t[i] != ',' {
        assert t[1..][i - 1] == t[i];
      }
    }
  }

  /** `(\s*B\d(\([A-F]\))?,)*\s*B\d(\([A-F]\))?` matching the whole of `t`.
      A code item contains no comma, so the commas of `t` are exactly the
      separators and every field between them must be an item. */
  predicate IsCodeList(t: string)
    decreases |t|
  {
    var k := FirstComma(t);
    if k == |t| then IsCodeItem(t) else IsCodeItem(t[..k]) && IsCodeList(t[k + 1..])
  }

  /** Does mark `m`'s pattern (without its `$`) match the whole of `t`? */
  predicate Matches(m: TrailingMark, t: string) {
    match m
    case Codes => IsCodeList(t)
    case FullOrPart =>
      |t| >= 4 && AllSpaces(t[..|t| - 4]) && (t[|t| - 4..] == "FULL" || t[|t| - 4..] == "PART")
    case ReleaseIn =>
      |t| >= 10 && AllSpaces(t[..|t| - 10]) && t[|t| - 10..] == "RELEASE IN"
  }

  /** Where Python 2's `$` matches: before a final newline, or at the end. */
  function EndAnchor(s: string): (e: nat)
    ensures e <= |s| && |s| - e <= 1
  {
    if |s| > 0 && s[|s| - 1] == '\n' then |s| - 1 else |s|
  }

  function CutFrom(s: string, m: TrailingMark, j: nat): (k: nat)
    requires j <= EndAnchor(s)
    ensures j <= k <= EndAnchor(s)
    decreases EndAnchor(s) - j
  {
    if j == EndAnchor(s) then j
    else if Matches(m, s[j..EndAnchor(s)]) then j
    else CutFrom(s, m, j + 1)
  }

  /** Where `re.sub(pattern, '', s)` starts cutting: `re.sub` tries the
      leftmost start first, so this is the start of the LONGEST stretch
      ending at `$` that matches, or the anchor itself when none does. */
  function Cut(s: string, m: TrailingMark): (k: nat)
    ensures k <= EndAnchor(s)
  {
    CutFrom(s, m, 0)
  }

  lemma {:induction false} CutFromIsLeftmost(s: string, m: TrailingMark, j: nat)
    requires j <= EndAnchor(s)
    ensures CutFrom(s, m, j) < EndAnchor(s) ==> Matches(m, s[CutFrom(s, m, j)..EndAnchor(s)])
    ensures forall i :: j <= i < CutFrom(s, m, j) ==> !Matches(m, s[i..EndAnchor(s)])
    decreases EndAnchor(s) - j
  {
    var e := EndAnchor(s);
    if j < e && !Matches(m, s[j..e]) {
      var k := CutFrom(s, m, j + 1);
      assert CutFrom(s, m, j) == k;
      CutFromIsLeftmost(s, m, j + 1);
      forall i | j <= i < k ensures !Matches(m, s[i..e]) {
        if i == j {
          assert !Matches(m, s[j..e]);
        }
      }
    }
  }

  /** `re.sub` cuts at the leftmost start of a match: the stretch from the
      cut to the anchor matches (unless nothing does), and no earlier start
      does. */
  lemma CutIsLeftmost(s: string, m: TrailingMark)
    ensures Cut(s, m) < EndAnchor(s) ==> Matches(m, s[Cut(s, m)..EndAnchor(s)])
    ensures forall i :: 0 <= i < Cut(s, m) ==> !Matches(m, s[i..EndAnchor(s)])
  {
    CutFromIsLeftmost(s, m, 0);
  }

  /** One `re.sub(pattern, '', s)` of line 32, 34 or 35. */
  function Strip(s: string, m: TrailingMark): string {
    s[..Cut(s, m)] + s[EndAnchor(s)..]
  }

  /** The per-line body of `clean_and_enumerate`: the three strips in order. */
  function Normalise(s: string): string {
    Strip(Strip(Strip(s, Codes), FullOrPart), ReleaseIn)
  }

  /** `f` applied to every line, in order. */
  function MapLines(f: string -> string, lines: seq<string>): (ns: seq<string>)
    ensures |ns| == |lines|
  {
    if lines == [] then [] else [f(lines[0])] + MapLines(f, lines[1..])
  }

  lemma {:induction false} MapLinesAt(f: string -> string, lines: seq<string>)
    ensures forall i :: 0 <= i < |lines| ==> MapLines(f, lines)[i] == f(lines[i])
    decreases |lines|
  {
    if lines != [] {
      MapLinesAt(f, lines[1..]);
      forall i | 1 <= i < |lines| ensures MapLines(f, lines)[i] == f(lines[i]) {
        assert lines[1..][i - 1] == lines[i];
      }
    }
  }

  lemma {:induction false} MapLinesAppend(f: string -> string, a: seq<string>, b: seq<string>)
    ensures MapLines(f, a + b) == MapLines(f, a) + MapLines(f, b)
    decreases |a|
  {
    if a == [] {
      assert a + b == b;
    } else {
      MapLinesAppend(f, a[1..], b);
      TailOfAppend(a, b);
    }
  }

  /** What `clean_and_enumerate` yields, line by line. */
  function Normalised(lines: seq<string>): (ns: seq<string>)
    ensures |ns| == |lines|
  {
    MapLines(Normalise, lines)
  }

  /** Line `i` of the output is line `i` of the input, normalised. */
  lemma NormalisedLineByLine(lines: seq<string>)
    ensures forall i :: 0 <= i < |lines| ==> Normalised(lines)[i] == Normalise(lines[i])
  {
    MapLinesAt(Normalise, lines);
  }

  /** `clean_and_enumerate` works line by line: normalising a document in
      two parts gives the two normalised parts. */
  lemma NormalisedAppend(a: seq<string>, b: seq<string>)
    ensures Normalised(a + b) == Normalised(a) + Normalised(b)
  {
    MapLinesAppend(Normalise, a, b);
  }

  lemma TailOfAppend(a: seq<string>, b: seq<string>)
    requires a != []
    ensures (a + b)[0] == a[0] && (a + b)[1..] == a[1..] + b
  {
  }

  /** The line has a trailing mark that some strip would remove. */
  ghost predicate HasTrailingMark(s: string) {
    exists m: TrailingMark, k :: 0 <= k <= EndAnchor(s) && Matches(m, s[k..EndAnchor(s)])
  }

  // ---------------------------------------------------------------------
  // Shape of the marks

  /** No mark matches the empty string: a strip that matches removes
      at least one character. */
  lemma NoEmptyMark(m: TrailingMark)
    ensures !Matches(m, "")
  {
    if m == Codes {
      assert FirstComma("") == 0;
    }
  }

  lemma SpaceExtendsItem(c: char, f: string)
    requires IsSpace(c) && IsCodeItem(f)
    ensures IsCodeItem([c] + f)
  {
    var u, n := [c] + f, |f|;
    if n >= 2 {
      assert u[..n + 1 - 2] == [c] + f[..n - 2];
    }
    if n >= 5 {
      assert u[..n + 1 - 5] == [c] + f[..n - 5];
    }
  }

  lemma SpaceExtendsCodeList(c: char, t: string)
    requires IsSpace(c) && IsCodeList(t)
    ensures IsCodeList([c] + t)
  {
    var u, k := [c] + t, FirstComma(t);
    assert u[1..] == t;
    assert FirstComma(u) == k + 1;
    assert u[..k + 1] == [c] + t[..k];
    if k == |t| {
      assert t[..k] == t;
    }
    SpaceExtendsItem(c, t[..k]);
    if k < |t| {
      assert u[k + 1 + 1..] == t[k + 1..];
    }
  }

  /** Whitespace in front of a match still matches (every mark begins with `\s*`). */
  lemma SpaceExtendsMark(m: TrailingMark, c: char, t: string)
    requires IsSpace(c) && Matches(m, t)
    ensures Matches(m, [c] + t)
  {
    var u := [c] + t;
    match m {
      case Codes =>
        SpaceExtendsCodeList(c, t);
      case FullOrPart =>
        assert u[..|u| - 4] == [c] + t[..|t| - 4];
        assert u[|u| - 4..] == t[|t| - 4..];
      case ReleaseIn =>
        assert u[..|u| - 10] == [c] + t[..|t| - 10];
        assert u[|u| - 10..] == t[|t| - 10..];
    }
  }

  /** The characters a code list may contain. */
  predicate IsCodeChar(c: char) {
    IsSpace(c) || c == 'B' || IsDigit(c) || c == '(' || c == ')' || 'A' <= c <= 'F' || c == ','
  }

  lemma CodeItemChars(t: string)
    requires IsCodeItem(t)
    ensures forall i :: 0 <= i < |t| ==> IsCodeChar(t[i])
  {
    var n := |t|;
    if n >= 2 && AllSpaces(t[..n - 2]) && t[n - 2] == 'B' && IsDigit(t[n - 1]) {
      forall i | 0 <= i < n ensures IsCodeChar(t[i]) {
        if i < n - 2 { assert t[..n - 2][i] == t[i]; }
      }
    } else {
      forall i | 0 <= i < n ensures IsCodeChar(t[i]) {
        if i < n - 5 { assert t[..n - 5][i] == t[i]; }
      }
    }
  }

  lemma {:induction false} CodeListChars(t: string)
    requires IsCodeList(t)
    ensures forall i :: 0 <= i < |t| ==> IsCodeChar(t[i])
    decreases |t|
  {
    var k := FirstComma(t);
    if k == |t| {
      CodeItemChars(t);
    } else {
      CodeItemChars(t[..k]);
      CodeListChars(t[k + 1..]);
      forall i | 0 <= i < |t| ensures IsCodeChar(t[i]) {
        if i < k {
          assert t[..k][i] == t[i];
        } else if i > k {
          assert t[k + 1..][i - k - 1] == t[i];
        }
      }
    }
  }

  /** A code list ends in `B<digit>` or in `)`. */
  lemma {:induction false} CodeListEnd(t: string)
    requires IsCodeList(t)
    ensures |t| >= 2 && ((t[|t| - 2] == 'B' && IsDigit(t[|t| - 1])) || t[|t| - 1] == ')')
    decreases |t|
  {
    var k := FirstComma(t);
    if k < |t| {
      var rest := t[k + 1..];
      CodeListEnd(rest);
      assert rest[|rest| - 1] == t[|t| - 1];
      assert rest[|rest| - 2] == t[|t| - 2];
    }
  }

  /** How many trailing characters of a match are the mark's own text; every
      character before them is whitespace (FULL/PART, RELEASE IN) or a code
      list character (B-codes). */
  function Tail(m: TrailingMark): nat {
    match m
    case Codes => 0
    case FullOrPart => 4
    case ReleaseIn => 10
  }

  predicate MayLead(m: TrailingMark, c: char) {
    if m == Codes then IsCodeChar(c) else IsSpace(c)
  }

  /** A character that cannot lead a mark blocks every match that spans it. */
  lemma Blocked(m: TrailingMark, s: string, j: nat, e: nat, p: nat)
    requires j <= p && p + Tail(m) < e <= |s|
    requires !MayLead(m, s[p])
    ensures !Matches(m, s[j..e])
  {
    var t := s[j..e];
    assert t[p - j] == s[p];
    if m == Codes && Matches(m, t) {
      CodeListChars(t);
    }
  }

  /** The cut is where the match starts when nothing longer matches. */
  lemma CutIs(s: string, m: TrailingMark, k: nat)
    requires k < EndAnchor(s) && Matches(m, s[k..EndAnchor(s)])
    requires forall i :: 0 <= i < k ==> !Matches(m, s[i..EndAnchor(s)])
    ensures Cut(s, m) == k
  {
    CutIsLeftmost(s, m);
  }

  /** A line whose text before the anchor does not end like any mark is left
      alone by a strip. */
  lemma NoCut(s: string, m: TrailingMark)
    requires forall k :: 0 <= k < EndAnchor(s) ==> !Matches(m, s[k..EndAnchor(s)])
    ensures Strip(s, m) == s
  {
    CutIsLeftmost(s, m);
    assert s[..EndAnchor(s)] + s[EndAnchor(s)..] == s;
  }

  // ---------------------------------------------------------------------
  // Properties of the normaliser

  /** A newline is whitespace, so a match never starts just after one:
      the leftmost start would have taken it. */
  lemma CutNotAfterNewline(s: string, m: TrailingMark)
    ensures 0 < Cut(s, m) < EndAnchor(s) ==> s[Cut(s, m) - 1] != '\n'
  {
    var e, k := EndAnchor(s), Cut(s, m);
    if 0 < k < e && s[k - 1] == '\n' {
      CutIsLeftmost(s, m);
      assert s[k - 1..e] == [s[k - 1]] + s[k..e];
      SpaceExtendsMark(m, s[k - 1], s[k..e]);
    }
  }

  /** A strip keeps the line up to its cut, and the cut becomes the new
      anchor: the leftmost start never follows a newline. */
  lemma StripAnchor(s: string, m: TrailingMark)
    ensures EndAnchor(Strip(s, m)) == Cut(s, m)
    ensures Strip(s, m) == s[..Cut(s, m)] + s[EndAnchor(s)..]
  {
    var e, k := EndAnchor(s), Cut(s, m);
    var r := Strip(s, m);
    assert r == s[..k] + s[e..];
    CutNotAfterNewline(s, m);
    if e == |s| {
      assert r == s[..k];
      if 0 < k {
        assert r[k - 1] == s[k - 1];
      }
    } else {
      assert r[|r| - 1] == '\n' && |r| == k + 1;
    }
  }

  /** Normalisation only ever removes one stretch just before the `$` anchor:
      what is left is a prefix of the line, followed by the line's final
      newline if it had one. */
  lemma NormaliseRemovesOneStretch(s: string)
    ensures exists k :: 0 <= k <= EndAnchor(s) && Normalise(s) == s[..k] + s[EndAnchor(s)..]
  {
    var e := EndAnchor(s);
    var s1 := Strip(s, Codes);
    var s2 := Strip(s1, FullOrPart);
    StripAnchor(s, Codes);
    StripAnchor(s1, FullOrPart);
    StripAnchor(s2, ReleaseIn);
    var k1, k2, k3 := Cut(s, Codes), Cut(s1, FullOrPart), Cut(s2, ReleaseIn);
    assert s1[..k2] == s[..k2];
    assert s2[..k3] == s[..k3];
    assert s1[EndAnchor(s1)..] == s[e..];
    assert s2[EndAnchor(s2)..] == s[e..];
    assert Normalise(s) == s[..k3] + s[e..];
  }

  /** Without a final newline, the normalised line is a prefix of the raw one. */
  lemma NormaliseIsPrefix(s: string)
    requires s == [] || s[|s| - 1] != '\n'
    ensures Normalise(s) <= s
  {
    NormaliseRemovesOneStretch(s);
    var k :| 0 <= k <= EndAnchor(s) && Normalise(s) == s[..k] + s[EndAnchor(s)..];
    assert Normalise(s) == s[..k];
  }

  /** A line is returned unchanged exactly when it has no trailing mark. */
  lemma UnchangedIffUnmarked(s: string)
    ensures Normalise(s) == s <==> !HasTrailingMark(s)
  {
    var e := EndAnchor(s);
    var s1 := Strip(s, Codes);
    var s2 := Strip(s1, FullOrPart);
    StripAnchor(s, Codes);
    StripAnchor(s1, FullOrPart);
    StripAnchor(s2, ReleaseIn);
    NoEmptyMark(Codes);
    NoEmptyMark(FullOrPart);
    NoEmptyMark(ReleaseIn);
    if Normalise(s) == s {
      assert |Normalise(s)| == Cut(s2, ReleaseIn) + |s| - e;
      assert Cut(s, Codes) == e;
      assert s1 == s;
      assert Cut(s1, FullOrPart) == e;
      assert s2 == s;
      assert Cut(s2, ReleaseIn) == e;
      CutIsLeftmost(s, Codes);
      CutIsLeftmost(s, FullOrPart);
      CutIsLeftmost(s, ReleaseIn);
      forall m: TrailingMark, k | 0 <= k <= e ensures !Matches(m, s[k..e]) {
        if k == e { assert s[k..e] == ""; }
      }
    } else if !HasTrailingMark(s) {
      NoCut(s, Codes);
      NoCut(s1, FullOrPart);
      NoCut(s2, ReleaseIn);
    }
  }

  /** The end of `s` looks like mark `m`'s text (a necessary condition for a match). */
  predicate EndsLike(m: TrailingMark, s: string) {
    match m
    case Codes => |s| >= 2 && (s[|s| - 2] == 'B' || s[|s| - 1] == ')')
    case FullOrPart => |s| >= 4 && (s[|s| - 4..] == "FULL" || s[|s| - 4..] == "PART")
    case ReleaseIn => |s| >= 10 && s[|s| - 10..] == "RELEASE IN"
  }

  /** A line without a final newline whose end does not look like mark `m`
      is left alone by that strip. */
  lemma StripUnmarked(s: string, m: TrailingMark)
    requires s == [] || s[|s| - 1] != '\n'
    requires !EndsLike(m, s)
    ensures Strip(s, m) == s
  {
    var e := EndAnchor(s);
    assert e == |s|;
    forall k | 0 <= k < e ensures !Matches(m, s[k..e]) {
      var t := s[k..e];
      if m == Codes && Matches(m, t) {
        CodeListEnd(t);
      }
      if |t| >= 4 {
        assert t[|t| - 4..] == s[|s| - 4..];
      }
      if |t| >= 10 {
        assert t[|t| - 10..] == s[|s| - 10..];
      }
    }
    NoCut(s, m);
  }

  /** A strip cuts at `k` when the rest of the line matches and the character
      before it can neither lead the mark nor be part of its text. */
  lemma StripAt(s: string, m: TrailingMark, k: nat)
    requires s == [] || s[|s| - 1] != '\n'
    requires k < |s| && Matches(m, s[k..])
    requires k == 0 || (!MayLead(m, s[k - 1]) && k - 1 + Tail(m) < |s|)
    ensures Strip(s, m) == s[..k]
  {
    var e := EndAnchor(s);
    assert e == |s| && s[k..] == s[k..e];
    forall i | 0 <= i < k ensures !Matches(m, s[i..e]) {
      Blocked(m, s, i, e, k - 1);
    }
    CutIs(s, m, k);
    StripWithoutNewline(s, m);
  }

  lemma StripWithoutNewline(s: string, m: TrailingMark)
    requires EndAnchor(s) == |s|
    ensures Strip(s, m) == s[..Cut(s, m)]
  {
    assert s[|s|..] == [];
  }

  /** A character no match can begin with: not whitespace, not a code-list
      character, and not the first letter of FULL, PART or RELEASE IN. */
  predicate NeverLeads(c: char) {
    !IsCodeChar(c) && c != 'F' && c != 'P' && c != 'R'
  }

  /** Every match begins with whitespace, a code-list character or the
      first letter of its mark's text. */
  lemma MatchLead(m: TrailingMark, t: string)
    requires Matches(m, t)
    ensures t != [] && !NeverLeads(t[0])
  {
    NoEmptyMark(m);
    match m {
      case Codes =>
        CodeListChars(t);
      case FullOrPart =>
        if |t| > 4 {
          assert t[..|t| - 4][0] == t[0];
        } else {
          assert t[|t| - 4..][0] == t[0];
        }
      case ReleaseIn =>
        if |t| > 10 {
          assert t[..|t| - 10][0] == t[0];
        } else {
          assert t[|t| - 10..][0] == t[0];
        }
    }
  }

  /** A strip never empties a line that begins with a character no match
      can begin with: it keeps a prefix that still has no final newline. */
  lemma StripKeepsLead(s: string, m: TrailingMark)
    requires s != [] && NeverLeads(s[0]) && s[|s| - 1] != '\n'
    ensures Strip(s, m) != [] && Strip(s, m) <= s && Strip(s, m)[0] == s[0]
    ensures Strip(s, m)[|Strip(s, m)| - 1] != '\n'
  {
    assert EndAnchor(s) == |s|;
    CutIsLeftmost(s, m);
    if Cut(s, m) == 0 {
      assert s[0..|s|][0] == s[0];
      MatchLead(m, s[0..|s|]);
    }
    StripWithoutNewline(s, m);
    CutNotAfterNewline(s, m);
  }

  /** The same for the three strips of a line: what is left is a non-empty
      prefix of the line. */
  lemma NormaliseKeepsLead(s: string)
    requires s != [] && NeverLeads(s[0]) && s[|s| - 1] != '\n'
    ensures Normalise(s) != [] && Normalise(s) <= s
  {
    var s1 := Strip(s, Codes);
    StripKeepsLead(s, Codes);
    var s2 := Strip(s1, FullOrPart);
    StripKeepsLead(s1, FullOrPart);
    StripKeepsLead(s2, ReleaseIn);
    assert Normalise(s) == s[..|Normalise(s)|];
  }

  /** A line without a final newline that ends like none of the marks is
      returned unchanged. */
  lemma UnmarkedLineUnchanged(s: string)
    requires s == [] || s[|s| - 1] != '\n'
    requires !EndsLike(Codes, s) && !EndsLike(FullOrPart, s) && !EndsLike(ReleaseIn, s)
    ensures Normalise(s) == s
  {
    StripUnmarked(s, Codes);
    StripUnmarked(s, FullOrPart);
    StripUnmarked(s, ReleaseIn);
  }

  // ---------------------------------------------------------------------
  // Worked examples

  /** A comma-separated list grows by one item at the front. */
  lemma CodeListCons(item: string, rest: string)
    requires IsCodeItem(item) && ',' !in item && IsCodeList(rest)
    ensures IsCodeList(item + "," + rest)
  {
    var t := item + "," + rest;
    assert forall i :: 0 <= i < |item| ==> t[i] == item[i] && item[i] in item;
    assert FirstComma(t) == |item| by {
      FirstCommaAt(t, |item|);
    }
    assert t[..|item|] == item;
    assert t[|item| + 1..] == rest;
  }

  lemma {:induction false} FirstCommaAt(t: string, k: nat)
    requires k < |t| && t[k] == ','
    requires forall i :: 0 <= i < k ==> t[i] != ','
    ensures FirstComma(t) == k
    decreases k
  {
    if k > 0 {
      assert t[0] != ',';
      FirstCommaAt(t[1..], k - 1);
    }
  }

  lemma CodeListB6()
    ensures IsCodeList("B6")
  {
    assert FirstComma("B6") == 2;
  }

  lemma CodeListB5B6(t: string)
    requires t == " B5,B6" || t == "B5,B6"
    ensures IsCodeList(t)
  {
    var item := t[..|t| - 3];
    assert t == item + "," + "B6";
    assert IsCodeList(item + "," + "B6") by {
      CodeListB6();
      assert IsCodeItem(item) && ',' !in item;
      CodeListCons(item, "B6");
    }
  }

  lemma CodeListB4B5B6(t: string)
    requires t == " B4,B5,B6"
    ensures IsCodeList(t)
  {
    assert t == " B4" + "," + "B5,B6";
    assert IsCodeList(" B4" + "," + "B5,B6") by {
      assert IsCodeList("B5,B6") by {
        CodeListB5B6("B5,B6");
      }
      assert IsCodeItem(" B4") by {
        assert " B4"[..1] == " ";
      }
      CodeListCons(" B4", "B5,B6");
    }
  }

  /** The staggered strips cut a compound marking down to nothing: B-codes
      first, then PART, then RELEASE IN. */
  lemma CompoundMarkCutDown(a: string)
    requires a == "RELEASE IN PART B4,B5,B6"
    ensures Normalise(a) == ""
  {
    StripCodesOfCompound(a);
    StripPartOfRelease("RELEASE IN PART");
    StripWholeRelease("RELEASE IN");
  }

  lemma StripCodesOfCompound(a: string)
    requires a == "RELEASE IN PART B4,B5,B6"
    ensures Strip(a, Codes) == "RELEASE IN PART"
  {
    var w, c := a[..15], a[15..];
    assert w == "RELEASE IN PART" && w + c == a;
    assert IsCodeList(c) by {
      CodeListB4B5B6(c);
    }
    StripCodesAfterWord(w, c);
  }

  /** A code list after a word whose last character cannot occur in a code
      list (whitespace, `B`, a digit, `A`-`F`, a parenthesis or a comma) is
      cut off whole. */
  lemma StripCodesAfterWord(w: string, c: string)
    requires w != [] && !IsCodeChar(w[|w| - 1])
    requires c != [] && c[|c| - 1] != '\n' && IsCodeList(c)
    ensures Strip(w + c, Codes) == w
  {
    var s := w + c;
    assert Matches(Codes, s[|w|..]) by {
      assert s[|w|..] == c;
    }
    assert !MayLead(Codes, s[|w| - 1]) && s[|s| - 1] != '\n' by {
      assert s[|w| - 1] == w[|w| - 1] && s[|s| - 1] == c[|c| - 1];
    }
    StripAt(s, Codes, |w|);
    assert s[..|w|] == w;
  }

  lemma StripPartOfRelease(a: string)
    requires a == "RELEASE IN PART"
    ensures Strip(a, FullOrPart) == "RELEASE IN"
  {
    assert a[10..] == " PART";
    StripAt(a, FullOrPart, 10);
  }

  lemma StripWholeRelease(a: string)
    requires a == "RELEASE IN"
    ensures Strip(a, ReleaseIn) == ""
  {
    StripAt(a, ReleaseIn, 0);
  }

  /** The same compound marking after body text leaves the body text. */
  lemma TrailingCompoundMarkCutDown(b: string)
    requires b == "Some text RELEASE IN PART B5,B6"
    ensures Normalise(b) == "Some text"
  {
    var w, c := b[..25], b[25..];
    assert w == "Some text RELEASE IN PART" && w + c == b;
    assert IsCodeList(c) by {
      CodeListB5B6(c);
    }
    StripCodesAfterWord(w, c);
    StripPartAfterText(b[..25]);
    StripReleaseAfterText(b[..25][..20]);
  }

  lemma StripPartAfterText(b: string)
    requires b == "Some text RELEASE IN PART"
    ensures Strip(b, FullOrPart) == b[..20]
  {
    assert b[20..] == " PART";
    StripAt(b, FullOrPart, 20);
  }

  lemma StripReleaseAfterText(b: string)
    requires b == "Some text RELEASE IN"
    ensures Strip(b, ReleaseIn) == "Some text"
  {
    assert b[9..] == " RELEASE IN";
    StripAt(b, ReleaseIn, 9);
  }

  /** No word boundary: PART glued to the end of a word is still cut off. */
  lemma PartGluedToWord(a: string)
    requires a == "COUNTERPART"
    ensures Normalise(a) == "COUNTER"
  {
    StripUnmarked(a, Codes);
    assert a[7..] == "PART";
    StripAt(a, FullOrPart, 7);
    assert a[..7] == "COUNTER";
    StripUnmarked("COUNTER", ReleaseIn);
  }

  /** No word boundary: a B-code glued to the end of a word is still cut off. */
  lemma CodeGluedToWord(b: string)
    requires b == "JOB6"
    ensures Normalise(b) == "JO"
  {
    assert b[2..] == "B6" && IsCodeList("B6") by {
      assert FirstComma("B6") == 2;
    }
    StripAt(b, Codes, 2);
    assert b[..2] == "JO";
    StripUnmarked("JO", FullOrPart);
    StripUnmarked("JO", ReleaseIn);
  }

  /** One pass can leave a strippable mark behind: normalising twice is not
      the same as normalising once. */
  lemma FullPartNotIdempotent(a: string)
    requires a == "X FULL PART"
    ensures Normalise(a) == "X FULL"
    ensures Normalise(Normalise(a)) == "X"
  {
    StripUnmarked(a, Codes);
    assert a[6..] == " PART";
    StripAt(a, FullOrPart, 6);
    var a1 := a[..6];
    assert a1 == "X FULL";
    StripUnmarked(a1, ReleaseIn);
    StripUnmarked(a1, Codes);
    assert a1[1..] == " FULL";
    StripAt(a1, FullOrPart, 1);
    var a2 := a1[..1];
    assert a2 == "X";
    StripUnmarked(a2, ReleaseIn);
  }

  /** The B-code strip runs before the PART strip, so a code that only
      becomes trailing once PART is gone survives one pass. */
  lemma CodeBeforePartNotIdempotent(b: string)
    requires b == "B6 PART"
    ensures Normalise(b) == "B6"
    ensures Normalise(Normalise(b)) == ""
  {
    StripUnmarked(b, Codes);
    assert b[2..] == " PART";
    StripAt(b, FullOrPart, 2);
    assert b[..2] == "B6";
    StripUnmarked("B6", ReleaseIn);
    assert IsCodeList("B6") by {
      assert FirstComma("B6") == 2;
    }
    StripAt("B6", Codes, 0);
    assert "B6"[..0] == "";
    StripUnmarked("", FullOrPart);
    StripUnmarked("", ReleaseIn);
  }
}
