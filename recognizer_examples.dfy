/**
  Worked documents for `remove_headers`, with the skip list empty as it is
  shipped (line 19).
 */
module RecognizerExamples {
  import opened Patterns
  import opened Normaliser
  import opened Recognizer
  import opened RecognizerFacts

  /** A line that no strip touches: no final newline and an end that does
      not look like any trailing mark. */
  predicate PlainLine(s: string) {
    && (s == [] || s[|s| - 1] != '\n')
    && !EndsLike(Codes, s) && !EndsLike(FullOrPart, s) && !EndsLike(ReleaseIn, s)
  }

  /** A line is plain when its last character cannot end a mark (none of
      `)`, `L`, `T`, `N` or a newline) and no `B` comes just before it. */
  lemma PlainByEnding(s: string)
    requires s == [] || s[|s| - 1] !in "\n)LTN"
    requires |s| < 2 || s[|s| - 2] != 'B'
    ensures PlainLine(s)
  {
    if |s| >= 4 {
      assert s[|s| - 4..][3] == s[|s| - 1];
    }
    if |s| >= 10 {
      assert s[|s| - 10..][9] == s[|s| - 1];
    }
  }

  lemma {:induction false} PlainLinesUnchanged(lines: seq<string>)
    requires forall k :: 0 <= k < |lines| ==> PlainLine(lines[k])
    ensures Normalised(lines) == lines
    decreases |lines|
  {
    if lines != [] {
      UnmarkedLineUnchanged(lines[0]);
      PlainLinesUnchanged(lines[1..]);
      assert lines == [lines[0]] + lines[1..];
    }
  }

  /** A line that does not start with `U` is neither header kind. */
  lemma NotHeaderLine(line: string)
    requires line != [] && line[0] != 'U'
    ensures !IsModernHeader(line) && !OpensLegacyBlock(line)
  {
    var t, u := ModernHeader()[0].text, BenghaziFooter()[0].text;
    assert t == "UNCLASSIFIED U.S. Department of State Case No. F-" && t[0] == 'U';
    assert u == "UNCLASSIFIED" && u[0] == 'U';
    assert !FitsText(t, line) && !FitsText(u, line);
  }

  /** A line that starts with regex text `t` fits it. */
  lemma StartsWithText(t: string, line: string, r: string)
    requires line == t + r
    ensures FitsText(t, line)
  {
    TextMatchesItself(t, [], r);
    TextMatches(t, line);
  }

  /** Lines 47-51: a first line without `UNCLASSIFIED` gives `[]`. */
  lemma ClassifiedDocumentRejected(lines: seq<string>, skip: seq<string>)
    requires lines == ["CLASSIFIED", "Hello world"]
    ensures Recognise(lines, skip) == Quarantined(0)
    ensures Recognise(lines, skip).Returned() == []
  {
    assert lines[0][0] != "UNCLASSIFIED"[0];
    EntryCheck(lines, skip);
  }

  // A legacy header opened by a bare `UNCLASSIFIED`, with a blank line from
  // OCR inside it, then one line of content.

  /** One marker found on the next line that is neither blank nor skipped. */
  lemma MarkerFound(norm: seq<string>, skip: seq<string>, i: nat, markers: seq<string>, j: nat)
    requires i <= j < |norm| && markers != []
    requires NextInBlock(norm, skip, i) == j && FitsText(markers[0], norm[j])
    ensures ConsumeBlock(norm, skip, i, markers) == ConsumeBlock(norm, skip, j + 1, markers[1..])
  {
  }

  lemma LegacyBlockOpening(norm: seq<string>)
    requires norm == ["UNCLASSIFIED", "", "U.S. Department of State", "Case No. F-2014-99999",
                      "Doc No. C99999", "Date: 03/04/2016", "Real content line"]
    ensures ConsumeBlock(norm, [], 1, Markers()) == ConsumeBlock(norm, [], 3, Markers()[1..])
  {
    var ms := Markers();
    assert NextInBlock(norm, [], 1) == 2;
    StartsWithText(ms[0], norm[2], "");
    MarkerFound(norm, [], 1, ms, 2);
  }

  lemma LegacyBlockCaseNumber(norm: seq<string>)
    requires norm == ["UNCLASSIFIED", "", "U.S. Department of State", "Case No. F-2014-99999",
                      "Doc No. C99999", "Date: 03/04/2016", "Real content line"]
    ensures ConsumeBlock(norm, [], 3, Markers()[1..]) == ConsumeBlock(norm, [], 4, Markers()[2..])
  {
    var ms := Markers()[1..];
    StartsWithText(ms[0], norm[3], " F-2014-99999");
    MarkerFound(norm, [], 3, ms, 3);
    assert ms[1..] == Markers()[2..];
  }

  lemma LegacyBlockClosing(norm: seq<string>)
    requires norm == ["UNCLASSIFIED", "", "U.S. Department of State", "Case No. F-2014-99999",
                      "Doc No. C99999", "Date: 03/04/2016", "Real content line"]
    ensures ConsumeBlock(norm, [], 4, Markers()[2..]) == Matched(6)
  {
    var ms := Markers()[2..];
    StartsWithText(ms[0], norm[4], " C99999");
    MarkerFound(norm, [], 4, ms, 4);
    LegacyBlockDate(norm);
    assert ms[1..] == Markers()[3..];
  }

  lemma LegacyBlockDate(norm: seq<string>)
    requires norm == ["UNCLASSIFIED", "", "U.S. Department of State", "Case No. F-2014-99999",
                      "Doc No. C99999", "Date: 03/04/2016", "Real content line"]
    ensures ConsumeBlock(norm, [], 5, Markers()[3..]) == Matched(6)
  {
    var ms := Markers()[3..];
    StartsWithText(ms[0], norm[5], ": 03/04/2016");
    MarkerFound(norm, [], 5, ms, 5);
  }

  /** Lines 70-79: a bare `UNCLASSIFIED` first line is no modern header, so
      it opens a legacy block whose markers are looked for from line 1. */
  lemma BareOpenerPass(norm: seq<string>, skip: seq<string>)
    requires |norm| > 0 && norm[0] == "UNCLASSIFIED" && "UNCLASSIFIED" !in skip
    ensures Pass(norm, skip, 0) == AfterBlock(ConsumeBlock(norm, skip, 1, Markers()))
  {
    assert SkipListed(norm, skip, 0) == 0;
    assert !IsModernHeader(norm[0]) by {
      assert |ModernHeader()[0].text| > |norm[0]|;
    }
  }

  lemma LegacyHeaderDropped(norm: seq<string>)
    requires norm == ["UNCLASSIFIED", "", "U.S. Department of State", "Case No. F-2014-99999",
                      "Doc No. C99999", "Date: 03/04/2016", "Real content line"]
    ensures Pass(norm, [], 0) == Drop(6)
  {
    LegacyBlockOpening(norm);
    LegacyBlockCaseNumber(norm);
    LegacyBlockClosing(norm);
    BareOpenerPass(norm, []);
  }

  lemma ContentKept(norm: seq<string>)
    requires norm == ["UNCLASSIFIED", "", "U.S. Department of State", "Case No. F-2014-99999",
                      "Doc No. C99999", "Date: 03/04/2016", "Real content line"]
    ensures Pass(norm, [], 6) == Keep("Real content line", 7)
  {
    NotHeaderLine(norm[6]);
  }

  lemma LegacyDocumentScan(norm: seq<string>)
    requires norm == ["UNCLASSIFIED", "", "U.S. Department of State", "Case No. F-2014-99999",
                      "Doc No. C99999", "Date: 03/04/2016", "Real content line"]
    ensures Scan(norm, [], 0) == Cleaned(["Real content line"])
  {
    LegacyHeaderDropped(norm);
    ContentKept(norm);
    assert Scan(norm, [], 6) == Prepend(["Real content line"], Scan(norm, [], 7));
  }

  /** A document that normalisation leaves alone and whose first line
      passes the entry check is scanned as it stands. */
  lemma ScannedAsItStands(lines: seq<string>, skip: seq<string>)
    requires |lines| > 0 && Normalised(lines) == lines && "UNCLASSIFIED" <= lines[0]
    ensures Recognise(lines, skip) == Scan(lines, skip, 0)
  {
    TextMatches("UNCLASSIFIED", lines[0]);
  }

  /** A first line that starts with `UNCLASSIFIED` lets the scan run over
      the normalised lines. */
  lemma PassesEntryCheck(lines: seq<string>, skip: seq<string>)
    requires |lines| > 0 && "UNCLASSIFIED" <= lines[0]
    ensures Recognise(lines, skip) == Scan(Normalised(lines), skip, 0)
  {
    TextMatches("UNCLASSIFIED", lines[0]);
  }

  lemma LegacyDocumentPlain(lines: seq<string>)
    requires lines == ["UNCLASSIFIED", "", "U.S. Department of State", "Case No. F-2014-99999",
                       "Doc No. C99999", "Date: 03/04/2016", "Real content line"]
    ensures Normalised(lines) == lines
  {
    forall k | 0 <= k < |lines| ensures PlainLine(lines[k]) {
      PlainByEnding(lines[k]);
    }
    PlainLinesUnchanged(lines);
  }

  /** Lines 79-92: the whole header block is dropped, `Date` line included. */
  lemma LegacyDocumentCleaned(lines: seq<string>)
    requires lines == ["UNCLASSIFIED", "", "U.S. Department of State", "Case No. F-2014-99999",
                       "Doc No. C99999", "Date: 03/04/2016", "Real content line"]
    ensures Recognise(lines, []) == Cleaned(["Real content line"])
  {
    LegacyDocumentPlain(lines);
    ScannedAsItStands(lines, []);
    LegacyDocumentScan(lines);
  }

  // A bare `UNCLASSIFIED` line always opens a legacy block, so the line after
  // it must carry the first marker.

  /** A bare `UNCLASSIFIED` followed by a line that does not start with
      `U.S. Department of State` quarantines the document at that line. */
  lemma BareOpenerMismatch(norm: seq<string>)
    requires |norm| >= 2 && norm[0] == "UNCLASSIFIED" && norm[1] != ""
    requires !FitsText(Markers()[0], norm[1])
    ensures Scan(norm, [], 0) == Quarantined(1)
  {
    assert norm[0] !in [] && norm[1] !in [""] + [];
    BareOpenerOpens(norm[0]);
    OpenerThenMismatch(norm, []);
  }

  /** A bare `UNCLASSIFIED` is too short for a modern header and opens a
      legacy block. */
  lemma BareOpenerOpens(line: string)
    requires line == "UNCLASSIFIED"
    ensures !IsModernHeader(line) && OpensLegacyBlock(line)
  {
    assert |ModernHeader()[0].text| > |line|;
  }

  /** An opener on line 0 followed by a line that is neither blank nor
      skipped and lacks the first marker quarantines at line 1. */
  lemma OpenerThenMismatch(norm: seq<string>, skip: seq<string>)
    requires |norm| >= 2 && norm[0] !in skip && norm[1] !in [""] + skip
    requires !IsModernHeader(norm[0]) && OpensLegacyBlock(norm[0])
    requires !FitsText(Markers()[0], norm[1])
    ensures Scan(norm, skip, 0) == Quarantined(1)
  {
    assert SkipListed(norm, skip, 0) == 0;
    FirstMarkerMissing(norm, skip);
    BlockMismatchStops(norm, skip, 0, 1, Markers(), 1);
    ScanStops(norm, skip, 0);
  }

  /** Lines 82-88: the line after the opener is where the first marker is
      looked for. */
  lemma FirstMarkerMissing(norm: seq<string>, skip: seq<string>)
    requires |norm| >= 2 && norm[1] !in [""] + skip
    requires !FitsText(Markers()[0], norm[1])
    ensures ConsumeBlock(norm, skip, 1, Markers()) == Mismatch(1)
  {
    assert NextInBlock(norm, skip, 1) == 1;
  }

  /** A document whose lines are all plain and whose first line passes the
      entry check is scanned as it stands. */
  lemma PlainDocument(lines: seq<string>, skip: seq<string>)
    requires |lines| > 0 && "UNCLASSIFIED" <= lines[0]
    requires forall k :: 0 <= k < |lines| ==> PlainLine(lines[k])
    ensures Recognise(lines, skip) == Scan(lines, skip, 0)
  {
    PlainLinesUnchanged(lines);
    ScannedAsItStands(lines, skip);
  }

  /** A bare `UNCLASSIFIED` followed by a line that normalises to a
      non-empty line lacking the first marker quarantines the document at
      line 1, whatever follows. */
  lemma UnclassifiedThenLeadingLine(b: string, rest: seq<string>)
    requires Normalise(b) != "" && !FitsText(Markers()[0], Normalise(b))
    ensures Recognise(["UNCLASSIFIED", b] + rest, []) == Quarantined(1)
  {
    var lines := ["UNCLASSIFIED", b] + rest;
    LeadingLineNormalised(b, rest);
    assert lines[0] == "UNCLASSIFIED";
    PassesEntryCheck(lines, []);
    BareOpenerMismatch(Normalised(lines));
  }

  /** Normalisation leaves the bare `UNCLASSIFIED` alone and normalises the
      line after it on its own. */
  lemma LeadingLineNormalised(b: string, rest: seq<string>)
    requires Normalise(b) != "" && !FitsText(Markers()[0], Normalise(b))
    ensures |Normalised(["UNCLASSIFIED", b] + rest)| >= 2
    ensures Normalised(["UNCLASSIFIED", b] + rest)[0] == "UNCLASSIFIED"
    ensures Normalised(["UNCLASSIFIED", b] + rest)[1] != ""
    ensures !FitsText(Markers()[0], Normalised(["UNCLASSIFIED", b] + rest)[1])
  {
    var lines := ["UNCLASSIFIED", b] + rest;
    assert lines[0] == "UNCLASSIFIED" && lines[1] == b;
    NormalisedLineByLine(lines);
    assert Normalise("UNCLASSIFIED") == "UNCLASSIFIED" by {
      BareUnclassifiedPlain();
      UnmarkedLineUnchanged("UNCLASSIFIED");
    }
  }

  /** A line without a final newline whose first character begins no
      trailing mark keeps that character through normalisation, so it stays
      non-empty, and it gains no marker it lacked. */
  lemma LeadKeptNoMarker(b: string)
    requires b != [] && NeverLeads(b[0]) && b[|b| - 1] != '\n'
    requires !FitsText(Markers()[0], b)
    ensures Normalise(b) != "" && !FitsText(Markers()[0], Normalise(b))
  {
    NormaliseKeepsLead(b);
    FitsTextPrefix(Markers()[0], Normalise(b), b);
  }

  /** Text that a prefix of a line starts with, the line starts with too. */
  lemma FitsTextPrefix(t: string, x: string, y: string)
    requires x <= y
    ensures FitsText(t, x) ==> FitsText(t, y)
  {
    if FitsText(t, x) {
      forall i | 0 <= i < |t| ensures FitsChar(t[i], y[i]) {
        assert x[i] == y[i];
      }
    }
  }

  /** A modern header line starts with `UNCLASSIFIED` and has `C` as its
      third character. */
  lemma ModernHeaderStart(h: string)
    requires IsModernHeader(h)
    ensures "UNCLASSIFIED" <= h && h[2] == 'C'
  {
    var t := ModernHeader()[0].text;
    assert t == "UNCLASSIFIED U.S. Department of State Case No. F-";
    assert FitsText(t, h);
    forall i | 0 <= i < 12 ensures h[i] == "UNCLASSIFIED"[i] {
      assert FitsChar(t[i], h[i]);
    }
  }

  /** Every modern header line is plain: it ends in two digits. */
  lemma ModernHeaderLineShape(year: string, caseNo: string, docNo: string,
                              month: string, day: string, yr: string)
    requires |year| == 4 && |month| == 2 && |day| == 2 && |yr| == 4
    requires AllDigits(year) && AllDigits(caseNo) && AllDigits(docNo)
    requires AllDigits(month) && AllDigits(day) && AllDigits(yr)
    ensures IsModernHeader(ModernHeaderLine(year, caseNo, docNo, month, day, yr))
    ensures PlainLine(ModernHeaderLine(year, caseNo, docNo, month, day, yr))
  {
    var h := ModernHeaderLine(year, caseNo, docNo, month, day, yr);
    ModernHeaderAccepts(year, caseNo, docNo, month, day, yr, "");
    assert h + "" == h;
    assert h[|h| - 1] == yr[3] && h[|h| - 2] == yr[2];
    PlainByEnding(h);
  }

  lemma ModernHeaderThenBodyScan(norm: seq<string>)
    requires |norm| == 2 && IsModernHeader(norm[0]) && IsOrdinary(norm[1], [])
    ensures Scan(norm, [], 0) == Cleaned([norm[1]])
  {
    assert Pass(norm, [], 0) == Drop(1);
    assert Pass(norm, [], 1) == Keep(norm[1], 2);
    assert Scan(norm, [], 1) == Prepend([norm[1]], Scan(norm, [], 2));
  }

  /** Lines 69-75: a document made of a modern header and a line that
      normalises to an ordinary line loses just the header; the other line
      is returned normalised. */
  lemma ModernHeaderDropped(h: string, body: string)
    requires IsModernHeader(h) && PlainLine(h)
    requires IsOrdinary(Normalise(body), [])
    ensures Recognise([h, body], []) == Cleaned([Normalise(body)])
  {
    var lines := [h, body];
    ModernHeaderStart(h);
    assert lines[0] == h && lines[1] == body;
    PassesEntryCheck(lines, []);
    NormalisedLineByLine(lines);
    UnmarkedLineUnchanged(h);
    ModernHeaderThenBodyScan(Normalised(lines));
  }

  /** A modern header line is not the first marker of a legacy block. */
  lemma ModernHeaderIsNoMarker(h: string)
    requires IsModernHeader(h)
    ensures h != "" && !FitsText(Markers()[0], h)
  {
    ModernHeaderStart(h);
    assert Markers()[0][2] == 'S';
  }

  lemma BareUnclassifiedPlain()
    ensures PlainLine("UNCLASSIFIED")
  {
    PlainByEnding("UNCLASSIFIED");
  }

  /** Lines 78-88: a bare `UNCLASSIFIED` before a modern header opens a
      legacy block, and the modern header is not its first marker: the
      document is quarantined at line 1 rather than cleaned. */
  lemma UnclassifiedBeforeModernHeader(h: string, rest: seq<string>)
    requires IsModernHeader(h) && (h == [] || h[|h| - 1] != '\n')
    ensures Recognise(["UNCLASSIFIED", h] + rest, []) == Quarantined(1)
  {
    ModernHeaderIsNoMarker(h);
    UNeverLeads();
    ModernHeaderStart(h);
    LeadKeptNoMarker(h);
    UnclassifiedThenLeadingLine(h, rest);
  }

  /** The letter U, which opens both the marker text and the header, cannot start a suffix. */
  lemma UNeverLeads()
    ensures NeverLeads('U')
  {
  }

  /** A Benghazi footer line is not the first marker of a legacy block. */
  lemma FooterIsNoMarker(f: string)
    requires MatchesPrefix(BenghaziFooter(), f)
    ensures f != "" && f[0] == 'U' && !FitsText(Markers()[0], f)
  {
    var t := BenghaziFooter()[0].text;
    assert t == "UNCLASSIFIED";
    assert FitsText(t, f) && FitsChar(t[0], f[0]) && FitsChar(t[2], f[2]);
    assert Markers()[0][2] == 'S';
  }

  /** Lines 86-89: a Benghazi footer straight after a bare `UNCLASSIFIED` is
      where the first marker is missing, so the document is quarantined at
      line 1 whatever comes next. */
  lemma MalformedBlockQuarantined(f: string, rest: seq<string>)
    requires MatchesPrefix(BenghaziFooter(), f) && (f == [] || f[|f| - 1] != '\n')
    ensures Recognise(["UNCLASSIFIED", f] + rest, []) == Quarantined(1)
  {
    FooterIsNoMarker(f);
    UNeverLeads();
    LeadKeptNoMarker(f);
    UnclassifiedThenLeadingLine(f, rest);
  }

  /** Every footer line of the documented form, with any whitespace after
      `UNCLASSIFIED` and any text after the footer, quarantines a document
      at line 1 when it follows a bare `UNCLASSIFIED`. */
  lemma FooterLineQuarantined(ws: string, tail: string, rest: seq<string>)
    requires forall i :: 0 <= i < |ws| ==> IsSpace(ws[i])
    requires tail == [] || tail[|tail| - 1] != '\n'
    ensures Recognise(["UNCLASSIFIED", "UNCLASSIFIED" + ws + FooterText() + tail] + rest, []) == Quarantined(1)
  {
    var f := "UNCLASSIFIED" + ws + FooterText() + tail;
    BenghaziFooterAccepts(ws, tail);
    assert f[|f| - 1] != '\n' by {
      if tail == [] {
        assert f[|f| - 1] == FooterText()[|FooterText()| - 1];
      } else {
        assert f[|f| - 1] == tail[|tail| - 1];
      }
    }
    MalformedBlockQuarantined(f, rest);
  }

  /** Two markers are found, and the document ends before the third. */
  lemma EndInsideBlock(norm: seq<string>)
    requires norm == ["UNCLASSIFIED", "U.S. Department of State", "Case No. F-2014-99999"]
    ensures ConsumeBlock(norm, [], 1, Markers()) == Exhausted
  {
    var ms := Markers();
    StartsWithText(ms[0], norm[1], "");
    StartsWithText(ms[1], norm[2], " F-2014-99999");
    MarkerFound(norm, [], 1, ms, 1);
    MarkerFound(norm, [], 2, ms[1..], 2);
    assert ConsumeBlock(norm, [], 3, ms[1..][1..]) == Exhausted;
  }

  lemma EndInsideBlockScan(norm: seq<string>)
    requires norm == ["UNCLASSIFIED", "U.S. Department of State", "Case No. F-2014-99999"]
    ensures Scan(norm, [], 0) == RanOutInBlock
  {
    assert Pass(norm, [], 0) == Stop(RanOutInBlock) by {
      EndInsideBlock(norm);
      BareOpenerPass(norm, []);
    }
    ScanStops(norm, [], 0);
  }

  /** Lines 82-86: a document that ends while markers are still expected
      makes `next()` raise out of `remove_headers`. */
  lemma EndInsideBlockRaises(lines: seq<string>)
    requires lines == ["UNCLASSIFIED", "U.S. Department of State", "Case No. F-2014-99999"]
    ensures Recognise(lines, []) == RanOutInBlock
  {
    forall k | 0 <= k < |lines| ensures PlainLine(lines[k]) {
      PlainByEnding(lines[k]);
    }
    PlainDocument(lines, []);
    EndInsideBlockScan(lines);
  }
}
