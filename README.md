# State Department header stripper, modelled in Dafny

`bin/strip_statedept_headers.py` turns the OCR text of released State
Department e-mails into plain message bodies. Its core is two functions:

- `clean_and_enumerate` (lines 21-36) normalises every line with three
  `re.sub` calls, in order: trailing FOIA exemption codes (`B6`,
  `B5,B6`, `B7(C)`, ...), then a trailing `FULL` or `PART`, then a
  trailing `RELEASE IN`. Each removal can expose the next mark, so
  `RELEASE IN PART B4,B5,B6` is cut down to nothing.
- `remove_headers` (lines 40-97) is a state machine over one shared
  iterator of normalised lines. It first checks that the raw first line
  starts with `UNCLASSIFIED`; otherwise the document is rejected with
  `[]`. Then it walks the lines and:
  - skips lines of `HEADER_SKIP_LINES`;
  - drops single-line modern headers;
  - on a Benghazi footer or a bare `UNCLASSIFIED` line, consumes a legacy
    header block. The block's four markers `U.S. Department of State`,
    `Case No.`, `Doc No.` and `Date` must appear in order, and blank or
    skipped lines between them are passed over;
  - keeps every other line.

  A block marker that does not match quarantines the whole document
  (`return []`). A document that ends inside a block makes `next()` raise
  `StopIteration` out of the function.

The project has four modules:

- `Patterns` (`patterns.dfy`) holds the fixed regular expressions of
  lines 48, 70, 78 and 80. They are lists of pieces with a backtracking
  prefix matcher, so `re.match` keeps its meaning: Python 2 byte-string
  classes, `.` matches anything but a newline, and `\d*` may match
  nothing.
- `Normaliser` (`normaliser.dfy`) models the three strips as pure
  functions. `$` is Python's end anchor, which matches before a final
  newline, and `re.sub` cuts at the leftmost match.
- `Recognizer` (`recognizer.dfy`) has two parts:
  - `RemoveHeaders` is an imperative method over an index cursor, with the
    source's nested loops;
  - `Recognise` and `Scan` are a recursive reading of the same machine.

  The method is proved equal to that reading.
- `RecognizerFacts` and `RecognizerExamples` (`recognizer_facts.dfy`,
  `recognizer_examples.dfy`) prove the source's promises about
  `Recognise`. They also prove whole documents end to end, with
  the skip list empty as shipped (line 19).

The outcome of `remove_headers` is one of three cases:

- `Cleaned(body)`: the list returned;
- `Quarantined(line)`: `return []`, carrying the index of the line that
  caused it;
- `RanOutInBlock`: the escaping `StopIteration`.

`Outcome.Returned` gives the list the caller sees.

Four behaviours of the code are easy to miss when reading it. The model
follows the code in each:

- **Normalisation is not idempotent.** One pass can leave a mark behind
  (`X FULL PART` becomes `X FULL`, and `B6 PART` becomes `B6`); see
  `FullPartNotIdempotent` and `CodeBeforePartNotIdempotent`.
- **A bare `UNCLASSIFIED` line always opens a legacy block.** A document
  `UNCLASSIFIED` / modern header / body is therefore quarantined at
  line 1, not cleaned to `UNCLASSIFIED` / body; see
  `UnclassifiedBeforeModernHeader`.
- **A footer straight after a bare `UNCLASSIFIED` is a malformed block.**
  The bare line opens a block, and the footer line is where its first
  marker `U.S. Department of State` is looked for and missing, so the
  document is quarantined at line 1; see `MalformedBlockQuarantined`.
- **A document that ends inside a legacy block is not a benign end.**
  `next()` at lines 82 and 86 is outside the `try`, so `StopIteration`
  propagates; see `ScanRunsOutLater`, `RanOutAfterOpener` and
  `EndInsideBlockRaises`. Only the skip-list loop of
  lines 62-67 treats running out as the end of the document.

## Model

| member | source | states |
|---|---|---|
| `Patterns.MatchesPrefix` | bin/strip_statedept_headers.py:48-87 | `re.match`: the pattern, a list of literal text, `\d`, `\d*` and `\s*` pieces, matches some prefix of the line, with `\d*` and `\s*` free to take any run of their class |
| `Patterns.Unclassified` | bin/strip_statedept_headers.py:48 | the entry-check pattern, the literal text `UNCLASSIFIED` |
| `Patterns.ModernHeader` | bin/strip_statedept_headers.py:70 | the single-line modern header pattern, piece by piece, `\d*` for the case and document numbers |
| `Patterns.BenghaziFooter` | bin/strip_statedept_headers.py:78 | the Benghazi footer pattern: `UNCLASSIFIED`, `\s*`, then the rest of the footer text |
| `Patterns.TextMatches` | bin/strip_statedept_headers.py:87 | `re.match` with plain regex text is "the line starts with it", `.` standing for any character but a newline; without a `.` it is a literal prefix test |
| `Patterns.Markers` | bin/strip_statedept_headers.py:80 | a legacy block expects exactly four continuation markers |
| `Patterns.ModernHeaderAccepts` | bin/strip_statedept_headers.py:70 | every line `UNCLASSIFIED U.S. Department of State Case No. F-yyyy-n Doc No. Cn Date: mm/dd/yyyy`, whatever follows it, matches the modern-header pattern, with case and document numbers of any length, empty included |
| `Patterns.DigitsTakeRun` | bin/strip_statedept_headers.py:70 | `\d*` can consume any run of digits and let the rest of the pattern match what follows |
| `Patterns.SpacesTakeRun` | bin/strip_statedept_headers.py:78 | `\s*` can consume any run of whitespace and let the rest of the pattern match what follows |
| `Patterns.BenghaziFooterAccepts` | bin/strip_statedept_headers.py:78 | `UNCLASSIFIED`, any run of whitespace (possibly none) and the footer text `STATE DEPT. - PRODUCED TO HOUSE SELECT BENGHAZI COMM.` match the footer pattern, whatever follows them |
| `Patterns.DigitClassesTake` | bin/strip_statedept_headers.py:70 | `n` single `\d` classes consume exactly `n` digits |
| `Normaliser.IsCodeList` | bin/strip_statedept_headers.py:32 | the stretch matched by `(\s*B\d(\([A-F]\))?,)*\s*B\d(\([A-F]\))?`: comma-separated items, each `\s*B<digit>` with an optional `(A)`-`(F)` |
| `Normaliser.Matches` | bin/strip_statedept_headers.py:32-35 | which stretches each of the three suffix patterns matches: a code list, `\s*` then `FULL` or `PART`, `\s*` then `RELEASE IN` |
| `Normaliser.EndAnchor` | bin/strip_statedept_headers.py:32-35 | Python's `$`: the end of the line, or just before a final newline |
| `Normaliser.Cut` | bin/strip_statedept_headers.py:32-35 | the start of the leftmost match that reaches the `$` anchor, or the anchor itself when nothing matches |
| `Normaliser.Strip` | bin/strip_statedept_headers.py:32-35 | one `re.sub(..., '', line)`: the line up to the cut, followed by whatever lay after the anchor |
| `Normaliser.Normalise` | bin/strip_statedept_headers.py:32-35 | the three substitutions applied in their order: codes, then `FULL`/`PART`, then `RELEASE IN` |
| `Normaliser.Normalised` | bin/strip_statedept_headers.py:28-36 | the generator's lines, one normalised line per input line |
| `Normaliser.FirstCommaIsFirst` | bin/strip_statedept_headers.py:32 | the separator found in a code list is its first comma |
| `Normaliser.CutIsLeftmost` | bin/strip_statedept_headers.py:32-35 | `re.sub(..$)` cuts at the leftmost start whose stretch up to the `$` anchor matches, and no earlier start matches |
| `Normaliser.NormalisedLineByLine` | bin/strip_statedept_headers.py:28-36 | the generator yields, at position `i`, line `i` normalised |
| `Normaliser.NormalisedAppend` | bin/strip_statedept_headers.py:28-36 | normalisation works line by line: normalising a concatenation concatenates the normalised parts |
| `Normaliser.NoEmptyMark` | bin/strip_statedept_headers.py:32-35 | no mark pattern matches the empty string, so a strip that fires removes something |
| `Normaliser.SpaceExtendsMark` | bin/strip_statedept_headers.py:32-35 | every mark starts with `\s*`: whitespace in front of a match still matches |
| `Normaliser.CodeListChars` | bin/strip_statedept_headers.py:32 | a code list consists only of whitespace, `B`, digits, `(`, `)`, `A`-`F` and commas |
| `Normaliser.CodeListEnd` | bin/strip_statedept_headers.py:32 | a code list ends in `B` followed by a digit, or in `)` |
| `Normaliser.MatchLead` | bin/strip_statedept_headers.py:32-35 | every stretch a mark matches is non-empty and starts with whitespace, `B`, a digit, `(`, `)`, `A`-`F`, a comma, `F`, `P` or `R` |
| `Normaliser.StripKeepsLead` | bin/strip_statedept_headers.py:32-35 | a line without a final newline whose first character cannot start a mark keeps that character through a strip: the result is a non-empty prefix of the line, again without a final newline |
| `Normaliser.NormaliseKeepsLead` | bin/strip_statedept_headers.py:28-36 | such a line normalises to a non-empty prefix of itself |
| `Normaliser.CutNotAfterNewline` | bin/strip_statedept_headers.py:32-35 | a strip never cuts just after a newline, since the newline would have joined the match |
| `Normaliser.StripAnchor` | bin/strip_statedept_headers.py:32-35 | a strip keeps the line up to the cut plus any final newline, and the cut becomes the new `$` anchor |
| `Normaliser.NormaliseRemovesOneStretch` | bin/strip_statedept_headers.py:29-35 | the three staggered strips together remove one stretch just before the anchor: the result is a prefix of the line followed by its final newline, if any |
| `Normaliser.NormaliseIsPrefix` | bin/strip_statedept_headers.py:29-35 | a line without a final newline normalises to a prefix of itself |
| `Normaliser.UnchangedIffUnmarked` | bin/strip_statedept_headers.py:29-35 | normalisation leaves a line unchanged exactly when no mark matches any trailing stretch of it |
| `Normaliser.StripUnmarked` | bin/strip_statedept_headers.py:32-35 | a line whose end does not look like a mark is left alone by that strip |
| `Normaliser.UnmarkedLineUnchanged` | bin/strip_statedept_headers.py:32-35 | a line whose end looks like none of the marks is unchanged by normalisation |
| `Normaliser.StripAt` | bin/strip_statedept_headers.py:32-35 | a strip cuts exactly where the match starts when the character before it can neither lead the mark nor be part of it |
| `Normaliser.StripCodesAfterWord` | bin/strip_statedept_headers.py:32 | a code list without a final newline, after a word whose last character cannot occur in a code list (not whitespace, `B`, a digit, `A`-`F`, `(`, `)` or a comma), is cut off whole, leaving the word |
| `Normaliser.CodeListCons` | bin/strip_statedept_headers.py:32 | `(item,)*item`: a list grows by one item at the front |
| `Normaliser.CompoundMarkCutDown` | bin/strip_statedept_headers.py:29-35 | `RELEASE IN PART B4,B5,B6` is cut down to the empty line, via `RELEASE IN PART` and `RELEASE IN` |
| `Normaliser.TrailingCompoundMarkCutDown` | bin/strip_statedept_headers.py:29-35 | `Some text RELEASE IN PART B5,B6` normalises to `Some text` |
| `Normaliser.PartGluedToWord` | bin/strip_statedept_headers.py:34 | with no word boundary, `COUNTERPART` normalises to `COUNTER` |
| `Normaliser.CodeGluedToWord` | bin/strip_statedept_headers.py:32 | with no word boundary, `JOB6` normalises to `JO` |
| `Normaliser.FullPartNotIdempotent` | bin/strip_statedept_headers.py:34 | `X FULL PART` normalises to `X FULL`, which normalises again to `X` |
| `Normaliser.CodeBeforePartNotIdempotent` | bin/strip_statedept_headers.py:32-34 | `B6 PART` normalises to `B6`, which normalises again to the empty line |
| `Recognizer.IsModernHeader` | bin/strip_statedept_headers.py:70-71 | a line is a modern header when line 70's pattern matches a prefix of it |
| `Recognizer.OpensLegacyBlock` | bin/strip_statedept_headers.py:78-79 | a line opens a legacy block when line 78's footer pattern matches a prefix of it or it is exactly `UNCLASSIFIED` |
| `Recognizer.IsOrdinary` | bin/strip_statedept_headers.py:62-95 | a line reaches line 95 and is kept when it is not in the skip list, not a modern header and opens no block |
| `Recognizer.PassAt` | bin/strip_statedept_headers.py:58-95 | once the skip list is passed: the end of the document ends the pass, a modern header is dropped, an opener consumes its block, and anything else is kept |
| `Recognizer.AfterBlock` | bin/strip_statedept_headers.py:80-93 | a matched block is dropped up to its `Date` line, a mismatch returns `[]`, running out raises |
| `Recognizer.Scan` | bin/strip_statedept_headers.py:58-97 | the outer loop from line `i` on: kept lines are prepended to what the rest yields, and a pass that stops ends it |
| `Recognizer.Recognise` | bin/strip_statedept_headers.py:40-97 | the whole function: the entry check on the raw first line, then the scan of the normalised lines |
| `Recognizer.Outcome.Returned` | bin/strip_statedept_headers.py:47-97 | what the caller gets: the kept lines for a cleaned document, `[]` for a quarantined one |
| `Recognizer.SkipListed` | bin/strip_statedept_headers.py:64-65 | the skip-list loop stops at the first line not in the list, every line before it being in the list, or at the end of the document |
| `Recognizer.NextInBlock` | bin/strip_statedept_headers.py:84-86 | inside a block, the next line read is the first that is neither blank nor in the skip list, or the end of the document |
| `Recognizer.ConsumeBlock` | bin/strip_statedept_headers.py:80-91 | a block that matches resumes at least one line per marker further on; a mismatch is at a non-blank, non-skipped line |
| `Recognizer.Pass` | bin/strip_statedept_headers.py:58-95 | a pass of the outer loop that does not return moves past its first line; a pass that returns never returns a cleaned body |
| `Recognizer.RemoveHeaders` | bin/strip_statedept_headers.py:40-97 | the state machine, run with a shared cursor, returns exactly `Recognise(lines, skip)` |
| `Recognizer.OuterLoop` | bin/strip_statedept_headers.py:56-97 | the `for` loop, appending kept lines to `otxt`, ends exactly as `Scan` from line 0 says |
| `Recognizer.OuterPass` | bin/strip_statedept_headers.py:58-95 | one iteration of the `for` loop, with its skip-list loop and block loops, does what `Pass` says |
| `Recognizer.ReadPastSkipList` | bin/strip_statedept_headers.py:62-67 | the `try`/`while` reads up to the first line not in the skip list; still being in the list at the end means the iterator ran out |
| `Recognizer.ReadLegacyBlock` | bin/strip_statedept_headers.py:80-91 | the four-marker loop with its blank-line loop ends as `ConsumeBlock` says |
| `RecognizerFacts.ScanKeepsOrdinaryLines` | bin/strip_statedept_headers.py:58-95 | every kept line is an ordinary line of the document (not skipped, not a header), taken at strictly increasing positions; every line not kept is accounted for: it is in the skip list, a modern header, or inside a legacy block (opener to `Date` line) that matched completely |
| `RecognizerFacts.OutputIsOrderedSubsequence` | bin/strip_statedept_headers.py:55-97 | the cleaned body is the normalised input with lines left out, in the original order, no input line used twice, never longer than the input, and every line left out is a skipped line, a modern header or part of a completely matched legacy block |
| `RecognizerFacts.AllOrdinaryKept` | bin/strip_statedept_headers.py:55-97 | a document that passes the entry check and whose normalised lines are all ordinary is returned whole, normalised |
| `RecognizerFacts.ScanAllOrdinary` | bin/strip_statedept_headers.py:58-95 | from any line on, a run of ordinary lines is kept in full |
| `RecognizerFacts.OutputHasNoHeaderLines` | bin/strip_statedept_headers.py:64-95 | no returned line is in the skip list, starts like the modern header or the Benghazi footer, or is a bare `UNCLASSIFIED` |
| `RecognizerFacts.BlankLineKept` | bin/strip_statedept_headers.py:95 | outside a block, an empty normalised line is kept, provided the skip list does not hold the empty line |
| `RecognizerFacts.ScanQuarantinesLater` | bin/strip_statedept_headers.py:76-91 | a mid-document quarantine comes from a block opener at or after the scan's start: the markers before some marker `m` were found in order after the opener, and the quarantined line is the next line after them that is neither blank nor skipped, and it fails marker `m` |
| `RecognizerFacts.PassAtQuarantines` | bin/strip_statedept_headers.py:76-91 | a pass that quarantines has a block opener at its line; the markers before marker `m` were found after it, and the quarantined line is the next non-blank, non-skipped line after them, failing marker `m` |
| `RecognizerFacts.MismatchedMarker` | bin/strip_statedept_headers.py:80-91 | a block mismatch comes after markers `0..n-1` were found in order; it is the next non-blank, non-skipped line after them, and it fails marker `n` |
| `RecognizerFacts.MismatchAfterMarkers` | bin/strip_statedept_headers.py:80-91 | conversely, when markers `0..n-1` were found in order and the next non-blank, non-skipped line fails marker `n`, the block ends in a mismatch at that line |
| `RecognizerFacts.QuarantinedAfterMarkers` | bin/strip_statedept_headers.py:76-91 | conversely, a pass that reaches a block opener, finds the markers before marker `m` and then a line failing marker `m` quarantines the document at that line |
| `RecognizerFacts.ScanRunsOutLater` | bin/strip_statedept_headers.py:76-86 | a document that raises out of the function does so in a block opened at or after the scan's start, not skipped and no modern header, whose markers run past the end of the document |
| `RecognizerFacts.RanOutAfterOpener` | bin/strip_statedept_headers.py:76-86 | conversely, a pass that reaches a block opener whose markers run past the end of the document raises |
| `RecognizerFacts.EntryCheck` | bin/strip_statedept_headers.py:47-51 | the document is quarantined at line 0 exactly when its raw first line does not start with `UNCLASSIFIED`, whatever follows, and the caller then gets `[]` |
| `RecognizerFacts.MatchedBlockShape` | bin/strip_statedept_headers.py:80-92 | a completed block found each marker, in order, on increasing lines, with only blank or skipped lines between them, and scanning resumes just after the `Date` line |
| `RecognizerFacts.MatchAfterMarkers` | bin/strip_statedept_headers.py:80-92 | conversely, when the markers were found in order on increasing lines, each the next line that is neither blank nor skipped, the block completes and scanning resumes just after the last of them |
| `RecognizerFacts.DroppedAfterMarkers` | bin/strip_statedept_headers.py:76-92 | a pass that reaches a block opener (not skipped, no modern header) followed by the four markers found in that way drops the whole block: the scan from the pass's start equals the scan from just after the `Date` line |
| `RecognizerFacts.TrailingSkipLinesChangeNothing` | bin/strip_statedept_headers.py:62-67 | appending lines that normalise into the skip list does not change the outcome, since running out while skipping ends the loop normally |
| `RecognizerFacts.ScanIgnoresSkippedTail` | bin/strip_statedept_headers.py:62-67 | the scan of a document followed by skipped lines equals the scan of the document |
| `RecognizerFacts.ConsumeBlockIgnoresTail` | bin/strip_statedept_headers.py:80-91 | a legacy block read in a document followed by lines that are all in the skip list ends exactly as it does in the document alone |
| `RecognizerExamples.ClassifiedDocumentRejected` | bin/strip_statedept_headers.py:47-51 | `CLASSIFIED` / `Hello world` is quarantined at line 0 and gives `[]` |
| `RecognizerExamples.LegacyDocumentCleaned` | bin/strip_statedept_headers.py:76-95 | a bare `UNCLASSIFIED`, a blank OCR line, the four marker lines and one line of content give just that content line |
| `RecognizerExamples.ModernHeaderDropped` | bin/strip_statedept_headers.py:70-75 | a modern header that no strip touches, followed by any line that normalises to an ordinary line, leaves just that line, normalised |
| `RecognizerExamples.ModernHeaderLineShape` | bin/strip_statedept_headers.py:70 | every documented modern header line is a modern header and normalisation leaves it alone |
| `RecognizerExamples.UnclassifiedThenLeadingLine` | bin/strip_statedept_headers.py:76-91 | `UNCLASSIFIED` followed by any line that normalises to a non-empty line lacking the first marker, then any lines at all, is quarantined at line 1 |
| `RecognizerExamples.LeadKeptNoMarker` | bin/strip_statedept_headers.py:28-36 | a line without a final newline whose first character cannot start a mark normalises to a non-empty line, and it gains no marker it lacked |
| `RecognizerExamples.UnclassifiedBeforeModernHeader` | bin/strip_statedept_headers.py:76-91 | `UNCLASSIFIED` / modern header / any further lines is quarantined at line 1, because the bare `UNCLASSIFIED` opens a block |
| `RecognizerExamples.MalformedBlockQuarantined` | bin/strip_statedept_headers.py:76-91 | `UNCLASSIFIED` / Benghazi footer / any further lines is quarantined at line 1 |
| `RecognizerExamples.FooterLineQuarantined` | bin/strip_statedept_headers.py:76-91 | `UNCLASSIFIED` / any footer line of the documented form (any whitespace after its `UNCLASSIFIED`, any text after the footer, no final newline) / any further lines is quarantined at line 1 |
| `RecognizerExamples.PassesEntryCheck` | bin/strip_statedept_headers.py:47-55 | a first line starting with `UNCLASSIFIED` lets the scan run over the normalised lines |
| `RecognizerExamples.BareOpenerMismatch` | bin/strip_statedept_headers.py:79-91 | a bare `UNCLASSIFIED` followed by a non-blank line that lacks the first marker quarantines at that line |
| `RecognizerExamples.EndInsideBlockRaises` | bin/strip_statedept_headers.py:80-86 | a document ending after two of the four markers raises out of the function |
| `RecognizerExamples.NotHeaderLine` | bin/strip_statedept_headers.py:70-79 | a line not starting with `U` is neither a modern header nor a block opener |
| `RecognizerExamples.ModernHeaderIsNoMarker` | bin/strip_statedept_headers.py:80-87 | a modern header line does not satisfy the first block marker |
| `RecognizerExamples.FooterIsNoMarker` | bin/strip_statedept_headers.py:78-87 | a Benghazi footer line starts with `U` and does not satisfy the first block marker |
| `RecognizerExamples.PlainLinesUnchanged` | bin/strip_statedept_headers.py:28-36 | a document made of lines that no strip touches is yielded unchanged |

## Left out

- `main` and `parse_options` (lines 101-146) are not modelled. They cover
  file globbing, reading, writing, argument parsing and the list of
  problem files. `main` strips every raw line (line 119), so the lines
  it passes in never end in a newline. The model allows any line. The
  lemmas that require a line without a final newline rely on that
  guarantee: `Normaliser.NormaliseIsPrefix`, `Normaliser.StripUnmarked`,
  `Normaliser.StripAt`, `Normaliser.UnmarkedLineUnchanged`,
  `Normaliser.StripKeepsLead`, `Normaliser.NormaliseKeepsLead`,
  `Normaliser.StripCodesAfterWord`, and in `RecognizerExamples` every
  lemma about plain lines (`PlainLinesUnchanged`, `PlainDocument`, and
  `ModernHeaderDropped` for its header line), `LeadKeptNoMarker`,
  `UnclassifiedBeforeModernHeader` and `MalformedBlockQuarantined`.
- The `print` diagnostics (lines 49-50 and 90) are not modelled. The
  offending line's index is returned in `Quarantined` instead of printed.
- Characters are Dafny `char`s; the source reads Python 2 byte strings.
  The classes `\s` and `\d` are ASCII-only in Python 2 and are defined
  the same way here. The wildcard `.` is not: in the source it matches
  one byte, in the model one character. Where a `.` must be followed by
  more text (`U.S.`, `Case No.` and `Doc No.` of line 70, `DEPT.` of
  line 78, the `U.S.` of line 80), a line with a multi-byte character at
  that position matches in the model but not in the source:
  `U’S’ Department of State` fits the first block marker here, while the
  source quarantines at it. A `.` at the end of a pattern (`COMM.` of
  line 78, `Case No.` and `Doc No.` of line 80) only needs the prefix to
  match, so it behaves the same either way.
- There is no general regular-expression engine. Only the fixed patterns
  of lines 32-35, 48, 70, 78 and 80 are modelled, each by its own
  definition.
- `HEADER_SKIP_LINES` (line 19) is the parameter `skip`, so the skip-list
  behaviour is modelled for any list. The worked documents use the
  shipped empty list.
- `RecognizerExamples.UnclassifiedBeforeModernHeader` and
  `RecognizerExamples.MalformedBlockQuarantined` require the line after
  `UNCLASSIFIED` to have no final newline, which `main` guarantees
  (line 119). A final newline would let `$` match before it and change
  what the strips remove.
- `Recognizer.RemoveHeaders` and `Recognizer.Recognise` require a
  non-empty document. `in_txt[0]` raises `IndexError` on an empty one,
  and that exception is not modelled.
- The generator of line 55 is lazy. The model normalises the whole
  document before the loop. Normalisation is pure, so this makes no
  difference to what is read.
- The capture groups of line 70 are not modelled: their values are never
  used (lines 72-74 are commented out).
