/**
  The header/footer recognizer, `remove_headers`.

  The source walks one shared iterator over the normalised lines from two
  places: the outer `for` loop and explicit `next()` calls inside it. Here the
  iterator is an index `next` into the document: reading a line means
  normalising `lines[next]` and advancing `next`, and "the iterator is
  exhausted" means `next == |lines|`.

  The method is proved equal to `Recognise`, a recursive reading of the same
  state machine over the normalised lines (`Scan`), about which the
  properties are proved in module RecognizerFacts.
 */
module Recognizer {
  import opened Patterns
  import opened Normaliser

  /** How a call of `remove_headers` ends. */
  datatype Outcome =
    | Cleaned(body: seq<string>)  // the lines kept, returned as a list
    | Quarantined(line: nat)      // `return []`; index of the offending line
    | RanOutInBlock               // `StopIteration` escapes from a legacy block
  {
    /** The list the source returns: a quarantine is indistinguishable from
        an empty document. */
    function Returned(): seq<string>
      requires !RanOutInBlock?
    {
      if Cleaned? then body else []
    }
  }

  /** Lines kept before the rest of the document is scanned. */
  function Prepend(kept: seq<string>, o: Outcome): Outcome {
    if o.Cleaned? then Cleaned(kept + o.body) else o
  }

  /** Line 70: the single-line modern header, dropped on its own. */
  predicate IsModernHeader(line: string) {
    MatchesPrefix(ModernHeader(), line)
  }

  /** Lines 78-79: the Benghazi footer or a bare `UNCLASSIFIED` line opens a
      legacy block. */
  predicate OpensLegacyBlock(line: string) {
    MatchesPrefix(BenghaziFooter(), line) || line == "UNCLASSIFIED"
  }

  /** Line 95: a line that survives the skip list and is no header is kept. */
  predicate IsOrdinary(line: string, skip: seq<string>) {
    line !in skip && !IsModernHeader(line) && !OpensLegacyBlock(line)
  }

  /** Lines 64-65: the first line at or after `i` that is not in the skip
      list, or `|norm|` when the document runs out first. */
  function SkipListed(norm: seq<string>, skip: seq<string>, i: nat): (j: nat)
    requires i <= |norm|
    ensures i <= j <= |norm|
    ensures j < |norm| ==> norm[j] !in skip
    ensures forall k :: i <= k < j ==> norm[k] in skip
    decreases |norm| - i
  {
    if i == |norm| || norm[i] !in skip then i else SkipListed(norm, skip, i + 1)
  }

  /** Lines 82-86: the next line of a legacy block that is neither blank nor
      in the skip list, or `|norm|` when the document runs out first. */
  function NextInBlock(norm: seq<string>, skip: seq<string>, i: nat): (j: nat)
    requires i <= |norm|
    ensures i <= j <= |norm|
    ensures j < |norm| ==> norm[j] !in [""] + skip
    ensures forall k :: i <= k < j ==> norm[k] in [""] + skip
    decreases |norm| - i
  {
    if i == |norm| || norm[i] !in [""] + skip then i else NextInBlock(norm, skip, i + 1)
  }

  /** How the four-marker loop of lines 80-91 ends. */
  datatype BlockEnd =
    | Matched(after: nat)  // all markers found; scanning resumes at `after`
    | Mismatch(at: nat)    // line `at` does not start with its marker
    | Exhausted            // `next()` raised StopIteration

  /** The markers still expected in a legacy block (the tail of
      `Markers()`), looked for from line `i` on. */
  function ConsumeBlock(norm: seq<string>, skip: seq<string>, i: nat, markers: seq<string>): (b: BlockEnd)
    requires i <= |norm|
    ensures b.Matched? ==> i + |markers| <= b.after <= |norm|
    ensures b.Mismatch? ==> i <= b.at < |norm| && norm[b.at] !in [""] + skip
    decreases |markers|
  {
    if markers == [] then Matched(i)
    else
      var j := NextInBlock(norm, skip, i);
      if j == |norm| then Exhausted
      else if !FitsText(markers[0], norm[j]) then Mismatch(j)
      else ConsumeBlock(norm, skip, j + 1, markers[1..])
  }

  /** What one pass of the outer `for` loop does with the document. */
  datatype Step =
    | Keep(line: string, after: nat)  // line 95: `line` is appended to the output
    | Drop(after: nat)                // a header, or the iterator ran out
    | Stop(outcome: Outcome)          // the function returns, or raises, here

  /** Lines 59-95: one pass of the outer loop from line `i` of the normalised
      document. Every pass that does not stop moves past line `i`. */
  function Pass(norm: seq<string>, skip: seq<string>, i: nat): (s: Step)
    requires i < |norm|
    ensures (s.Keep? || s.Drop?) ==> i < s.after <= |norm|
    ensures s.Stop? ==> !s.outcome.Cleaned?
  {
    PassAt(norm, skip, SkipListed(norm, skip, i))
  }

  /** Lines 65-95: what the outer loop does once the skip list has brought
      it to line `j` (or to the end of the document). */
  function PassAt(norm: seq<string>, skip: seq<string>, j: nat): Step
    requires j <= |norm|
  {
    if j == |norm| then Drop(j)
    else if IsModernHeader(norm[j]) then Drop(j + 1)
    else if OpensLegacyBlock(norm[j]) then AfterBlock(ConsumeBlock(norm, skip, j + 1, Markers()))
    else Keep(norm[j], j + 1)
  }

  /** Lines 80-93: a matched block is dropped, Date line included; a marker
      missing quarantines the document; running out raises. */
  function AfterBlock(b: BlockEnd): Step {
    match b
    case Matched(k) => Drop(k)
    case Mismatch(at) => Stop(Quarantined(at))
    case Exhausted => Stop(RanOutInBlock)
  }

  /** The outer loop of lines 58-95 from line `i` to the end. */
  ghost function Scan(norm: seq<string>, skip: seq<string>, i: nat): Outcome
    requires i <= |norm|
    decreases |norm| - i
  {
    if i == |norm| then Cleaned([])
    else match Pass(norm, skip, i)
      case Keep(line, k) => Prepend([line], Scan(norm, skip, k))
      case Drop(k) => Scan(norm, skip, k)
      case Stop(o) => o
  }

  /** `remove_headers(lines)` with `HEADER_SKIP_LINES` given as `skip`. */
  ghost function Recognise(lines: seq<string>, skip: seq<string>): Outcome
    requires |lines| > 0
  {
    if !MatchesPrefix(Unclassified(), lines[0]) then Quarantined(0)
    else Scan(Normalised(lines), skip, 0)
  }

  lemma PrependAssoc(a: seq<string>, b: seq<string>, o: Outcome)
    ensures Prepend(a, Prepend(b, o)) == Prepend(a + b, o)
  {
    if o.Cleaned? {
      assert a + (b + o.body) == (a + b) + o.body;
    }
  }

  /** The state machine itself: a cursor shared by the outer loop, the
      skip-list loop and the legacy-block loops. */
  method RemoveHeaders(lines: seq<string>, skip: seq<string>) returns (outcome: Outcome)
    requires |lines| > 0
    ensures outcome == Recognise(lines, skip)
  {
    if !MatchesPrefix(Unclassified(), lines[0]) {
      return Quarantined(0);
    }
    // Line 55: what the iterator will yield, line by line.
    outcome := OuterLoop(Normalised(lines), skip);
  }

  /** Lines 56-97: the outer loop over the normalised lines, collecting the
      lines it keeps in `otxt`. */
  method OuterLoop(norm: seq<string>, skip: seq<string>) returns (outcome: Outcome)
    ensures outcome == Scan(norm, skip, 0)
  {
    var otxt: seq<string> := [];
    var next: nat := 0;
    while next < |norm|
      invariant next <= |norm|
      invariant Scan(norm, skip, 0) == Prepend(otxt, Scan(norm, skip, next))
      decreases |norm| - next
    {
      var step := OuterPass(norm, skip, next);
      match step {
        case Stop(o) =>
          return o;
        case Drop(after) =>
          next := after;
        case Keep(line, after) =>
          PrependAssoc(otxt, [line], Scan(norm, skip, after));
          otxt, next := otxt + [line], after;
      }
    }
    assert otxt + [] == otxt;
    outcome := Cleaned(otxt);
  }

  /** Lines 59-95: one pass of the outer loop, from the line at `next`. */
  method OuterPass(norm: seq<string>, skip: seq<string>, next: nat) returns (step: Step)
    requires next < |norm|
    ensures step == Pass(norm, skip, next)
  {
    var idx, line, after := ReadPastSkipList(norm, skip, next);
    if line in skip {
      // StopIteration inside the `try`: the `for` loop is over.
      return Drop(after);
    }
    assert Pass(norm, skip, next) == PassAt(norm, skip, idx);
    if IsModernHeader(line) {
      return Drop(after);
    }
    if OpensLegacyBlock(line) {
      var block := ReadLegacyBlock(norm, skip, after, Markers());
      return AfterBlock(block);
    }
    return Keep(line, after);
  }

  /** Lines 58-67: read the next line, then keep reading while it is in the
      skip list and the document lasts. A line still in the skip list at the
      end means the iterator ran out inside the `try`. */
  method ReadPastSkipList(norm: seq<string>, skip: seq<string>, next: nat)
    returns (idx: nat, line: string, after: nat)
    requires next < |norm|
    ensures next <= idx < |norm| && after == idx + 1 && line == norm[idx]
    ensures line in skip ==> after == |norm| && SkipListed(norm, skip, next) == |norm|
    ensures line !in skip ==> SkipListed(norm, skip, next) == idx
  {
    idx, line, after := next, norm[next], next + 1;
    while line in skip && after < |norm|
      invariant next <= idx && after == idx + 1 <= |norm| && line == norm[idx]
      invariant SkipListed(norm, skip, next) == SkipListed(norm, skip, idx)
      decreases |norm| - after
    {
      idx, line, after := after, norm[after], after + 1;
    }
  }

  /** Lines 80-91: look for the markers (`Markers()` at line 80) from line
      `next` on, each on the next line that is neither blank nor in the skip
      list. */
  method ReadLegacyBlock(norm: seq<string>, skip: seq<string>, next: nat, markers: seq<string>)
    returns (block: BlockEnd)
    requires next <= |norm|
    ensures block == ConsumeBlock(norm, skip, next, markers)
  {
    var cursor: nat := next;
    for m := 0 to |markers|
      invariant cursor <= |norm|
      invariant ConsumeBlock(norm, skip, next, markers) == ConsumeBlock(norm, skip, cursor, markers[m..])
    {
      if cursor == |norm| {
        return Exhausted;
      }
      ghost var from := cursor;
      var idx, line := cursor, norm[cursor];
      cursor := cursor + 1;
      // Cycle through line breaks that OCR put into the header.
      while line in [""] + skip
        invariant from <= idx && cursor == idx + 1 <= |norm| && line == norm[idx]
        invariant NextInBlock(norm, skip, from) == NextInBlock(norm, skip, idx)
        decreases |norm| - cursor
      {
        if cursor == |norm| {
          return Exhausted;
        }
        idx, line := cursor, norm[cursor];
        cursor := cursor + 1;
      }
      if !FitsText(markers[m], line) {
        return Mismatch(idx);
      }
      assert markers[m..][1..] == markers[m + 1..];
    }
    block := Matched(cursor);
  }
}
