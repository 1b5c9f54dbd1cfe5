/**
  What `remove_headers` guarantees, proved about `Recognise` (and hence,
  through its postcondition, about the method `RemoveHeaders`).
 */
module RecognizerFacts {
  import opened Patterns
  import opened Normaliser
  import opened Recognizer

  // ---------------------------------------------------------------------
  // Where the kept lines come from

  /** `body` is made of the lines of `norm` at positions `pos`, all at or
      after `i`, strictly increasing, and each an ordinary line. */
  ghost predicate KeptFrom(norm: seq<string>, skip: seq<string>, body: seq<string>, pos: seq<nat>, i: nat) {
    && |pos| == |body|
    && (forall k :: 0 <= k < |pos| ==> i <= pos[k] < |norm| && body[k] == norm[pos[k]])
    && (forall k :: 0 <= k < |pos| ==> IsOrdinary(body[k], skip))
    && (forall k :: 0 < k < |pos| ==> pos[k - 1] < pos[k])
  }

  /** Line `p` lies in the legacy block opened at line `o`, from the opener
      to the `Date` line, and that block found all its markers. */
  ghost predicate InBlock(norm: seq<string>, skip: seq<string>, o: nat, p: nat) {
    && o < |norm|
    && ConsumeBlock(norm, skip, o + 1, Markers()).Matched?
    && o <= p < ConsumeBlock(norm, skip, o + 1, Markers()).after
  }

  /** Line `o` opens a legacy block (past the skip list, and not a modern
      header) and that block finds all its markers. */
  ghost predicate BlockOpener(norm: seq<string>, skip: seq<string>, o: nat) {
    && o < |norm| && norm[o] !in skip
    && !IsModernHeader(norm[o]) && OpensLegacyBlock(norm[o])
    && ConsumeBlock(norm, skip, o + 1, Markers()).Matched?
  }

  /** Every line from `i` on that was not kept at a position of `pos` was
      dropped for a reason: it is in the skip list, it is a modern header, or
      it lies in a completed legacy block whose opener is in `ops`; each
      line of `ops` is a block opener that the outer loop reached past the
      skip list. */
  ghost predicate Accounted(norm: seq<string>, skip: seq<string>, i: nat, pos: seq<nat>, ops: set<nat>) {
    && (forall o :: o in ops ==> i <= o && BlockOpener(norm, skip, o))
    && (forall p :: i <= p < |norm| && p !in pos ==>
          || norm[p] in skip
          || IsModernHeader(norm[p])
          || exists o :: o in ops && InBlock(norm, skip, o, p))
  }

  /** Every line the outer loop keeps is an ordinary line of the document,
      and the lines are kept in document order, each at most once; every
      line it does not keep is skipped, a modern header, or part of a
      completed legacy block. */
  lemma {:induction false} ScanKeepsOrdinaryLines(norm: seq<string>, skip: seq<string>, i: nat)
    returns (pos: seq<nat>, ops: set<nat>)
    requires i <= |norm| && Scan(norm, skip, i).Cleaned?
    ensures KeptFrom(norm, skip, Scan(norm, skip, i).body, pos, i)
    ensures Accounted(norm, skip, i, pos, ops)
    decreases |norm| - i
  {
    if i == |norm| {
      return [], {};
    }
    var rest, ops' := ScanKeepsOrdinaryLines(norm, skip, Pass(norm, skip, i).after);
    ScanUnfolds(norm, skip, i);
    if Pass(norm, skip, i).Keep? {
      pos, ops := KeepStep(norm, skip, i, Scan(norm, skip, Pass(norm, skip, i).after).body, rest, ops');
    } else {
      pos, ops := DropStep(norm, skip, i, Scan(norm, skip, Pass(norm, skip, i).after).body, rest, ops');
    }
  }

  /** A pass that keeps a line adds it, at its position, to the account of
      the rest of the scan. */
  lemma KeepStep(norm: seq<string>, skip: seq<string>, i: nat, body: seq<string>, rest: seq<nat>, ops': set<nat>)
    returns (pos: seq<nat>, ops: set<nat>)
    requires i < |norm| && Pass(norm, skip, i).Keep?
    requires KeptFrom(norm, skip, body, rest, Pass(norm, skip, i).after)
    requires Accounted(norm, skip, Pass(norm, skip, i).after, rest, ops')
    ensures KeptFrom(norm, skip, [Pass(norm, skip, i).line] + body, pos, i)
    ensures Accounted(norm, skip, i, pos, ops)
  {
    PassKeeps(norm, skip, i);
    KeptFromCons(norm, skip, Pass(norm, skip, i).line, body,
                 SkipListed(norm, skip, i), rest, i);
    AccountedKeep(norm, skip, i, SkipListed(norm, skip, i), rest, ops');
    pos, ops := [SkipListed(norm, skip, i)] + rest, ops';
  }

  /** A pass that drops lines accounts for them in front of the account of
      the rest of the scan. */
  lemma DropStep(norm: seq<string>, skip: seq<string>, i: nat, body: seq<string>, rest: seq<nat>, ops': set<nat>)
    returns (pos: seq<nat>, ops: set<nat>)
    requires i < |norm| && Pass(norm, skip, i).Drop?
    requires KeptFrom(norm, skip, body, rest, Pass(norm, skip, i).after)
    requires Accounted(norm, skip, Pass(norm, skip, i).after, rest, ops')
    ensures KeptFrom(norm, skip, body, pos, i)
    ensures Accounted(norm, skip, i, pos, ops)
  {
    PassDrops(norm, skip, i);
    pos := rest;
    ops := DropAccounted(norm, skip, i, SkipListed(norm, skip, i), Pass(norm, skip, i).after, rest, ops');
  }

  /** A pass that keeps a line puts it in front of what the rest of the scan
      keeps; a pass that drops lines adds nothing. */
  lemma ScanUnfolds(norm: seq<string>, skip: seq<string>, i: nat)
    requires i < |norm| && Scan(norm, skip, i).Cleaned?
    ensures !Pass(norm, skip, i).Stop?
    ensures Pass(norm, skip, i).Keep? ==>
      Scan(norm, skip, i).body == [Pass(norm, skip, i).line] + Scan(norm, skip, Pass(norm, skip, i).after).body
    ensures Pass(norm, skip, i).Drop? ==> Scan(norm, skip, i) == Scan(norm, skip, Pass(norm, skip, i).after)
  {
  }

  /** The lines a dropping pass passes over, from `i` to `k`, are accounted
      for: skip lines up to `j`, then a modern header or a completed legacy
      block at `j` (unless the skip list ran to the end). */
  lemma DropAccounted(norm: seq<string>, skip: seq<string>, i: nat, j: nat, k: nat, pos: seq<nat>, ops: set<nat>)
    returns (ops': set<nat>)
    requires DropsOver(norm, skip, i, j, k)
    requires Accounted(norm, skip, k, pos, ops)
    ensures Accounted(norm, skip, i, pos, ops')
  {
    if j < |norm| && !IsModernHeader(norm[j]) {
      AccountedBlock(norm, skip, i, j, k, pos, ops);
      ops' := {j} + ops;
    } else {
      AccountedDrop(norm, skip, i, j, k, pos, ops);
      ops' := ops;
    }
  }

  /** What a pass that drops lines passes over: from `i`, the skip lines up
      to `j`, then (unless they ran to the end) a modern header or a
      completed legacy block; the next pass starts at `k`. */
  ghost predicate DropsOver(norm: seq<string>, skip: seq<string>, i: nat, j: nat, k: nat) {
    && i <= j <= |norm| && (forall p :: i <= p < j ==> norm[p] in skip)
    && (j == |norm| ==> k == |norm|)
    && (j < |norm| && IsModernHeader(norm[j]) ==> k == j + 1)
    && (j < |norm| && !IsModernHeader(norm[j]) ==>
          BlockOpener(norm, skip, j) && ConsumeBlock(norm, skip, j + 1, Markers()) == Matched(k))
  }

  /** Lines 62-93: a pass that drops lines either ran out inside the skip
      list, or dropped a modern header, or dropped a completed legacy
      block. */
  lemma PassDrops(norm: seq<string>, skip: seq<string>, i: nat)
    requires i < |norm| && Pass(norm, skip, i).Drop?
    ensures DropsOver(norm, skip, i, SkipListed(norm, skip, i), Pass(norm, skip, i).after)
  {
  }

  /** Line `j`, reached past the skip lines from `i`, is kept. */
  lemma AccountedKeep(norm: seq<string>, skip: seq<string>, i: nat, j: nat, pos: seq<nat>, ops: set<nat>)
    requires i <= j < |norm| && forall p :: i <= p < j ==> norm[p] in skip
    requires Accounted(norm, skip, j + 1, pos, ops)
    ensures Accounted(norm, skip, i, [j] + pos, ops)
  {
    forall p | i <= p < |norm| && p !in [j] + pos
      ensures norm[p] in skip || IsModernHeader(norm[p]) || exists o :: o in ops && InBlock(norm, skip, o, p)
    {
      assert p !in pos;
    }
  }

  /** Lines `i` up to `k` are skip lines, save a modern header at `j` when
      the skip list did not run to the end. */
  lemma AccountedDrop(norm: seq<string>, skip: seq<string>, i: nat, j: nat, k: nat, pos: seq<nat>, ops: set<nat>)
    requires i <= j <= k <= |norm| && forall p :: i <= p < j ==> norm[p] in skip
    requires j == |norm| ==> k == |norm|
    requires j < |norm| ==> IsModernHeader(norm[j]) && k == j + 1
    requires Accounted(norm, skip, k, pos, ops)
    ensures Accounted(norm, skip, i, pos, ops)
  {
  }

  /** Line `j`, reached past the skip lines from `i`, opens a legacy block
      that completes before `after`; the block is dropped. */
  lemma AccountedBlock(norm: seq<string>, skip: seq<string>, i: nat, j: nat, after: nat, pos: seq<nat>, ops: set<nat>)
    requires i <= j && BlockOpener(norm, skip, j) && forall p :: i <= p < j ==> norm[p] in skip
    requires ConsumeBlock(norm, skip, j + 1, Markers()) == Matched(after)
    requires Accounted(norm, skip, after, pos, ops)
    ensures Accounted(norm, skip, i, pos, {j} + ops)
  {
    forall o | o in {j} + ops
      ensures i <= o && BlockOpener(norm, skip, o)
    {
      if o != j {
        assert after <= o;
      }
    }
    forall p | i <= p < |norm| && p !in pos
      ensures norm[p] in skip || IsModernHeader(norm[p]) || exists o :: o in {j} + ops && InBlock(norm, skip, o, p)
    {
      if j <= p < after {
        assert InBlock(norm, skip, j, p);
      }
    }
  }

  /** Line 95: a kept line is the ordinary line the skip list led to. */
  lemma PassKeeps(norm: seq<string>, skip: seq<string>, i: nat)
    requires i < |norm| && Pass(norm, skip, i).Keep?
    ensures Pass(norm, skip, i).after == SkipListed(norm, skip, i) + 1
    ensures Pass(norm, skip, i).line == norm[SkipListed(norm, skip, i)]
    ensures IsOrdinary(Pass(norm, skip, i).line, skip)
  {
  }

  lemma KeptFromCons(norm: seq<string>, skip: seq<string>, line: string, body: seq<string>,
                     j: nat, pos: seq<nat>, i: nat)
    requires i <= j < |norm| && line == norm[j] && IsOrdinary(line, skip)
    requires KeptFrom(norm, skip, body, pos, j + 1)
    ensures KeptFrom(norm, skip, [line] + body, [j] + pos, i)
  {
  }

  /** A strictly increasing list of positions below `n` has at most `n`
      entries. */
  lemma {:induction false} IncreasingBounded(pos: seq<nat>, lo: nat, n: nat)
    requires forall k :: 0 <= k < |pos| ==> pos[k] < n
    requires lo <= n && (|pos| > 0 ==> lo <= pos[0])
    requires forall k :: 0 < k < |pos| ==> pos[k - 1] < pos[k]
    ensures |pos| + lo <= n
    decreases |pos|
  {
    if pos != [] {
      IncreasingBounded(pos[1..], pos[0] + 1, n);
    }
  }

  /** Lines 55-58 and 95: the output is the normalised input with lines
      left out, in the original order, with no input line used twice; it
      is never longer than the input. Every line left out is in the skip
      list, a modern header, or part of a completed legacy block. */
  lemma OutputIsOrderedSubsequence(lines: seq<string>, skip: seq<string>) returns (pos: seq<nat>, ops: set<nat>)
    requires |lines| > 0 && Recognise(lines, skip).Cleaned?
    ensures |pos| == |Recognise(lines, skip).body| <= |lines|
    ensures forall k :: 0 <= k < |pos| ==>
      pos[k] < |lines| && Recognise(lines, skip).body[k] == Normalise(lines[pos[k]])
    ensures forall k :: 0 < k < |pos| ==> pos[k - 1] < pos[k]
    ensures Accounted(Normalised(lines), skip, 0, pos, ops)
  {
    var norm := Normalised(lines);
    NormalisedLineByLine(lines);
    pos, ops := ScanKeepsOrdinaryLines(norm, skip, 0);
    IncreasingBounded(pos, 0, |lines|);
  }

  /** Lines 58-95: a document that passes the entry check and whose lines
      all normalise to ordinary lines comes back whole, normalised. */
  lemma AllOrdinaryKept(lines: seq<string>, skip: seq<string>)
    requires |lines| > 0 && "UNCLASSIFIED" <= lines[0]
    requires forall k :: 0 <= k < |lines| ==> IsOrdinary(Normalise(lines[k]), skip)
    ensures Recognise(lines, skip) == Cleaned(Normalised(lines))
  {
    TextMatches("UNCLASSIFIED", lines[0]);
    NormalisedLineByLine(lines);
    ScanAllOrdinary(Normalised(lines), skip, 0);
  }

  lemma {:induction false} ScanAllOrdinary(norm: seq<string>, skip: seq<string>, i: nat)
    requires i <= |norm| && forall k :: i <= k < |norm| ==> IsOrdinary(norm[k], skip)
    ensures Scan(norm, skip, i) == Cleaned(norm[i..])
    decreases |norm| - i
  {
    if i < |norm| {
      assert SkipListed(norm, skip, i) == i;
      assert Pass(norm, skip, i) == Keep(norm[i], i + 1);
      ScanAllOrdinary(norm, skip, i + 1);
      assert norm[i..] == [norm[i]] + norm[i + 1..];
    }
  }

  /** Lines 64 and 70-79: no output line is in the skip list, starts like
      the modern header or the Benghazi footer, or is a bare
      `UNCLASSIFIED`. */
  lemma OutputHasNoHeaderLines(lines: seq<string>, skip: seq<string>)
    requires |lines| > 0 && Recognise(lines, skip).Cleaned?
    ensures forall line :: line in Recognise(lines, skip).body ==>
      && line !in skip
      && !MatchesPrefix(ModernHeader(), line)
      && !MatchesPrefix(BenghaziFooter(), line)
      && line != "UNCLASSIFIED"
  {
    var body := Recognise(lines, skip).body;
    var pos, _ := ScanKeepsOrdinaryLines(Normalised(lines), skip, 0);
    forall line | line in body
      ensures IsOrdinary(line, skip)
    {
      var k :| 0 <= k < |body| && body[k] == line;
    }
  }

  /** Line 95: a line that normalises to the empty string is kept as an
      empty line when the outer loop reaches it (the blank is only skipped
      inside a legacy block, line 84). */
  lemma BlankLineKept(norm: seq<string>, skip: seq<string>, i: nat)
    requires i < |norm| && norm[i] == "" && "" !in skip
    ensures Scan(norm, skip, i) == Prepend([""], Scan(norm, skip, i + 1))
  {
    assert SkipListed(norm, skip, i) == i;
    assert !MatchesPrefix(ModernHeader(), "") by {
      assert !FitsText(ModernHeader()[0].text, "");
    }
    assert !MatchesPrefix(BenghaziFooter(), "") by {
      assert !FitsText(BenghaziFooter()[0].text, "");
    }
  }

  // ---------------------------------------------------------------------
  // The quarantine paths

  /** A legacy block that breaks off reports a line after the opening line
      `o` of the block that quarantined the document: the markers before
      marker `m` were found at `found`, and the reported line is the next
      line after them that is neither blank nor in the skip list, and it
      fails marker `m`. */
  lemma {:induction false} ScanQuarantinesLater(norm: seq<string>, skip: seq<string>, i: nat)
    returns (o: nat, m: nat, found: seq<nat>, resume: nat)
    requires i <= |norm| && Scan(norm, skip, i).Quarantined?
    ensures i <= o < Scan(norm, skip, i).line < |norm|
    ensures norm[o] !in skip && !IsModernHeader(norm[o]) && OpensLegacyBlock(norm[o])
    ensures norm[Scan(norm, skip, i).line] !in [""] + skip
    ensures m < |Markers()| && MarkersAt(norm, skip, o + 1, Markers()[..m], found, resume)
    ensures Scan(norm, skip, i).line == NextInBlock(norm, skip, resume)
    ensures !FitsText(Markers()[m], norm[Scan(norm, skip, i).line])
    decreases |norm| - i
  {
    if i == |norm| {
      assert false;
    }
    if Pass(norm, skip, i).Stop? {
      ScanStops(norm, skip, i);
      o := SkipListed(norm, skip, i);
      m, found, resume := PassAtQuarantines(norm, skip, o);
    } else {
      UnfinishedPassesOn(norm, skip, i);
      o, m, found, resume := ScanQuarantinesLater(norm, skip, Pass(norm, skip, i).after);
    }
  }

  /** A pass that keeps or drops lines leaves a quarantine, or running out
      inside a block, to a later pass. */
  lemma UnfinishedPassesOn(norm: seq<string>, skip: seq<string>, i: nat)
    requires i < |norm| && !Scan(norm, skip, i).Cleaned? && !Pass(norm, skip, i).Stop?
    ensures i < Pass(norm, skip, i).after <= |norm|
    ensures Scan(norm, skip, i) == Scan(norm, skip, Pass(norm, skip, i).after)
  {
  }

  /** A pass that quarantines does so inside the legacy block it opened at
      line `j`: at the first line after the markers found so far that is
      neither blank nor in the skip list, which fails the next marker. */
  lemma PassAtQuarantines(norm: seq<string>, skip: seq<string>, j: nat)
    returns (m: nat, found: seq<nat>, resume: nat)
    requires j <= |norm| && PassAt(norm, skip, j).Stop? && PassAt(norm, skip, j).outcome.Quarantined?
    ensures j < PassAt(norm, skip, j).outcome.line < |norm|
    ensures !IsModernHeader(norm[j]) && OpensLegacyBlock(norm[j])
    ensures norm[PassAt(norm, skip, j).outcome.line] !in [""] + skip
    ensures m < |Markers()| && MarkersAt(norm, skip, j + 1, Markers()[..m], found, resume)
    ensures PassAt(norm, skip, j).outcome.line == NextInBlock(norm, skip, resume)
    ensures !FitsText(Markers()[m], norm[PassAt(norm, skip, j).outcome.line])
  {
    m, found, resume := MismatchedMarker(norm, skip, j + 1, Markers());
  }

  /** Lines 87-91: a mismatch is the first line after the markers found so
      far that is neither blank nor skipped, and it fails the marker it was
      compared with. */
  lemma {:induction false} MismatchedMarker(norm: seq<string>, skip: seq<string>, i: nat, markers: seq<string>)
    returns (n: nat, found: seq<nat>, resume: nat)
    requires i <= |norm| && ConsumeBlock(norm, skip, i, markers).Mismatch?
    ensures n < |markers| && MarkersAt(norm, skip, i, markers[..n], found, resume)
    ensures ConsumeBlock(norm, skip, i, markers).at == NextInBlock(norm, skip, resume)
    ensures !FitsText(markers[n], norm[ConsumeBlock(norm, skip, i, markers).at])
    decreases |markers|
  {
    var j := NextInBlock(norm, skip, i);
    assert markers != [] && j < |norm|;
    if FitsText(markers[0], norm[j]) {
      MarkerFits(norm, skip, i, j, markers);
      var n', found', resume' := MismatchedMarker(norm, skip, j + 1, markers[1..]);
      assert markers[..n' + 1][1..] == markers[1..][..n'];
      MarkersAtExtend(norm, skip, i, j, markers[..n' + 1], found', resume');
      n, found, resume := n' + 1, [j] + found', resume';
    } else {
      assert ConsumeBlock(norm, skip, i, markers) == Mismatch(j);
      n, found, resume := 0, [], i;
    }
  }

  /** The converse of `MismatchedMarker`: when the markers before marker `n`
      were found and the next line that is neither blank nor skipped fails
      marker `n`, the block ends in a mismatch at that line. */
  lemma {:induction false} MismatchAfterMarkers(norm: seq<string>, skip: seq<string>, i: nat, markers: seq<string>,
                                                n: nat, found: seq<nat>, resume: nat)
    requires n < |markers| && MarkersAt(norm, skip, i, markers[..n], found, resume)
    requires NextInBlock(norm, skip, resume) < |norm|
    requires !FitsText(markers[n], norm[NextInBlock(norm, skip, resume)])
    ensures ConsumeBlock(norm, skip, i, markers) == Mismatch(NextInBlock(norm, skip, resume))
  {
    FoundInTurnFromMarkersAt(norm, skip, i, markers[..n], found, resume);
    MismatchAfterFoundInTurn(norm, skip, i, markers, n, found, resume);
  }

  lemma {:induction false} MismatchAfterFoundInTurn(norm: seq<string>, skip: seq<string>, i: nat, markers: seq<string>,
                                                    n: nat, found: seq<nat>, resume: nat)
    requires i <= |norm| && n < |markers| && FoundInTurn(norm, skip, i, markers[..n], found, resume)
    requires resume <= |norm| && NextInBlock(norm, skip, resume) < |norm|
    requires !FitsText(markers[n], norm[NextInBlock(norm, skip, resume)])
    ensures ConsumeBlock(norm, skip, i, markers) == Mismatch(NextInBlock(norm, skip, resume))
    decreases n
  {
    if n == 0 {
      assert markers[..n] == [];
    } else {
      assert markers[..n][0] == markers[0] && markers[..n][1..] == markers[1..][..n - 1];
      assert markers[1..][n - 1] == markers[n];
      MismatchAfterFoundInTurn(norm, skip, found[0] + 1, markers[1..], n - 1, found[1..], resume);
      MarkerFits(norm, skip, i, found[0], markers);
    }
  }

  /** A line that fits the marker expected moves the block on to the next
      marker. */
  lemma MarkerFits(norm: seq<string>, skip: seq<string>, i: nat, j: nat, markers: seq<string>)
    requires i <= |norm| && markers != [] && j == NextInBlock(norm, skip, i) && j < |norm|
    requires FitsText(markers[0], norm[j])
    ensures ConsumeBlock(norm, skip, i, markers) == ConsumeBlock(norm, skip, j + 1, markers[1..])
  {
  }

  /** The first of the markers found is the next line that is neither blank
      nor skipped; the others were found after it. */
  lemma FirstMarkerFound(norm: seq<string>, skip: seq<string>, i: nat, markers: seq<string>,
                         n: nat, found: seq<nat>, resume: nat)
    requires 0 < n <= |markers| && MarkersAt(norm, skip, i, markers[..n], found, resume)
    ensures found[0] < |norm| && NextInBlock(norm, skip, i) == found[0]
    ensures FitsText(markers[0], norm[found[0]])
    ensures MarkersAt(norm, skip, found[0] + 1, markers[1..][..n - 1], found[1..], resume)
  {
    NextInBlockIs(norm, skip, i, found[0], markers[..n], found, resume);
    assert markers[..n][0] == markers[0];
    MarkersAtTail(norm, skip, i, markers[..n], found, resume);
    assert markers[..n][1..] == markers[1..][..n - 1];
  }

  /** The first marker found is the next line that is neither blank nor
      skipped. */
  lemma NextInBlockIs(norm: seq<string>, skip: seq<string>, i: nat, j: nat, markers: seq<string>,
                      found: seq<nat>, resume: nat)
    requires MarkersAt(norm, skip, i, markers, found, resume) && found != [] && j == found[0]
    ensures NextInBlock(norm, skip, i) == j
  {
    assert forall p :: i <= p < j ==> p !in found;
    NextInBlockAt(norm, skip, i, j);
  }

  lemma {:induction false} NextInBlockAt(norm: seq<string>, skip: seq<string>, i: nat, j: nat)
    requires i <= j < |norm| && norm[j] !in [""] + skip
    requires forall p :: i <= p < j ==> norm[p] in [""] + skip
    ensures NextInBlock(norm, skip, i) == j
    decreases j - i
  {
    if i < j {
      NextInBlockAt(norm, skip, i + 1, j);
    }
  }

  /** Without its first marker, the rest of a block's markers were found
      from the line after it. */
  lemma MarkersAtTail(norm: seq<string>, skip: seq<string>, i: nat, markers: seq<string>,
                      found: seq<nat>, resume: nat)
    requires MarkersAt(norm, skip, i, markers, found, resume) && found != []
    ensures MarkersAt(norm, skip, found[0] + 1, markers[1..], found[1..], resume)
  {
    var rest := found[1..];
    forall k | 0 <= k < |rest|
      ensures found[0] + 1 <= rest[k] < resume && FitsText(markers[1..][k], norm[rest[k]])
    {
      assert rest[k] == found[k + 1];
    }
    forall p | found[0] + 1 <= p < resume && p !in rest
      ensures norm[p] in [""] + skip
    {
      assert p !in found;
    }
  }

  /** Lines 80-91, seen from the outer loop: a pass that reaches a block
      opener past the skip list, after which the markers before marker `m`
      are found and the next line that is neither blank nor skipped fails
      marker `m`, quarantines the document at that line. */
  lemma QuarantinedAfterMarkers(norm: seq<string>, skip: seq<string>, i: nat, m: nat, found: seq<nat>, resume: nat)
    requires i < |norm| && SkipListed(norm, skip, i) < |norm|
    requires !IsModernHeader(norm[SkipListed(norm, skip, i)]) && OpensLegacyBlock(norm[SkipListed(norm, skip, i)])
    requires m < |Markers()| && MarkersAt(norm, skip, SkipListed(norm, skip, i) + 1, Markers()[..m], found, resume)
    requires NextInBlock(norm, skip, resume) < |norm|
    requires !FitsText(Markers()[m], norm[NextInBlock(norm, skip, resume)])
    ensures Scan(norm, skip, i) == Quarantined(NextInBlock(norm, skip, resume))
  {
    var ms := Markers();
    var j := SkipListed(norm, skip, i) + 1;
    MismatchAfterMarkers(norm, skip, j, ms, m, found, resume);
    BlockMismatchStops(norm, skip, i, j, ms, NextInBlock(norm, skip, resume));
    ScanStops(norm, skip, i);
  }

  /** A pass whose block opener is followed by a mismatch stops there and
      quarantines the document (`ms` stands for `Markers()`). */
  lemma BlockMismatchStops(norm: seq<string>, skip: seq<string>, i: nat, j: nat, ms: seq<string>, at: nat)
    requires i < |norm| && SkipListed(norm, skip, i) < |norm| && j == SkipListed(norm, skip, i) + 1 && ms == Markers()
    requires !IsModernHeader(norm[SkipListed(norm, skip, i)]) && OpensLegacyBlock(norm[SkipListed(norm, skip, i)])
    requires ConsumeBlock(norm, skip, j, ms) == Mismatch(at)
    ensures Pass(norm, skip, i) == Stop(Quarantined(at))
  {
    var o := j - 1;
    assert o == SkipListed(norm, skip, i) && o + 1 == j;
    OpenerPassEnds(norm, skip, i, o, ms, Mismatch(at));
  }

  /** A pass that reaches a block opener past the skip list at line `o`
      ends as the block does (`ms` stands for `Markers()`). */
  lemma OpenerPassEnds(norm: seq<string>, skip: seq<string>, i: nat, o: nat, ms: seq<string>, b: BlockEnd)
    requires i < |norm| && o == SkipListed(norm, skip, i) && o < |norm| && ms == Markers()
    requires !IsModernHeader(norm[o]) && OpensLegacyBlock(norm[o])
    requires ConsumeBlock(norm, skip, o + 1, ms) == b
    ensures Pass(norm, skip, i) == AfterBlock(b)
  {
    assert PassAt(norm, skip, o) == AfterBlock(b);
  }

  // ---------------------------------------------------------------------
  // Running out inside a legacy block

  /** Line `o` opens a legacy block that the skip list lets through, and the
      block's markers run past the end of the document. */
  ghost predicate BlockRunsOut(norm: seq<string>, skip: seq<string>, o: nat) {
    && o < |norm|
    && norm[o] !in skip && !IsModernHeader(norm[o]) && OpensLegacyBlock(norm[o])
    && ConsumeBlock(norm, skip, o + 1, Markers()) == Exhausted
  }

  /** Lines 80-86: a document that raises out of the function does so in a
      legacy block opened at line `o`, at or after the scan's start, whose
      markers were still being looked for when the document ended. */
  lemma {:induction false} ScanRunsOutLater(norm: seq<string>, skip: seq<string>, i: nat) returns (o: nat)
    requires i <= |norm| && Scan(norm, skip, i).RanOutInBlock?
    ensures i <= o && BlockRunsOut(norm, skip, o)
    decreases |norm| - i
  {
    if i == |norm| {
      assert false;
    }
    if Pass(norm, skip, i).Stop? {
      o := PassRunsOut(norm, skip, i);
    } else {
      UnfinishedPassesOn(norm, skip, i);
      o := ScanRunsOutLater(norm, skip, Pass(norm, skip, i).after);
    }
  }

  /** A pass that raises has a block opener at the line the skip list
      leaves it at, and the block's markers run past the end of the
      document. */
  lemma PassRunsOut(norm: seq<string>, skip: seq<string>, i: nat) returns (o: nat)
    requires i < |norm| && Scan(norm, skip, i).RanOutInBlock? && Pass(norm, skip, i).Stop?
    ensures o == SkipListed(norm, skip, i) && i <= o && BlockRunsOut(norm, skip, o)
  {
    ScanStops(norm, skip, i);
    o := SkipListed(norm, skip, i);
    PassAtRunsOut(norm, skip, o);
  }

  /** A pass that raises has a block opener at its line, and the block's
      markers run past the end of the document. */
  lemma PassAtRunsOut(norm: seq<string>, skip: seq<string>, j: nat)
    requires j <= |norm| && PassAt(norm, skip, j) == Stop(RanOutInBlock)
    ensures j < |norm| && !IsModernHeader(norm[j]) && OpensLegacyBlock(norm[j])
    ensures ConsumeBlock(norm, skip, j + 1, Markers()) == Exhausted
  {
  }

  /** The converse of `ScanRunsOutLater`: a pass that reaches a block opener
      past the skip list, whose markers run past the end of the document,
      raises. */
  lemma RanOutAfterOpener(norm: seq<string>, skip: seq<string>, i: nat)
    requires i < |norm| && SkipListed(norm, skip, i) < |norm|
    requires !IsModernHeader(norm[SkipListed(norm, skip, i)]) && OpensLegacyBlock(norm[SkipListed(norm, skip, i)])
    requires ConsumeBlock(norm, skip, SkipListed(norm, skip, i) + 1, Markers()).Exhausted?
    ensures Scan(norm, skip, i) == RanOutInBlock
  {
    BlockExhaustedStops(norm, skip, i, SkipListed(norm, skip, i), Markers());
    ScanStops(norm, skip, i);
  }

  /** A pass whose block opener is followed by the end of the document
      stops there and raises (`ms` stands for `Markers()`). */
  lemma BlockExhaustedStops(norm: seq<string>, skip: seq<string>, i: nat, o: nat, ms: seq<string>)
    requires i < |norm| && o == SkipListed(norm, skip, i) && o < |norm| && ms == Markers()
    requires !IsModernHeader(norm[o]) && OpensLegacyBlock(norm[o])
    requires ConsumeBlock(norm, skip, o + 1, ms) == Exhausted
    ensures Pass(norm, skip, i) == Stop(RanOutInBlock)
  {
    OpenerPassEnds(norm, skip, i, o, ms, Exhausted);
  }

  /** A pass that stops ends the scan with its outcome. */
  lemma ScanStops(norm: seq<string>, skip: seq<string>, i: nat)
    requires i < |norm| && Pass(norm, skip, i).Stop?
    ensures Scan(norm, skip, i) == Pass(norm, skip, i).outcome
  {
  }

  /** Lines 47-51: the document is quarantined at line 0 exactly when its
      raw first line does not start with `UNCLASSIFIED`, whatever follows;
      the caller then gets `[]`. */
  lemma EntryCheck(lines: seq<string>, skip: seq<string>)
    requires |lines| > 0
    ensures Recognise(lines, skip) == Quarantined(0) <==> !("UNCLASSIFIED" <= lines[0])
    ensures !("UNCLASSIFIED" <= lines[0]) ==> Recognise(lines, skip).Returned() == []
  {
    TextMatches("UNCLASSIFIED", lines[0]);
    if "UNCLASSIFIED" <= lines[0] && Recognise(lines, skip).Quarantined? {
      var _, _, _, _ := ScanQuarantinesLater(Normalised(lines), skip, 0);
    }
  }

  // ---------------------------------------------------------------------
  // Legacy blocks

  /** The markers were found at positions `at`, in order on increasing
      lines from `i` on, the last one just before `after` (with no markers,
      `after` is `i`); every other line in between is blank or in the skip
      list. */
  ghost predicate MarkersAt(norm: seq<string>, skip: seq<string>, i: nat, markers: seq<string>,
                            at: seq<nat>, after: nat)
  {
    && i <= after <= |norm|
    && |at| == |markers|
    && (forall k :: 0 <= k < |at| ==>
          i <= at[k] < after && norm[at[k]] !in [""] + skip && FitsText(markers[k], norm[at[k]]))
    && (forall k, l :: 0 <= k < l < |at| ==> at[k] < at[l])
    && (if |at| > 0 then at[|at| - 1] + 1 == after else after == i)
    && (forall p :: i <= p < after && p !in at ==> norm[p] in [""] + skip)
  }

  /** Lines 80-92: a legacy block that completes has found the four markers
      in order on increasing lines, each the next line that is neither blank
      nor in the skip list; every other line it passed over is blank or in
      the skip list, and scanning resumes just after the `Date` line. */
  lemma {:induction false} MatchedBlockShape(norm: seq<string>, skip: seq<string>, i: nat, markers: seq<string>)
    returns (at: seq<nat>)
    requires i <= |norm| && ConsumeBlock(norm, skip, i, markers).Matched?
    ensures MarkersAt(norm, skip, i, markers, at, ConsumeBlock(norm, skip, i, markers).after)
    decreases |markers|
  {
    if markers == [] {
      return [];
    }
    var j := NextInBlock(norm, skip, i);
    var after := ConsumeBlock(norm, skip, i, markers).after;
    assert j < |norm| && FitsText(markers[0], norm[j]);
    assert ConsumeBlock(norm, skip, j + 1, markers[1..]).after == after;
    var rest := MatchedBlockShape(norm, skip, j + 1, markers[1..]);
    MarkersAtExtend(norm, skip, i, j, markers, rest, after);
    at := [j] + rest;
  }

  /** One more marker, found at `j` past blank and skipped lines. */
  lemma MarkersAtExtend(norm: seq<string>, skip: seq<string>, i: nat, j: nat, markers: seq<string>,
                        rest: seq<nat>, after: nat)
    requires i <= j < |norm| && markers != [] && norm[j] !in [""] + skip
    requires forall k :: i <= k < j ==> norm[k] in [""] + skip
    requires FitsText(markers[0], norm[j])
    requires MarkersAt(norm, skip, j + 1, markers[1..], rest, after)
    ensures MarkersAt(norm, skip, i, markers, [j] + rest, after)
  {
    var at := [j] + rest;
    forall k | 0 <= k < |at|
      ensures i <= at[k] < after && norm[at[k]] !in [""] + skip && FitsText(markers[k], norm[at[k]])
    {
      if k > 0 {
        assert at[k] == rest[k - 1] && markers[k] == markers[1..][k - 1];
      }
    }
    forall p | i <= p < after && p !in at
      ensures norm[p] in [""] + skip
    {
      if p > j {
        assert p !in rest;
      }
    }
  }

  /** The converse of `MatchedBlockShape`: when the markers were found in
      order, each the next line that is neither blank nor skipped, the block
      completes and scanning resumes just after the last of them. */
  lemma MatchAfterMarkers(norm: seq<string>, skip: seq<string>, i: nat, markers: seq<string>,
                          at: seq<nat>, after: nat)
    requires MarkersAt(norm, skip, i, markers, at, after)
    ensures ConsumeBlock(norm, skip, i, markers) == Matched(after)
  {
    FoundInTurnFromMarkersAt(norm, skip, i, markers, at, after);
    MatchAfterFoundInTurn(norm, skip, i, markers, at, after);
  }

  /** `MarkersAt` read marker by marker: each marker is found on the next
      line that is neither blank nor skipped, and the rest follow it. */
  ghost predicate FoundInTurn(norm: seq<string>, skip: seq<string>, i: nat, markers: seq<string>,
                              at: seq<nat>, after: nat)
    requires i <= |norm|
    decreases |markers|
  {
    if markers == [] then at == [] && after == i
    else
      && at != []
      && at[0] == NextInBlock(norm, skip, i) && at[0] < |norm|
      && FitsText(markers[0], norm[at[0]])
      && FoundInTurn(norm, skip, at[0] + 1, markers[1..], at[1..], after)
  }

  lemma {:induction false} FoundInTurnFromMarkersAt(norm: seq<string>, skip: seq<string>, i: nat,
                                                    markers: seq<string>, at: seq<nat>, after: nat)
    requires MarkersAt(norm, skip, i, markers, at, after)
    ensures FoundInTurn(norm, skip, i, markers, at, after)
    decreases |markers|
  {
    if markers != [] {
      assert at[0] < |norm| && NextInBlock(norm, skip, i) == at[0] && FitsText(markers[0], norm[at[0]])
        && MarkersAt(norm, skip, at[0] + 1, markers[1..], at[1..], after) by {
        AllMarkersFound(norm, skip, i, markers, at, after);
      }
      FoundInTurnFromMarkersAt(norm, skip, at[0] + 1, markers[1..], at[1..], after);
    }
  }

  lemma {:induction false} MatchAfterFoundInTurn(norm: seq<string>, skip: seq<string>, i: nat,
                                                 markers: seq<string>, at: seq<nat>, after: nat)
    requires i <= |norm| && FoundInTurn(norm, skip, i, markers, at, after)
    ensures ConsumeBlock(norm, skip, i, markers) == Matched(after)
    decreases |markers|
  {
    if markers != [] {
      MatchAfterFoundInTurn(norm, skip, at[0] + 1, markers[1..], at[1..], after);
      MarkerFits(norm, skip, i, at[0], markers);
    }
  }

  /** The first of the markers found is the next line that is neither blank
      nor skipped, and the rest were all found after it. */
  lemma AllMarkersFound(norm: seq<string>, skip: seq<string>, i: nat, markers: seq<string>,
                        at: seq<nat>, after: nat)
    requires markers != [] && MarkersAt(norm, skip, i, markers, at, after)
    ensures at[0] < |norm| && NextInBlock(norm, skip, i) == at[0]
    ensures FitsText(markers[0], norm[at[0]])
    ensures MarkersAt(norm, skip, at[0] + 1, markers[1..], at[1..], after)
  {
    NextInBlockIs(norm, skip, i, at[0], markers, at, after);
    MarkersAtTail(norm, skip, i, markers, at, after);
  }

  /** Lines 80-92, seen from the outer loop: a pass that reaches a block
      opener past the skip list, after which the four markers are found in
      order, drops the whole block and the scan goes on just after the
      `Date` line. */
  lemma DroppedAfterMarkers(norm: seq<string>, skip: seq<string>, i: nat, at: seq<nat>, after: nat)
    requires i < |norm| && SkipListed(norm, skip, i) < |norm|
    requires !IsModernHeader(norm[SkipListed(norm, skip, i)]) && OpensLegacyBlock(norm[SkipListed(norm, skip, i)])
    requires MarkersAt(norm, skip, SkipListed(norm, skip, i) + 1, Markers(), at, after)
    ensures i < after <= |norm|
    ensures Scan(norm, skip, i) == Scan(norm, skip, after)
  {
    var ms := Markers();
    var j := SkipListed(norm, skip, i) + 1;
    MatchAfterMarkers(norm, skip, j, ms, at, after);
    BlockDropsPass(norm, skip, i, j, ms, after);
    ScanDrops(norm, skip, i, after);
  }

  /** A pass whose block opener is followed by a completed block drops
      it (`ms` stands for `Markers()`). */
  lemma BlockDropsPass(norm: seq<string>, skip: seq<string>, i: nat, j: nat, ms: seq<string>, after: nat)
    requires i < |norm| && SkipListed(norm, skip, i) < |norm| && j == SkipListed(norm, skip, i) + 1 && ms == Markers()
    requires !IsModernHeader(norm[SkipListed(norm, skip, i)]) && OpensLegacyBlock(norm[SkipListed(norm, skip, i)])
    requires ConsumeBlock(norm, skip, j, ms) == Matched(after)
    ensures Pass(norm, skip, i) == Drop(after)
  {
    var o := j - 1;
    assert o == SkipListed(norm, skip, i) && o + 1 == j;
    OpenerPassEnds(norm, skip, i, o, ms, Matched(after));
  }

  /** A pass that drops lines leaves the rest to the scan after them. */
  lemma ScanDrops(norm: seq<string>, skip: seq<string>, i: nat, after: nat)
    requires i < |norm| && Pass(norm, skip, i) == Drop(after)
    ensures i < after <= |norm|
    ensures Scan(norm, skip, i) == Scan(norm, skip, after)
  {
  }

  // ---------------------------------------------------------------------
  // Running out of input

  /** Lines 62-67: running out of input while skipping skip-list lines ends
      the loop normally. Appending lines that all normalise into the skip
      list changes nothing. */
  lemma TrailingSkipLinesChangeNothing(lines: seq<string>, tail: seq<string>, skip: seq<string>)
    requires |lines| > 0
    requires forall k :: 0 <= k < |tail| ==> Normalise(tail[k]) in skip
    ensures Recognise(lines + tail, skip) == Recognise(lines, skip)
  {
    var norm, rest := Normalised(lines), Normalised(tail);
    NormalisedAppend(lines, tail);
    NormalisedLineByLine(tail);
    assert forall t :: t in rest ==> t in skip;
    ScanIgnoresSkippedTail(norm, rest, skip, 0);
    assert (lines + tail)[0] == lines[0];
  }

  lemma {:induction false} SkipListedIgnoresTail(norm: seq<string>, tail: seq<string>, skip: seq<string>, i: nat)
    requires i <= |norm| && forall t :: t in tail ==> t in skip
    ensures SkipListed(norm + tail, skip, i) ==
      if SkipListed(norm, skip, i) == |norm| then |norm + tail| else SkipListed(norm, skip, i)
    decreases |norm| - i
  {
    var ext := norm + tail;
    if i == |norm| {
      SkippedTail(norm, tail, skip, [], i);
    } else {
      assert ext[i] == norm[i];
      if norm[i] in skip {
        SkipListedIgnoresTail(norm, tail, skip, i + 1);
      }
    }
  }

  lemma {:induction false} NextInBlockIgnoresTail(norm: seq<string>, tail: seq<string>, skip: seq<string>, i: nat)
    requires i <= |norm| && forall t :: t in tail ==> t in skip
    ensures NextInBlock(norm + tail, skip, i) ==
      if NextInBlock(norm, skip, i) == |norm| then |norm + tail| else NextInBlock(norm, skip, i)
    decreases |norm| - i
  {
    var ext := norm + tail;
    if i == |norm| {
      SkippedTail(norm, tail, skip, [""], i);
    } else {
      assert ext[i] == norm[i];
      if norm[i] in [""] + skip {
        NextInBlockIgnoresTail(norm, tail, skip, i + 1);
      }
    }
  }

  /** From the end of `norm` on, every line of `norm + tail` is skipped. */
  lemma {:induction false} SkippedTail(norm: seq<string>, tail: seq<string>, skip: seq<string>, extra: seq<string>, i: nat)
    requires |norm| <= i <= |norm + tail| && forall t :: t in tail ==> t in skip
    requires extra == [] || extra == [""]
    ensures extra == [] ==> SkipListed(norm + tail, skip, i) == |norm + tail|
    ensures extra == [""] ==> NextInBlock(norm + tail, skip, i) == |norm + tail|
    decreases |norm + tail| - i
  {
    var ext := norm + tail;
    if i < |ext| {
      assert ext[i] == tail[i - |norm|] && tail[i - |norm|] in tail;
      SkippedTail(norm, tail, skip, extra, i + 1);
    }
  }

  lemma {:induction false} ConsumeBlockIgnoresTail(norm: seq<string>, tail: seq<string>, skip: seq<string>, i: nat, markers: seq<string>)
    requires i <= |norm| && forall t :: t in tail ==> t in skip
    ensures ConsumeBlock(norm + tail, skip, i, markers) == ConsumeBlock(norm, skip, i, markers)
    decreases |markers|
  {
    if markers != [] {
      var ext := norm + tail;
      var j := NextInBlock(norm, skip, i);
      NextInBlockIgnoresTail(norm, tail, skip, i);
      if j < |norm| {
        assert ext[j] == norm[j];
        ConsumeBlockIgnoresTail(norm, tail, skip, j + 1, markers[1..]);
        assert FitsText(markers[0], ext[j]) == FitsText(markers[0], norm[j]);
      }
    }
  }

  /** The lines of `tail` are all skipped: past the end of `norm`, the
      outer loop drops the rest of `norm + tail` in one pass. */
  lemma ScanAtSkippedTail(norm: seq<string>, tail: seq<string>, skip: seq<string>)
    requires forall t :: t in tail ==> t in skip
    ensures Scan(norm + tail, skip, |norm|) == Cleaned([])
  {
    var ext := norm + tail;
    if |norm| < |ext| {
      SkippedTail(norm, tail, skip, [], |norm|);
      assert Pass(ext, skip, |norm|) == Drop(|ext|);
    }
  }

  /** A pass that finds a line of `norm` past the skip list does the same
      in `norm + tail`; one that runs off the end of `norm` drops the whole
      rest of `norm + tail`. */
  lemma PassIgnoresSkippedTail(norm: seq<string>, tail: seq<string>, skip: seq<string>, i: nat)
    requires i < |norm| && forall t :: t in tail ==> t in skip
    ensures SkipListed(norm, skip, i) < |norm| ==> Pass(norm + tail, skip, i) == Pass(norm, skip, i)
    ensures SkipListed(norm, skip, i) == |norm| ==>
      Pass(norm + tail, skip, i) == Drop(|norm + tail|) && Pass(norm, skip, i) == Drop(|norm|)
  {
    SkipListedIgnoresTail(norm, tail, skip, i);
    if SkipListed(norm, skip, i) < |norm| {
      PassAtIgnoresTail(norm, tail, skip, SkipListed(norm, skip, i));
    }
  }

  /** Once past the skip list, a pass inside `norm` reads the same lines in
      `norm + tail`. */
  lemma PassAtIgnoresTail(norm: seq<string>, tail: seq<string>, skip: seq<string>, j: nat)
    requires j < |norm| && forall t :: t in tail ==> t in skip
    ensures PassAt(norm + tail, skip, j) == PassAt(norm, skip, j)
  {
    assert (norm + tail)[j] == norm[j];
    ConsumeBlockIgnoresTail(norm, tail, skip, j + 1, Markers());
    SamePass(norm + tail, norm, skip, j);
  }

  lemma {:induction false} ScanIgnoresSkippedTail(norm: seq<string>, tail: seq<string>, skip: seq<string>, i: nat)
    requires i <= |norm| && forall k :: 0 <= k < |tail| ==> tail[k] in skip
    ensures Scan(norm + tail, skip, i) == Scan(norm, skip, i)
    decreases |norm| - i
  {
    assert forall t :: t in tail ==> t in skip;
    if i == |norm| {
      ScanAtSkippedTail(norm, tail, skip);
    } else {
      PassIgnoresSkippedTail(norm, tail, skip, i);
      if SkipListed(norm, skip, i) == |norm| {
        ScanAtSkippedTail(norm, tail, skip);
      } else {
        match Pass(norm, skip, i)
        case Keep(_, k) =>
          ScanIgnoresSkippedTail(norm, tail, skip, k);
        case Drop(k) =>
          ScanIgnoresSkippedTail(norm, tail, skip, k);
        case Stop(_) =>
      }
    }
  }

  /** What the outer loop does at a line depends only on the line and on
      how a legacy block after it ends. */
  lemma SamePass(a: seq<string>, b: seq<string>, skip: seq<string>, j: nat)
    requires j < |a| && j < |b| && a[j] == b[j]
    requires ConsumeBlock(a, skip, j + 1, Markers()) == ConsumeBlock(b, skip, j + 1, Markers())
    ensures PassAt(a, skip, j) == PassAt(b, skip, j)
  {
  }
}
