/** The block of guidance text that `camp init` keeps inside a document, between two markers. */
module Guidance {
  import opened Wrappers
  import opened Text

  const BLANK_LINE := "\n\n"

  // ---------- Search ----------

  function FindFrom(s: string, part: string, i: nat): (k: Option<nat>)
    requires i <= |s|
    ensures k.Some? ==> At(s, part, k.value)
    decreases |s| - i
  {
    if At(s, part, i) then Some(i)
    else if i == |s| then None
    else FindFrom(s, part, i + 1)
  }

  /** The leftmost occurrence. */
  function Find(s: string, part: string): (k: Option<nat>)
    ensures k.Some? ==> At(s, part, k.value)
  {
    FindFrom(s, part, 0)
  }

  predicate AbsentBefore(s: string, part: string, k: nat) {
    forall i :: 0 <= i < k ==> !At(s, part, i)
  }

  predicate FirstAt(s: string, part: string, k: nat) {
    At(s, part, k) && AbsentBefore(s, part, k)
  }

  predicate Absent(s: string, part: string) {
    AbsentBefore(s, part, |s| + 1)
  }

  lemma {:induction false} FindFromMeaning(s: string, part: string, i: nat)
    requires i <= |s| && AbsentBefore(s, part, i)
    ensures FindFrom(s, part, i).Some? ==> FirstAt(s, part, FindFrom(s, part, i).value)
    ensures FindFrom(s, part, i).None? ==> Absent(s, part)
    decreases |s| - i
  {
    if !At(s, part, i) && i < |s| {
      FindFromMeaning(s, part, i + 1);
    }
  }

  /** A search gives the first occurrence, and none exactly when there is none. */
  lemma FindMeaning(s: string, part: string)
    ensures Find(s, part).Some? ==> FirstAt(s, part, Find(s, part).value)
    ensures Find(s, part).None? ==> Absent(s, part)
  {
    FindFromMeaning(s, part, 0);
  }

  lemma FirstIsFound(s: string, part: string, k: nat)
    requires FirstAt(s, part, k)
    ensures Find(s, part) == Some(k)
  {
    FindMeaning(s, part);
  }

  // ---------- Replacing the block ----------

  predicate HasPair(existing: string, start: string, end: string) {
    && Find(existing, start).Some? && Find(existing, end).Some?
    && Find(existing, start).value <= Find(existing, end).value
  }

  function ReplaceMarkedBlock(existing: string, start: string, end: string, replacement: string): string {
    var block := TrimEnd(replacement);
    if HasPair(existing, start, end) then
      var before := TrimEnd(existing[..Find(existing, start).value]);
      var after := TrimStart(existing[Find(existing, end).value + |end|..]);
      if before == [] && after == [] then block + "\n"
      else if before == [] then block + BLANK_LINE + after + "\n"
      else if after == [] then before + BLANK_LINE + block + "\n"
      else before + BLANK_LINE + block + BLANK_LINE + after + "\n"
    else if Blank(existing) then block + "\n"
    else TrimEnd(existing) + BLANK_LINE + block + "\n"
  }

  // ---------- Documents and blocks the law is about ----------

  /** A marker stays on one line and begins and ends with something visible. */
  predicate IsMarker(marker: string) {
    Clean(marker) && '\n' !in marker
  }

  /** The text begins with the start marker, and its first end marker closes it. */
  predicate IsBlock(block: string, start: string, end: string) {
    && |end| <= |block|
    && FirstAt(block, start, 0)
    && FirstAt(block, end, |block| - |end|)
  }

  /** What the two markers enclose is a block unless the end marker shows up early. */
  lemma EnclosedIsBlock(start: string, body: string, end: string)
    ensures IsBlock(start + body + end, start, end) <==> AbsentBefore(start + body + end, end, |start| + |body|)
  {
    var block := start + body + end;
    assert block[0..|start|] == start;
    assert block[|start| + |body|..|block|] == end;
  }

  const GUIDANCE_START := "<!-- CAMP:START -->"
  const GUIDANCE_END := "<!-- CAMP:END -->"

  /** Markers that open with a character found nowhere else in the start marker or the body, and
      differ in one place, enclose a block. */
  lemma DistinctMarkersEnclose(start: string, body: string, end: string, k: nat)
    requires 0 < k < |start| && k < |end| && start[k] != end[k]
    requires end[0] !in start[1..] && end[0] !in body
    ensures IsBlock(start + body + end, start, end)
  {
  }

  lemma GuidanceMarkers()
    ensures IsMarker(GUIDANCE_START) && IsMarker(GUIDANCE_END)
    ensures GUIDANCE_END[0] == '<' && '<' !in GUIDANCE_START[1..]
  {
  }

  /** The two markers of the guidance text enclose a block whatever stands between them without
      an angle bracket. */
  lemma GuidanceIsBlock(body: string)
    requires '<' !in body
    ensures IsMarker(GUIDANCE_START) && IsMarker(GUIDANCE_END)
    ensures IsBlock(GUIDANCE_START + body + GUIDANCE_END, GUIDANCE_START, GUIDANCE_END)
  {
    GuidanceMarkers();
    DistinctMarkersEnclose(GUIDANCE_START, body, GUIDANCE_END, 10);
  }

  /** The document has no marker, or its first start comes before its first end. */
  predicate WellMarked(existing: string, start: string, end: string) {
    || (Find(existing, start).None? && Find(existing, end).None?)
    || HasPair(existing, start, end)
  }

  /** What the document has before and after its block; all of it is before when there is none. */
  function Before(existing: string, start: string, end: string): (t: string)
    ensures t != [] ==> !IsSpace(t[|t| - 1])
  {
    if HasPair(existing, start, end) then TrimEnd(existing[..Find(existing, start).value]) else TrimEnd(existing)
  }

  function After(existing: string, start: string, end: string): (t: string)
    ensures t != [] ==> !IsSpace(t[0])
  {
    if HasPair(existing, start, end) then TrimStart(existing[Find(existing, end).value + |end|..]) else []
  }

  /** The text from the start marker to the end marker. */
  function OldBlock(existing: string, start: string, end: string): string {
    if HasPair(existing, start, end)
    then existing[Find(existing, start).value..Find(existing, end).value + |end|]
    else []
  }

  /** What stands in front of the block of a document, and behind it. */
  function Lead(before: string): string {
    if before == [] then [] else before + BLANK_LINE
  }

  function Trail(after: string): string {
    if after == [] then "\n" else BLANK_LINE + after + "\n"
  }

  function Assemble(before: string, block: string, after: string): string {
    Lead(before) + block + Trail(after)
  }

  lemma TrimEndOfBlank(s: string)
    ensures Blank(s) <==> TrimEnd(s) == []
  {
    BlankIsAllSpace(s);
    if AllSpace(s) {
      assert [] + s == s;
      TrimEndOfPadded([], s);
    }
    TrimEndCuts(s);
    if TrimEnd(s) == [] {
      assert s[0..] == s;
    }
  }

  lemma AssembleInFull(before: string, block: string, after: string)
    ensures before == [] && after == [] ==> Assemble(before, block, after) == block + "\n"
    ensures before == [] && after != [] ==> Assemble(before, block, after) == block + BLANK_LINE + after + "\n"
    ensures before != [] && after == [] ==> Assemble(before, block, after) == before + BLANK_LINE + block + "\n"
    ensures before != [] && after != [] ==>
              Assemble(before, block, after) == before + BLANK_LINE + block + BLANK_LINE + after + "\n"
  {
  }

  /** One run puts the block between what was before and what was after the old one. */
  lemma OneRun(existing: string, start: string, end: string, replacement: string)
    ensures ReplaceMarkedBlock(existing, start, end, replacement)
            == Assemble(Before(existing, start, end), TrimEnd(replacement), After(existing, start, end))
  {
    TrimEndOfBlank(existing);
    AssembleInFull(Before(existing, start, end), TrimEnd(replacement), After(existing, start, end));
  }

  lemma CutInThree(s: string, i: nat, j: nat)
    requires i <= j <= |s|
    ensures s == s[..i] + s[i..j] + s[j..]
  {
  }

  /** A run keeps all text outside the old block but white space next to it: the old document is
      what the new one has before the block, white space, the old block if there was one, white
      space, and what the new one has after the block. */
  lemma OutsideSurvives(existing: string, start: string, end: string)
    ensures exists v, w :: AllSpace(v) && AllSpace(w)
              && existing == Before(existing, start, end) + v + OldBlock(existing, start, end) + w
                             + After(existing, start, end)
  {
    var before, after := Before(existing, start, end), After(existing, start, end);
    if HasPair(existing, start, end) {
      var i, j := Find(existing, start).value, Find(existing, end).value + |end|;
      CutInThree(existing, i, j);
      SurvivesAround(existing[..i], existing[i..j], existing[j..]);
    } else {
      SurvivesAround(existing, [], []);
      assert existing + [] + [] == existing;
    }
  }

  lemma SurvivesAround(head: string, block: string, tail: string)
    ensures exists v, w :: AllSpace(v) && AllSpace(w)
              && head + block + tail == TrimEnd(head) + v + block + w + TrimStart(tail)
  {
    TrimEndCuts(head);
    TrimStartCuts(tail);
    var v, w := head[|TrimEnd(head)|..], tail[..|tail| - |TrimStart(tail)|];
    assert head + block + tail == head + block + (w + TrimStart(tail));
    assert head + block + (w + TrimStart(tail)) == head + block + w + TrimStart(tail);
  }

  // ---------- Markers in the assembled document ----------

  lemma FirstInFront(block: string, tail: string, marker: string, k: nat)
    requires FirstAt(block, marker, k)
    ensures FirstAt(block + tail, marker, k)
  {
    var all := block + tail;
    assert all[k..k + |marker|] == block[k..k + |marker|];
    forall i | 0 <= i < k ensures !At(all, marker, i) {
      assert all[i..i + |marker|] == block[i..i + |marker|];
      assert !At(block, marker, i);
    }
  }

  lemma AtMeansEqual(s: string, part: string, i: nat, j: nat)
    requires j < |part|
    ensures At(s, part, i) ==> part[j] == s[i + j]
  {
  }

  /** A marker stays on one line, so one that begins before the blank line also ends before it. */
  lemma NotAcrossBlankLine(before: string, rest: string, marker: string, i: nat)
    requires '\n' !in marker && marker != [] && i < |before| + 2
    ensures At(before + BLANK_LINE + rest, marker, i) ==> At(before, marker, i)
  {
    var all := before + BLANK_LINE + rest;
    var b, m := |before|, |marker|;
    if i < b && b < i + m {
      AtMeansEqual(all, marker, i, b - i);
    } else if b <= i {
      AtMeansEqual(all, marker, i, 0);
    } else if i + m <= b {
      assert all[i..i + m] == before[i..i + m];
    }
  }

  lemma BehindBlankLine(before: string, rest: string, marker: string, i: nat)
    ensures At(before + BLANK_LINE + rest, marker, |before| + 2 + i) <==> At(rest, marker, i)
  {
  }

  lemma FirstBehindBlankLine(before: string, rest: string, marker: string, k: nat)
    requires Absent(before, marker) && '\n' !in marker && marker != []
    requires FirstAt(rest, marker, k)
    ensures FirstAt(before + BLANK_LINE + rest, marker, |before| + 2 + k)
  {
    var all := before + BLANK_LINE + rest;
    var lead := |before| + 2;
    BehindBlankLine(before, rest, marker, k);
    forall i | 0 <= i < lead + k ensures !At(all, marker, i) {
      if i < lead {
        NotAcrossBlankLine(before, rest, marker, i);
      } else {
        BehindBlankLine(before, rest, marker, i - lead);
      }
    }
  }

  lemma AbsentInPrefix(existing: string, marker: string, k: nat, n: nat)
    requires marker != [] && AbsentBefore(existing, marker, k) && n <= k && n <= |existing|
    ensures Absent(existing[..n], marker)
  {
    var prefix := existing[..n];
    forall i | 0 <= i < |prefix| + 1 ensures !At(prefix, marker, i) {
      if At(prefix, marker, i) {
        assert existing[i..i + |marker|] == prefix[i..i + |marker|];
        assert At(existing, marker, i);
      }
    }
  }

  lemma TrimEndIsPrefix(s: string)
    ensures TrimEnd(s) == s[..|TrimEnd(s)|]
  {
  }

  lemma BeforeHasNoMarker(existing: string, start: string, end: string)
    requires IsMarker(start) && IsMarker(end) && WellMarked(existing, start, end)
    ensures Absent(Before(existing, start, end), start) && Absent(Before(existing, start, end), end)
  {
    FindMeaning(existing, start);
    FindMeaning(existing, end);
    var n := |Before(existing, start, end)|;
    if HasPair(existing, start, end) {
      var i := Find(existing, start).value;
      TrimEndIsPrefix(existing[..i]);
      assert existing[..i][..n] == existing[..n];
      AbsentInPrefix(existing, start, i, n);
      AbsentInPrefix(existing, end, i, n);
    } else {
      TrimEndIsPrefix(existing);
      AbsentInPrefix(existing, start, |existing| + 1, n);
      AbsentInPrefix(existing, end, |existing| + 1, n);
    }
  }

  lemma FoundInAssembled(before: string, block: string, after: string, marker: string, k: nat)
    requires IsMarker(marker) && Absent(before, marker) && FirstAt(block, marker, k)
    ensures Find(Assemble(before, block, after), marker) == Some(|Lead(before)| + k)
  {
    FirstInFront(block, Trail(after), marker, k);
    var rest := block + Trail(after);
    assert Lead(before) + block + Trail(after) == Lead(before) + rest;
    if before == [] {
      assert [] + rest == rest;
    } else {
      FirstBehindBlankLine(before, rest, marker, k);
    }
    FirstIsFound(Assemble(before, block, after), marker, |Lead(before)| + k);
  }

  /** Where the two markers are found in an assembled document. */
  lemma MarkersInAssembled(before: string, block: string, after: string, start: string, end: string)
    requires IsMarker(start) && IsMarker(end) && IsBlock(block, start, end)
    requires Absent(before, start) && Absent(before, end)
    ensures Find(Assemble(before, block, after), start) == Some(|Lead(before)|)
    ensures Find(Assemble(before, block, after), end) == Some(|Lead(before)| + (|block| - |end|))
  {
    FoundInAssembled(before, block, after, start, 0);
    FoundInAssembled(before, block, after, end, |block| - |end|);
  }

  lemma TrimEndOfLead(before: string)
    requires before != [] ==> !IsSpace(before[|before| - 1])
    ensures TrimEnd(Lead(before)) == before
  {
    if before != [] {
      TrimEndOfPadded(before, BLANK_LINE);
    }
  }

  lemma TrimStartOfTrail(after: string)
    requires after != [] ==> !IsSpace(after[0])
    ensures TrimStart(Trail(after)) == (if after == [] then [] else after + "\n")
  {
    if after == [] {
      TrimStartOfPadded("\n", []);
      assert "\n" + [] == "\n";
    } else {
      TrimStartOfPadded(BLANK_LINE, after + "\n");
      assert BLANK_LINE + after + "\n" == BLANK_LINE + (after + "\n");
    }
  }

  lemma CutAssembled(lead: string, block: string, trail: string)
    ensures (lead + block + trail)[..|lead|] == lead
    ensures (lead + block + trail)[|lead| + |block|..] == trail
  {
  }

  /** The parts of an assembled document: the same before, and one newline more after. */
  lemma PartsOfAssembled(before: string, block: string, after: string, start: string, end: string)
    requires IsMarker(start) && IsMarker(end) && IsBlock(block, start, end)
    requires Absent(before, start) && Absent(before, end)
    requires before != [] ==> !IsSpace(before[|before| - 1])
    requires after != [] ==> !IsSpace(after[0])
    ensures var d := Assemble(before, block, after);
            && Before(d, start, end) == before
            && After(d, start, end) == (if after == [] then [] else after + "\n")
  {
    MarkersInAssembled(before, block, after, start, end);
    CutAssembled(Lead(before), block, Trail(after));
    TrimEndOfLead(before);
    TrimStartOfTrail(after);
  }

  // ---------- The law of repeated runs ----------

  function Update(start: string, end: string, replacement: string): string -> string {
    existing => ReplaceMarkedBlock(existing, start, end, replacement)
  }

  function Iterate(update: string -> string, n: nat, existing: string): string {
    if n == 0 then existing else update(Iterate(update, n - 1, existing))
  }

  /** The document after n runs. */
  function Runs(n: nat, existing: string, start: string, end: string, replacement: string): string {
    Iterate(Update(start, end, replacement), n, existing)
  }

  function Newlines(n: nat): string {
    seq(n, _ => '\n')
  }

  lemma AssembleGrown(before: string, block: string, after: string, n: nat)
    ensures Assemble(before, block, Grown(after, n))
            == Assemble(before, block, Grown(after, 0)) + (if after == [] then [] else Newlines(n))
  {
    GrownByOne(after, n);
    if after != [] {
      AssembleWithNewlines(before, block, after, n);
    } else {
      assert Assemble(before, block, []) + [] == Assemble(before, block, []);
    }
  }

  lemma AssembleWithNewlines(before: string, block: string, after: string, n: nat)
    requires after != []
    ensures Assemble(before, block, after + Newlines(n)) == Assemble(before, block, after) + Newlines(n)
  {
  }

  /** A further run on an assembled document. */
  lemma NextRun(before: string, after: string, start: string, end: string, replacement: string)
    requires IsMarker(start) && IsMarker(end) && IsBlock(TrimEnd(replacement), start, end)
    requires Absent(before, start) && Absent(before, end)
    requires before != [] ==> !IsSpace(before[|before| - 1])
    requires after != [] ==> !IsSpace(after[0])
    ensures ReplaceMarkedBlock(Assemble(before, TrimEnd(replacement), after), start, end, replacement)
            == Assemble(before, TrimEnd(replacement), if after == [] then [] else after + "\n")
  {
    PartsOfAssembled(before, TrimEnd(replacement), after, start, end);
    OneRun(Assemble(before, TrimEnd(replacement), after), start, end, replacement);
  }

  /** What follows the block after n more runs. */
  function Grown(after: string, n: nat): string {
    if after == [] then [] else after + Newlines(n)
  }

  lemma GrownByOne(after: string, n: nat)
    ensures Grown(after, 0) == after
    ensures Grown(after, n + 1) == (if Grown(after, n) == [] then [] else Grown(after, n) + "\n")
  {
  }

  lemma GrownRun(n: nat, existing: string, start: string, end: string, replacement: string)
    requires IsMarker(start) && IsMarker(end) && IsBlock(TrimEnd(replacement), start, end)
    requires WellMarked(existing, start, end)
    ensures var before, after := Before(existing, start, end), After(existing, start, end);
            ReplaceMarkedBlock(Assemble(before, TrimEnd(replacement), Grown(after, n)), start, end, replacement)
            == Assemble(before, TrimEnd(replacement), Grown(after, n + 1))
  {
    var before, after := Before(existing, start, end), After(existing, start, end);
    BeforeHasNoMarker(existing, start, end);
    NextRun(before, Grown(after, n), start, end, replacement);
    GrownByOne(after, n);
  }

  lemma {:induction false} IterateGrown(update: string -> string, n: nat, existing: string, before: string,
                                        block: string, after: string)
    requires update(existing) == Assemble(before, block, Grown(after, 0))
    requires forall k: nat ::
               update(Assemble(before, block, Grown(after, k))) == Assemble(before, block, Grown(after, k + 1))
    ensures Iterate(update, n + 1, existing) == Assemble(before, block, Grown(after, n))
  {
    if n == 0 {
      assert Iterate(update, 0, existing) == existing;
    } else {
      IterateGrown(update, n - 1, existing, before, block, after);
    }
  }

  lemma IterateLaw(update: string -> string, n: nat, existing: string, before: string, block: string, after: string)
    requires n >= 1 && update(existing) == Assemble(before, block, Grown(after, 0))
    requires forall k: nat ::
               update(Assemble(before, block, Grown(after, k))) == Assemble(before, block, Grown(after, k + 1))
    ensures Iterate(update, n, existing)
            == Iterate(update, 1, existing) + (if after == [] then [] else Newlines(n - 1))
  {
    IterateGrown(update, 0, existing, before, block, after);
    IterateGrown(update, n - 1, existing, before, block, after);
    AssembleGrown(before, block, after, n - 1);
  }

  /** Run n times on a well-marked document, the update gives what one run gives, and one newline
      more for every further run if anything follows the block. */
  lemma NFoldLaw(n: nat, existing: string, start: string, end: string, replacement: string)
    requires n >= 1
    requires IsMarker(start) && IsMarker(end) && IsBlock(TrimEnd(replacement), start, end)
    requires WellMarked(existing, start, end)
    ensures Runs(n, existing, start, end, replacement)
            == Runs(1, existing, start, end, replacement)
               + (if After(existing, start, end) == [] then [] else Newlines(n - 1))
  {
    var update, block := Update(start, end, replacement), TrimEnd(replacement);
    var before, after := Before(existing, start, end), After(existing, start, end);
    OneRun(existing, start, end, replacement);
    GrownByOne(after, 0);
    forall k: nat
      ensures update(Assemble(before, block, Grown(after, k))) == Assemble(before, block, Grown(after, k + 1))
    {
      GrownRun(k, existing, start, end, replacement);
    }
    IterateLaw(update, n, existing, before, block, after);
  }

  // ---------- Documents with stray markers ----------

  /** The document has an end marker, and no start marker before it. */
  predicate StrayEnd(existing: string, start: string, end: string) {
    Find(existing, end).Some? && !HasPair(existing, start, end)
  }

  predicate StrayStart(existing: string, start: string, end: string) {
    Find(existing, start).Some? && Find(existing, end).None?
  }

  lemma OccurrenceEndsBeforeSpace(s: string, marker: string, k: nat)
    requires IsMarker(marker) && At(s, marker, k)
    ensures k + |marker| <= |TrimEnd(s)| && At(TrimEnd(s), marker, k)
  {
  }

  lemma FirstOfTrimmedEnd(s: string, marker: string, k: nat)
    requires IsMarker(marker) && FirstAt(s, marker, k)
    ensures FirstAt(TrimEnd(s), marker, k)
  {
    OccurrenceEndsBeforeSpace(s, marker, k);
    TrimEndIsPrefix(s);
    forall i | 0 <= i < k ensures !At(TrimEnd(s), marker, i) {
      if At(TrimEnd(s), marker, i) {
        assert TrimEnd(s)[i..i + |marker|] == s[i..i + |marker|];
        assert At(s, marker, i);
      }
    }
  }

  /** A marker that begins before the blank line, in the document one run gives, was there already. */
  lemma WasThereAlready(existing: string, rest: string, marker: string, i: nat)
    requires IsMarker(marker) && i < |TrimEnd(existing)|
    requires At(TrimEnd(existing) + BLANK_LINE + rest, marker, i)
    ensures At(existing, marker, i)
  {
    var before := TrimEnd(existing);
    NotAcrossBlankLine(before, rest, marker, i);
    TrimEndIsPrefix(existing);
    assert before[i..i + |marker|] == existing[i..i + |marker|];
  }

  /** A run on a document with a stray end marker leaves that marker stray. */
  lemma StrayEndStays(existing: string, start: string, end: string, rest: string)
    requires IsMarker(start) && IsMarker(end) && StrayEnd(existing, start, end)
    ensures TrimEnd(existing) != [] && StrayEnd(TrimEnd(existing) + BLANK_LINE + rest, start, end)
  {
    var before := TrimEnd(existing);
    var d := before + BLANK_LINE + rest;
    FindMeaning(existing, start);
    FindMeaning(existing, end);
    var k := Find(existing, end).value;
    FirstOfTrimmedEnd(existing, end, k);
    FirstInFront(before, BLANK_LINE + rest, end, k);
    assert before + (BLANK_LINE + rest) == d;
    FirstIsFound(d, end, k);
    if HasPair(d, start, end) {
      var i := Find(d, start).value;
      WasThereAlready(existing, rest, start, i);
      assert false;
    }
  }

  function Copies(n: nat, block: string): string {
    if n == 0 then [] else Copies(n - 1, block) + (BLANK_LINE + block)
  }

  lemma StrayEndRun(existing: string, start: string, end: string, replacement: string)
    requires IsMarker(start) && IsMarker(end) && StrayEnd(existing, start, end)
    ensures ReplaceMarkedBlock(existing, start, end, replacement)
            == TrimEnd(existing) + BLANK_LINE + TrimEnd(replacement) + "\n"
  {
    TrimEndOfBlank(existing);
    StrayEndStays(existing, start, end, []);
  }

  lemma CopiesStayStray(n: nat, existing: string, start: string, end: string, block: string)
    requires n > 0 && IsMarker(start) && IsMarker(end) && StrayEnd(existing, start, end)
    ensures StrayEnd(TrimEnd(existing) + Copies(n, block) + "\n", start, end)
  {
    var front := TrimEnd(existing);
    var rest := CopiesBehindBlankLine(n, block);
    StrayEndStays(existing, start, end, rest + "\n");
    Regroup(front, BLANK_LINE, rest, "\n");
  }

  lemma Regroup(a: string, b: string, c: string, d: string)
    ensures a + (b + c) + d == a + b + (c + d)
  {
  }

  lemma {:induction false} CopiesBehindBlankLine(n: nat, block: string) returns (rest: string)
    requires n > 0
    ensures Copies(n, block) == BLANK_LINE + rest
  {
    if n == 1 {
      rest := block;
      assert Copies(0, block) + (BLANK_LINE + block) == BLANK_LINE + block;
    } else {
      var front := CopiesBehindBlankLine(n - 1, block);
      rest := front + (BLANK_LINE + block);
      assert BLANK_LINE + front + (BLANK_LINE + block) == BLANK_LINE + rest;
    }
  }

  lemma StrayEndGrows(n: nat, existing: string, start: string, end: string, replacement: string)
    requires n > 0 && IsMarker(start) && IsMarker(end) && IsBlock(TrimEnd(replacement), start, end)
    requires StrayEnd(existing, start, end)
    ensures var front, block := TrimEnd(existing), TrimEnd(replacement);
            ReplaceMarkedBlock(front + Copies(n, block) + "\n", start, end, replacement)
            == front + Copies(n + 1, block) + "\n"
  {
    var front, block := TrimEnd(existing), TrimEnd(replacement);
    CopiesStayStray(n, existing, start, end, block);
    StrayEndRun(front + Copies(n, block) + "\n", start, end, replacement);
    LastCopy(front + Copies(n, block) + "\n", n, front, start, end, replacement);
    OneMoreCopy(front, n, block);
  }

  lemma {:induction false} IterateCopies(update: string -> string, n: nat, existing: string, front: string,
                                         block: string)
    requires update(existing) == front + Copies(1, block) + "\n"
    requires forall k: nat :: k > 0 ==> update(front + Copies(k, block) + "\n") == front + Copies(k + 1, block) + "\n"
    ensures Iterate(update, n + 1, existing) == front + Copies(n + 1, block) + "\n"
  {
    if n == 0 {
      assert Iterate(update, 0, existing) == existing;
    } else {
      IterateCopies(update, n - 1, existing, front, block);
    }
  }

  /** A stray end marker is never cleaned up: every run appends one more copy of the block. */
  lemma StrayEndAppends(n: nat, existing: string, start: string, end: string, replacement: string)
    requires IsMarker(start) && IsMarker(end) && IsBlock(TrimEnd(replacement), start, end)
    requires StrayEnd(existing, start, end)
    ensures Runs(n + 1, existing, start, end, replacement)
            == TrimEnd(existing) + Copies(n + 1, TrimEnd(replacement)) + "\n"
  {
    var update, front, block := Update(start, end, replacement), TrimEnd(existing), TrimEnd(replacement);
    StrayEndRun(existing, start, end, replacement);
    OneMoreCopy(front, 0, block);
    assert front + Copies(0, block) == front;
    forall k: nat | k > 0
      ensures update(front + Copies(k, block) + "\n") == front + Copies(k + 1, block) + "\n"
    {
      StrayEndGrows(k, existing, start, end, replacement);
    }
    IterateCopies(update, n, existing, front, block);
  }

  lemma OneMoreCopy(front: string, n: nat, block: string)
    ensures front + Copies(n, block) + BLANK_LINE + block + "\n" == front + Copies(n + 1, block) + "\n"
  {
  }

  lemma LastCopy(d: string, n: nat, front: string, start: string, end: string, replacement: string)
    requires n > 0 && IsMarker(end) && IsBlock(TrimEnd(replacement), start, end)
    requires d == front + Copies(n, TrimEnd(replacement)) + "\n"
    ensures TrimEnd(d) == front + Copies(n, TrimEnd(replacement))
  {
  }

  /** A start marker without an end loses the text after it: the second run takes everything from
      the stray marker to the end of the block that the first run appended for the old block. */
  lemma StrayStartSwallows(existing: string, start: string, end: string, replacement: string)
    requires IsMarker(start) && IsMarker(end) && IsBlock(TrimEnd(replacement), start, end)
    requires StrayStart(existing, start, end)
    ensures Runs(1, existing, start, end, replacement) == Assemble(TrimEnd(existing), TrimEnd(replacement), [])
    ensures Runs(2, existing, start, end, replacement)
            == Assemble(TrimEnd(existing[..Find(existing, start).value]), TrimEnd(replacement), [])
    ensures |TrimEnd(existing[..Find(existing, start).value])| < |TrimEnd(existing)|
  {
    var d := Assemble(TrimEnd(existing), TrimEnd(replacement), []);
    assert Runs(0, existing, start, end, replacement) == existing;
    OneRun(existing, start, end, replacement);
    assert Runs(1, existing, start, end, replacement) == d;
    StrayStartPairs(existing, TrimEnd(replacement), start, end);
    OneRun(d, start, end, replacement);
    assert Runs(2, existing, start, end, replacement) == ReplaceMarkedBlock(d, start, end, replacement);
  }

  lemma StrayStartFound(existing: string, block: string, start: string, end: string)
    requires IsMarker(start) && IsMarker(end) && IsBlock(block, start, end)
    requires StrayStart(existing, start, end)
    ensures var d, k := Assemble(TrimEnd(existing), block, []), Find(existing, start).value;
            && k < |TrimEnd(existing)|
            && Find(d, start) == Some(k)
            && Find(d, end) == Some(|Lead(TrimEnd(existing))| + (|block| - |end|))
  {
    var before, k := TrimEnd(existing), Find(existing, start).value;
    FindMeaning(existing, start);
    FindMeaning(existing, end);
    FirstOfTrimmedEnd(existing, start, k);
    FirstInFront(before, BLANK_LINE + block + "\n", start, k);
    assert before + (BLANK_LINE + block + "\n") == Assemble(before, block, []);
    FirstIsFound(Assemble(before, block, []), start, k);
    TrimEndIsPrefix(existing);
    AbsentInPrefix(existing, end, |existing| + 1, |before|);
    FoundInAssembled(before, block, [], end, |block| - |end|);
  }

  lemma StrayStartPairs(existing: string, block: string, start: string, end: string)
    requires IsMarker(start) && IsMarker(end) && IsBlock(block, start, end)
    requires StrayStart(existing, start, end)
    ensures var d, k := Assemble(TrimEnd(existing), block, []), Find(existing, start).value;
            && Before(d, start, end) == TrimEnd(existing[..k])
            && After(d, start, end) == []
            && |TrimEnd(existing[..k])| < |TrimEnd(existing)|
  {
    var before, k := TrimEnd(existing), Find(existing, start).value;
    var d := Assemble(before, block, []);
    StrayStartFound(existing, block, start, end);
    TrimEndIsPrefix(existing);
    assert d[..k] == before[..k] == existing[..k];
    CutAssembled(Lead(before), block, Trail([]));
    TrimStartOfTrail([]);
  }

  /** Running again changes nothing exactly when the document was well marked and nothing but
      white space follows its block. */
  lemma RunningAgainChangesNothingIff(existing: string, start: string, end: string, replacement: string)
    requires IsMarker(start) && IsMarker(end) && IsBlock(TrimEnd(replacement), start, end)
    ensures Runs(2, existing, start, end, replacement) == Runs(1, existing, start, end, replacement)
            <==> WellMarked(existing, start, end) && After(existing, start, end) == []
  {
    if WellMarked(existing, start, end) {
      NFoldLaw(2, existing, start, end, replacement);
    } else if StrayEnd(existing, start, end) {
      StrayEndAppends(0, existing, start, end, replacement);
      StrayEndAppends(1, existing, start, end, replacement);
      assert |Copies(2, TrimEnd(replacement))| > |Copies(1, TrimEnd(replacement))|;
    } else {
      StrayStartSwallows(existing, start, end, replacement);
    }
  }
}
