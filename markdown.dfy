/**
 * `parse_markdown_sections`: split model output into titled sections at level-1
 * and level-2 markdown headers, and the properties of that split.
 */
module Markdown {
  import opened Text
  import opened MarkdownSpec

  // ---------------------------------------------------------------------------
  // The parser
  // ---------------------------------------------------------------------------

  /** `parse_markdown_sections`: empty text gives no sections; text without any
      header line gives one `Analysis` section unless sections are required;
      otherwise the sections the line loop collects. */
  method ParseMarkdownSections(markdownText: string, requireSections: bool)
    returns (sections: seq<Section>)
    ensures sections == Parse(markdownText, requireSections)
  {
    if markdownText == "" {
      return [];
    }
    var lines := Split(markdownText, "\n");
    var hasHeaders := exists i | 0 <= i < |lines| :: IsHeader(lines[i]);
    HasHeadersIff(lines);
    if !hasHeaders && !requireSections {
      return [Section(FallbackTitle, Strip(markdownText))];
    }
    sections := CollectSections(lines, requireSections);
    ScanMatchesSections(lines);
  }

  /** The state of the line loop: the sections closed so far, and the title and
      body lines of the open section (the title is `""` while none is open). */
  datatype ScanState = ScanState(sections: seq<Section>, title: string, content: seq<string>)

  /** The sections once the open one, if any, is closed: its body lines joined
      with `'\n'` and stripped. */
  function CloseOpen(st: ScanState): (r: seq<Section>)
    ensures st.title == "" ==> r == st.sections
    ensures st.title != "" ==> |r| == |st.sections| + 1 && r[..|st.sections|] == st.sections
                               && r[|st.sections|].title == st.title
  {
    if st.title != "" then st.sections + [Section(st.title, Strip(Join("\n", st.content)))]
    else st.sections
  }

  /** One iteration of the loop: a header line closes the open section and opens
      its own; any other line joins the open body. */
  function ScanLine(st: ScanState, line: string): (r: ScanState)
    ensures IsHeader(line) ==> r.sections == CloseOpen(st) && r.title == HeaderTitle(line) && r.content == []
    ensures !IsHeader(line) ==> r.sections == st.sections && r.title == st.title && r.content == st.content + [line]
  {
    if IsHeader(line) then ScanState(CloseOpen(st), HeaderTitle(line), [])
    else st.(content := st.content + [line])
  }

  /** The loop's state after the given lines. */
  function Scan(lines: seq<string>): ScanState
  {
    if lines == [] then ScanState([], "", [])
    else ScanLine(Scan(lines[..|lines| - 1]), lines[|lines| - 1])
  }

  /** The line loop of `parse_markdown_sections` and the final close after it.
      The fallback after the loop (prompt_utils.py lines 200-205) is reached only
      when no header was seen, which with sections not required the caller has
      already excluded. */
  method CollectSections(lines: seq<string>, requireSections: bool)
    returns (sections: seq<Section>)
    requires HeaderIndices(lines) == [] ==> requireSections
    ensures sections == CloseOpen(Scan(lines))
  {
    sections := [];
    var title := "";
    var content: seq<string> := [];
    var i := 0;
    assert lines[..0] == [];
    while i < |lines|
      invariant 0 <= i <= |lines|
      invariant ScanState(sections, title, content) == Scan(lines[..i])
    {
      var line := lines[i];
      ScanStep(lines, i);
      if IsHeader(line) {
        if title != "" {
          sections := sections + [Section(title, Strip(Join("\n", content)))];
        }
        title := HeaderTitle(line);
        content := [];
      } else {
        content := content + [line];
      }
      i := i + 1;
    }

    WholePrefix(lines);
    if title != "" {
      sections := sections + [Section(title, Strip(Join("\n", content)))];
    } else if content != [] && !requireSections {
      ScanMatchesSections(lines);
      assert false;
    }
  }

  /** `Scan` reads one line at a time. */
  lemma ScanStep(lines: seq<string>, i: nat)
    requires i < |lines|
    ensures Scan(lines[..i + 1]) == ScanLine(Scan(lines[..i]), lines[i])
  {
    assert lines[..i + 1][..i] == lines[..i];
  }

  /** A body line extends the open section's body. */
  lemma BodyGrows(lines: seq<string>, a: nat, i: nat)
    requires a <= i < |lines|
    ensures lines[a..i] + [lines[i]] == lines[a..i + 1]
  {
  }

  lemma WholePrefix(lines: seq<string>)
    ensures lines[..|lines|] == lines
  {
  }

  /** Reading one more line adds its index when it is a header. */
  lemma HeaderIndicesStep(lines: seq<string>, i: nat)
    requires i < |lines|
    ensures HeaderIndices(lines[..i + 1]) == HeaderIndices(lines[..i]) + (if IsHeader(lines[i]) then [i] else [])
  {
    assert lines[..i + 1][..i] == lines[..i];
  }

  /** `any(re.match(...) for line in lines)` agrees with the closed form. */
  lemma HasHeadersIff(lines: seq<string>)
    ensures (exists i | 0 <= i < |lines| :: IsHeader(lines[i])) <==> HeaderIndices(lines) != []
  {
    if exists i | 0 <= i < |lines| :: IsHeader(lines[i]) {
      var i :| 0 <= i < |lines| && IsHeader(lines[i]);
      HeaderIndicesComplete(lines, i);
    }
  }

  /** A header at index `i` closes the section that was open, whose span then
      reaches `i`. */
  lemma ClosedGrows(lines: seq<string>, hs: seq<nat>, i: nat)
    requires HeaderList(lines, hs) && i < |lines| && IsHeader(lines[i])
    requires forall j :: 0 <= j < |hs| ==> hs[j] < i
    ensures HeaderList(lines, hs + [i])
    ensures hs == [] ==> Closed(lines, hs + [i]) == []
    ensures hs != [] ==> Closed(lines, hs + [i]) == Closed(lines, hs) + [Span(hs[|hs| - 1], i)]
  {
    var hs' := hs + [i];
    assert HeaderList(lines, hs');
    assert hs'[..|hs|] == hs;
  }

  /** At the end of the text the open section's span reaches the last line, and
      the spans closed before it complete the spans of all headers. */
  lemma ClosedLast(lines: seq<string>, hs: seq<nat>)
    requires HeaderList(lines, hs) && hs != []
    ensures SpansTo(lines, hs, |lines|) == Closed(lines, hs) + [Span(hs[|hs| - 1], |lines|)]
  {
  }

  /** What the loop state says after the first `i` lines, whose header indices
      are `hs`: no header seen and nothing collected, or the open section is that
      of the last header seen, its body the lines since, and the sections of the
      earlier headers closed. */
  ghost predicate ScanInv(lines: seq<string>, i: nat, hs: seq<nat>, st: ScanState) {
    && i <= |lines|
    && HeaderList(lines, hs)
    && (forall j :: 0 <= j < |hs| ==> hs[j] < i)
    && (hs == [] ==> st.title == "" && st.sections == [])
    && (hs != [] ==> && st.title == HeaderTitle(lines[hs[|hs| - 1]]) && st.title != ""
                     && st.content == lines[hs[|hs| - 1] + 1..i]
                     && st.sections == Render(lines, Closed(lines, hs)))
  }

  /** The headers of a prefix are headers of the whole, and lie in the prefix. */
  lemma PrefixHeaders(lines: seq<string>, i: nat)
    requires i <= |lines|
    ensures HeaderList(lines, HeaderIndices(lines[..i]))
    ensures forall j :: 0 <= j < |HeaderIndices(lines[..i])| ==> HeaderIndices(lines[..i])[j] < i
  {
    var hs := HeaderIndices(lines[..i]);
    assert forall j :: 0 <= j < |hs| ==> lines[..i][hs[j]] == lines[hs[j]];
  }

  /** A header line preserves `ScanInv`, adding its index. */
  lemma ScanInvHeader(lines: seq<string>, i: nat, hs: seq<nat>, st: ScanState)
    requires i < |lines| && IsHeader(lines[i]) && ScanInv(lines, i, hs, st)
    ensures ScanInv(lines, i + 1, hs + [i], ScanLine(st, lines[i]))
  {
    OpenSectionCloses(lines, hs, i, st);
    HeaderTitleNonEmpty(lines[i]);
    var hs' := hs + [i];
    assert hs'[|hs'| - 1] == i;
    assert lines[i + 1..i + 1] == [];
  }

  /** Closing the open section at header `i` renders the spans closed so far. */
  lemma OpenSectionCloses(lines: seq<string>, hs: seq<nat>, i: nat, st: ScanState)
    requires i < |lines| && IsHeader(lines[i]) && ScanInv(lines, i, hs, st)
    ensures HeaderList(lines, hs + [i])
    ensures CloseOpen(st) == Render(lines, Closed(lines, hs + [i]))
  {
    ClosedGrows(lines, hs, i);
    if hs != [] {
      var h := hs[|hs| - 1];
      var sp := Span(h, i);
      assert CloseOpen(st) == st.sections + [SectionOf(lines, sp)];
      RenderSnoc(lines, Closed(lines, hs), sp);
    }
  }

  /** Any other line preserves `ScanInv`. */
  lemma ScanInvBody(lines: seq<string>, i: nat, hs: seq<nat>, st: ScanState)
    requires i < |lines| && !IsHeader(lines[i]) && ScanInv(lines, i, hs, st)
    ensures ScanInv(lines, i + 1, hs, ScanLine(st, lines[i]))
  {
    if hs != [] {
      BodyGrows(lines, hs[|hs| - 1] + 1, i);
    }
  }

  /** One more line, header or not, preserves `ScanInv`. */
  lemma ScanInvStep(lines: seq<string>, i: nat, hs: seq<nat>, st: ScanState)
    requires i < |lines| && ScanInv(lines, i, hs, st)
    ensures ScanInv(lines, i + 1, hs + (if IsHeader(lines[i]) then [i] else []), ScanLine(st, lines[i]))
  {
    if IsHeader(lines[i]) {
      ScanInvHeader(lines, i, hs, st);
    } else {
      assert hs + [] == hs;
      ScanInvBody(lines, i, hs, st);
    }
  }

  /** `ScanInv` holds of the loop state after every prefix. */
  lemma {:induction false} ScanInvariant(lines: seq<string>, i: nat)
    requires i <= |lines|
    ensures ScanInv(lines, i, HeaderIndices(lines[..i]), Scan(lines[..i]))
  {
    if i == 0 {
      assert lines[..0] == [];
    } else {
      var k := i - 1;
      ScanInvariant(lines, k);
      ScanStep(lines, k);
      HeaderIndicesStep(lines, k);
      var hs, st := HeaderIndices(lines[..k]), Scan(lines[..k]);
      ScanInvStep(lines, k, hs, st);
      assert k + 1 == i;
      assert HeaderIndices(lines[..i]) == hs + (if IsHeader(lines[k]) then [k] else []);
      assert Scan(lines[..i]) == ScanLine(st, lines[k]);
    }
  }

  /** The loop followed by the final close computes the closed form; a state
      with no open section means the text has no header at all. */
  lemma ScanMatchesSections(lines: seq<string>)
    ensures CloseOpen(Scan(lines)) == Sections(lines)
    ensures Scan(lines).title == "" ==> HeaderIndices(lines) == []
  {
    ScanInvariant(lines, |lines|);
    WholePrefix(lines);
    FinalClose(lines, HeaderIndices(lines), Scan(lines));
  }

  /** Closing the open section once every line is read renders the spans of
      all headers. */
  lemma FinalClose(lines: seq<string>, hs: seq<nat>, st: ScanState)
    requires ScanInv(lines, |lines|, hs, st)
    ensures CloseOpen(st) == Render(lines, SpansTo(lines, hs, |lines|))
    ensures st.title == "" ==> hs == []
  {
    if hs != [] {
      var last := Span(hs[|hs| - 1], |lines|);
      ClosedLast(lines, hs);
      RenderSnoc(lines, Closed(lines, hs), last);
      assert CloseOpen(st) == st.sections + [SectionOf(lines, last)];
    }
  }

  // ---------------------------------------------------------------------------
  // Properties
  // ---------------------------------------------------------------------------

  /** Every header line is listed by `HeaderIndices`, and only header lines are. */
  lemma {:induction false} HeaderIndicesComplete(lines: seq<string>, i: nat)
    requires i < |lines|
    ensures IsHeader(lines[i]) <==> i in HeaderIndices(lines)
    decreases |lines|
  {
    var n := |lines| - 1;
    var hs := HeaderIndices(lines[..n]);
    assert HeaderIndices(lines) == hs + (if IsHeader(lines[n]) then [n] else []);
    if i < n {
      HeaderIndicesComplete(lines[..n], i);
      assert lines[..n][i] == lines[i];
    }
  }

  /** Section `k` of the text: the title of the `k`-th header line, and the lines
      after it up to the next header line (or the end), joined and stripped. */
  lemma SectionsAt(lines: seq<string>, hs: seq<nat>, k: nat)
    requires hs == HeaderIndices(lines) && k < |hs|
    ensures hs[k] < BodyEnd(lines, hs, k)
    ensures Sections(lines)[k] == Section(HeaderTitle(lines[hs[k]]), Strip(Join("\n", lines[hs[k] + 1..BodyEnd(lines, hs, k)])))
  {
    RenderedAt(lines, hs, k);
    assert Sections(lines) == Render(lines, SpansTo(lines, hs, |lines|));
  }

  /** The section rendered for the `k`-th of the headers `hs`. */
  lemma RenderedAt(lines: seq<string>, hs: seq<nat>, k: nat)
    requires HeaderList(lines, hs) && k < |hs|
    ensures hs[k] < BodyEnd(lines, hs, k)
    ensures Render(lines, SpansTo(lines, hs, |lines|))[k]
         == Section(HeaderTitle(lines[hs[k]]), Strip(Join("\n", lines[hs[k] + 1..BodyEnd(lines, hs, k)])))
  {
    SpanAt(lines, hs, k);
  }

  /** The `k`-th span of a text runs from its `k`-th header to where that
      header's body ends. */
  lemma SpanAt(lines: seq<string>, hs: seq<nat>, k: nat)
    requires HeaderList(lines, hs) && k < |hs|
    ensures SpansTo(lines, hs, |lines|)[k] == Span(hs[k], BodyEnd(lines, hs, k))
  {
    SpansToShape(lines, hs, |lines|);
  }

  /** The lines of `text` never contain `'\n'`, so `.` and `$` in the header
      pattern need no condition of their own. */
  lemma LinesHaveNoNewline(text: string)
    ensures forall k :: 0 <= k < |Split(text, "\n")| ==> !Contains(Split(text, "\n")[k], "\n")
  {
    SplitPiecesFree(text, "\n");
  }

  /** The body of a section holds no header line: its own header and the next
      one lie outside it. */
  lemma BodyHasNoHeader(lines: seq<string>, k: nat, j: nat)
    requires k < |HeaderIndices(lines)|
    requires HeaderIndices(lines)[k] < j
    requires j < (if k + 1 < |HeaderIndices(lines)| then HeaderIndices(lines)[k + 1] else |lines|)
    ensures !IsHeader(lines[j])
  {
    var hs := HeaderIndices(lines);
    HeaderIndicesComplete(lines, j);
    forall m | 0 <= m < |hs| ensures hs[m] != j {
      if m > k + 1 {
        assert hs[k + 1] < hs[m];
      } else if m < k {
        assert hs[m] < hs[k];
      }
    }
  }

  /** `HeaderIndices` points exactly at the header lines, in order. */
  lemma {:induction false} HeaderIndicesLines(lines: seq<string>)
    ensures |HeaderIndices(lines)| == |HeaderLines(lines)|
    ensures forall k :: 0 <= k < |HeaderLines(lines)| ==> lines[HeaderIndices(lines)[k]] == HeaderLines(lines)[k]
    decreases |lines|
  {
    if lines != [] {
      var n := |lines| - 1;
      HeaderIndicesLines(lines[..n]);
      var hs := HeaderIndices(lines[..n]);
      assert forall k :: 0 <= k < |hs| ==> lines[..n][hs[k]] == lines[hs[k]];
    }
  }

  /** With at least one header: one section per header line, in document order,
      titled by that header line's captured text. */
  lemma ParseWithHeaders(text: string, requireSections: bool)
    requires text != "" && HeaderLines(Split(text, "\n")) != []
    ensures var lines := Split(text, "\n");
      && |Parse(text, requireSections)| == |HeaderLines(lines)|
      && forall k :: 0 <= k < |HeaderLines(lines)| ==>
           Parse(text, requireSections)[k].title == HeaderTitle(HeaderLines(lines)[k])
  {
    var lines := Split(text, "\n");
    HeaderIndicesLines(lines);
    forall k | 0 <= k < |HeaderLines(lines)|
      ensures Parse(text, requireSections)[k].title == HeaderTitle(HeaderLines(lines)[k])
    {
      SectionsAt(lines, HeaderIndices(lines), k);
    }
  }

  /** Without any header: an empty list when sections are required, otherwise one
      `Analysis` section holding the whole stripped text. */
  lemma ParseWithoutHeaders(text: string)
    requires text != "" && forall i :: 0 <= i < |Split(text, "\n")| ==> !IsHeader(Split(text, "\n")[i])
    ensures Parse(text, true) == []
    ensures Parse(text, false) == [Section(FallbackTitle, Strip(text))]
  {
    HasHeadersIff(Split(text, "\n"));
  }

  /** Empty input gives no sections, whatever the flag. */
  lemma ParseEmpty(requireSections: bool)
    ensures Parse("", requireSections) == []
  {
  }

  /** Once a header exists the flag no longer matters. */
  lemma ParseFlagIrrelevant(text: string)
    requires HeaderIndices(Split(text, "\n")) != []
    ensures Parse(text, true) == Parse(text, false)
  {
  }

  /** Header indices of a concatenation: those of each part, the second shifted. */
  lemma {:induction false} HeaderIndicesAppend(a: seq<string>, b: seq<string>)
    ensures HeaderIndices(a + b) == HeaderIndices(a) + Shift(HeaderIndices(b), |a|)
    decreases |b|
  {
    if b == [] {
      assert a + b == a;
    } else {
      var n := |b| - 1;
      var init, x := b[..n], b[n];
      HeaderIndicesAppend(a, init);
      assert a + b == (a + init) + [x];
      assert b == init + [x];
      HeaderIndicesSnoc(a + init, x);
      HeaderIndicesSnoc(init, x);
      var tail := if IsHeader(x) then [n] else [];
      ShiftAppend(HeaderIndices(init), tail, |a|);
      assert Shift(tail, |a|) == if IsHeader(x) then [|a + init|] else [];
    }
  }

  /** One more line adds its own index when it is a header. */
  lemma HeaderIndicesSnoc(xs: seq<string>, x: string)
    ensures HeaderIndices(xs + [x]) == HeaderIndices(xs) + (if IsHeader(x) then [|xs|] else [])
  {
    assert (xs + [x])[..|xs|] == xs;
  }

  lemma ShiftAppend(x: seq<nat>, y: seq<nat>, d: nat)
    ensures Shift(x + y, d) == Shift(x, d) + Shift(y, d)
  {
  }

  /** A span of `post`, moved by `|pre|`, is a span of `pre + post` with the
      same section. */
  lemma MovedSection(pre: seq<string>, post: seq<string>, sp: Span, mv: Span)
    requires ValidSpan(post, sp) && mv == Span(sp.header + |pre|, sp.end + |pre|)
    ensures ValidSpan(pre + post, mv) && SectionOf(pre + post, mv) == SectionOf(post, sp)
  {
    var lines := pre + post;
    assert lines[mv.header] == post[sp.header];
    assert lines[mv.header + 1..mv.end] == post[sp.header + 1..sp.end];
  }

  /** Rendering spans of `post` inside `pre + post`, each moved by `|pre|`, gives
      the same sections. */
  lemma RenderShift(pre: seq<string>, post: seq<string>, spans: seq<Span>, moved: seq<Span>)
    requires ValidSpans(post, spans) && |moved| == |spans|
    requires forall j :: 0 <= j < |spans| ==> moved[j] == Span(spans[j].header + |pre|, spans[j].end + |pre|)
    ensures ValidSpans(pre + post, moved)
    ensures Render(pre + post, moved) == Render(post, spans)
  {
    forall j | 0 <= j < |moved|
      ensures ValidSpan(pre + post, moved[j]) && SectionOf(pre + post, moved[j]) == SectionOf(post, spans[j])
    {
      MovedSection(pre, post, spans[j], moved[j]);
    }
  }

  /** The spans of `pre + post` whose headers all lie in `post` are those of
      `post`, moved by `|pre|`. */
  lemma SpansToShift(pre: seq<string>, post: seq<string>, hp: seq<nat>)
    requires HeaderList(post, hp) && HeaderList(pre + post, Shift(hp, |pre|))
    ensures var spans, moved := SpansTo(post, hp, |post|), SpansTo(pre + post, Shift(hp, |pre|), |pre + post|);
      && |moved| == |spans|
      && forall j :: 0 <= j < |spans| ==> moved[j] == Span(spans[j].header + |pre|, spans[j].end + |pre|)
  {
    SpansToShape(post, hp, |post|);
    SpansToShape(pre + post, Shift(hp, |pre|), |pre + post|);
  }

  /** No header precedes the first one, so the headers are those of the text
      from the first header on, moved by its index. */
  lemma FirstHeaderSplit(lines: seq<string>, hs: seq<nat>)
    requires hs == HeaderIndices(lines) && hs != []
    ensures hs[0] <= |lines|
    ensures hs == Shift(HeaderIndices(lines[hs[0]..]), hs[0])
  {
    var pre, post := lines[..hs[0]], lines[hs[0]..];
    assert lines == pre + post;
    HeaderIndicesAppend(pre, post);
    NothingBefore(hs, HeaderIndices(pre), Shift(HeaderIndices(post), |pre|));
  }

  /** Indices below the first of `hpre + rest` cannot be in `hpre`. */
  lemma NothingBefore(hs: seq<nat>, hpre: seq<nat>, rest: seq<nat>)
    requires hs == hpre + rest && hs != []
    requires hpre != [] ==> hpre[0] < hs[0]
    ensures hpre == [] && hs == rest
  {
    if hpre != [] {
      assert false;
    }
  }

  /** Rendering the spans of `post` inside `pre + post` gives the sections of
      `post` alone. */
  lemma RenderMoved(pre: seq<string>, post: seq<string>, hp: seq<nat>)
    requires HeaderList(post, hp) && HeaderList(pre + post, Shift(hp, |pre|))
    ensures Render(pre + post, SpansTo(pre + post, Shift(hp, |pre|), |pre + post|)) == Render(post, SpansTo(post, hp, |post|))
  {
    SpansToShift(pre, post, hp);
    RenderShift(pre, post, SpansTo(post, hp, |post|), SpansTo(pre + post, Shift(hp, |pre|), |pre + post|));
  }

  /** Whatever precedes the first header is discarded by `Sections`. */
  lemma SectionsDropPreamble(lines: seq<string>, hs: seq<nat>)
    requires hs == HeaderIndices(lines) && hs != []
    ensures Sections(lines) == Sections(lines[hs[0]..])
  {
    FirstHeaderSplit(lines, hs);
    var pre, post := lines[..hs[0]], lines[hs[0]..];
    assert lines == pre + post;
    RenderMoved(pre, post, HeaderIndices(post));
  }

  /** Whatever precedes the first header is discarded: the sections are those of
      the text from the first header on, with either value of the flag. */
  lemma ParseDropsPreamble(text: string, requireSections: bool)
    requires text != "" && HeaderIndices(Split(text, "\n")) != []
    ensures var lines := Split(text, "\n");
      Parse(text, requireSections) == Sections(lines[HeaderIndices(lines)[0]..])
  {
    var lines := Split(text, "\n");
    SectionsDropPreamble(lines, HeaderIndices(lines));
  }
}
