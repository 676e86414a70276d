/**
 * The specification of `parse_markdown_sections` in closed form: which lines
 * are headers, and which section each header opens.
 */
module MarkdownSpec {
  import opened Text


  /** One parsed section, `{"title": ..., "content": ...}`. */
  datatype Section = Section(title: string, content: string)

  /** Title of the single section produced when the text has no header at all. */
  const FallbackTitle: string := "Analysis"

  // ---------------------------------------------------------------------------
  // Header lines
  // ---------------------------------------------------------------------------

  /** Whether a line matches `^#{1,2}\s+(.+)$`: `#` or `##`, then whitespace, then
      at least one more character. A line starting `###` never matches: after
      one or two `#` the pattern needs whitespace and finds `#`. Lines never
      contain `'\n'` (see `LinesHaveNoNewline`), so `.` and `$` add nothing. */
  predicate IsHeader(line: string) {
    || (3 <= |line| && line[0] == '#' && IsSpace(line[1]))
    || (4 <= |line| && line[0] == '#' && line[1] == '#' && IsSpace(line[2]))
  }

  /** Length of the `#` marker of a header line. */
  function MarkerLength(line: string): (k: nat)
    requires IsHeader(line)
    ensures k == 1 || k == 2
  {
    if line[1] == '#' then 2 else 1
  }

  /** The regex's group 1 on a header line: the text after the marker and the
      whitespace that follows it (see `HeaderTitleShape`). */
  function HeaderTitle(line: string): string
    requires IsHeader(line)
  {
    TitleAfter(line[MarkerLength(line)..])
  }

  /** `\s+(.+)$` on `rest`, which starts with whitespace: `\s+` is greedy, but
      gives back one character when nothing else is left for `.+`. */
  function TitleAfter(rest: string): string
    requires 2 <= |rest| && IsSpace(rest[0])
  {
    if 3 <= |rest| && IsSpace(rest[1]) then TitleAfter(rest[1..]) else rest[1..]
  }

  /** What `TitleAfter` captures: a non-empty suffix of `rest` after whitespace
      only, which starts with a non-space character unless `rest` is all
      whitespace, in which case it is the last character alone. */
  lemma TitleAfterShape(rest: string)
    requires 2 <= |rest| && IsSpace(rest[0])
    ensures var t := TitleAfter(rest);
            && 0 < |t| < |rest|
            && t == rest[|rest| - |t|..]
            && AllSpace(rest[..|rest| - |t|])
            && (!IsSpace(t[0]) || (|t| == 1 && AllSpace(rest)))
  {
    TitleAfterSuffix(rest);
    TitleAfterStart(rest);
  }

  lemma {:induction false} TitleAfterSuffix(rest: string)
    requires 2 <= |rest| && IsSpace(rest[0])
    ensures var t := TitleAfter(rest);
            && 0 < |t| < |rest|
            && t == rest[|rest| - |t|..]
            && AllSpace(rest[..|rest| - |t|])
    decreases |rest|
  {
    var t := TitleAfter(rest);
    if 3 <= |rest| && IsSpace(rest[1]) {
      var tail := rest[1..];
      TitleAfterSuffix(tail);
      assert t == TitleAfter(tail);
      assert tail[|tail| - |t|..] == rest[|rest| - |t|..];
      var p, q := rest[..|rest| - |t|], tail[..|tail| - |t|];
      forall i | 0 <= i < |p| ensures IsSpace(p[i]) {
        if i > 0 {
          assert p[i] == q[i - 1];
        }
      }
    } else {
      assert t == rest[1..];
      assert rest[..|rest| - |t|] == [rest[0]];
    }
  }

  lemma {:induction false} TitleAfterStart(rest: string)
    requires 2 <= |rest| && IsSpace(rest[0])
    ensures var t := TitleAfter(rest);
            t != [] && (!IsSpace(t[0]) || (|t| == 1 && AllSpace(rest)))
    decreases |rest|
  {
    var t := TitleAfter(rest);
    if 3 <= |rest| && IsSpace(rest[1]) {
      var tail := rest[1..];
      TitleAfterStart(tail);
      assert t == TitleAfter(tail);
      if IsSpace(t[0]) {
        forall i | 0 <= i < |rest| ensures IsSpace(rest[i]) {
          if i > 0 {
            assert rest[i] == tail[i - 1];
          }
        }
      }
    } else {
      assert t == rest[1..];
      if IsSpace(t[0]) {
        assert |rest| == 2;
      }
    }
  }

  /** A header's title is the rest of the line after the `#` marker and a
      non-empty run of whitespace; it starts with a non-space character unless
      the line is only marker and whitespace. */
  lemma HeaderTitleShape(line: string)
    requires IsHeader(line)
    ensures var t := HeaderTitle(line);
            var k := MarkerLength(line);
            && line[..k] == (if k == 1 then "#" else "##")
            && 0 < |t| && k < |line| - |t|
            && t == line[|line| - |t|..]
            && AllSpace(line[k..|line| - |t|])
            && (!IsSpace(t[0]) || (|t| == 1 && AllSpace(line[k..])))
  {
    var k := MarkerLength(line);
    TitleAfterShape(line[k..]);
    var t := HeaderTitle(line);
    assert line[k..][|line| - k - |t|..] == line[|line| - |t|..];
    assert line[k..][..|line| - k - |t|] == line[k..|line| - |t|];
  }

  /** Every header line has a non-empty title. */
  lemma HeaderTitleNonEmpty(line: string)
    requires IsHeader(line)
    ensures HeaderTitle(line) != ""
  {
    HeaderTitleShape(line);
  }

  // ---------------------------------------------------------------------------
  // Specification: sections in closed form
  // ---------------------------------------------------------------------------

  /** Indices of the header lines, in document order. */
  function HeaderIndices(lines: seq<string>): (hs: seq<nat>)
    ensures HeaderList(lines, hs)
  {
    if lines == [] then []
    else
      var n := |lines| - 1;
      var hs := HeaderIndices(lines[..n]);
      assert forall j :: 0 <= j < |hs| ==> lines[..n][hs[j]] == lines[hs[j]];
      hs + (if IsHeader(lines[n]) then [n] else [])
  }

  /** `hs` lists, in increasing order, indices of header lines of `lines`. */
  predicate HeaderList(lines: seq<string>, hs: seq<nat>) {
    && (forall j :: 0 <= j < |hs| ==> hs[j] < |lines| && IsHeader(lines[hs[j]]))
    && (forall a, b :: 0 <= a < b < |hs| ==> hs[a] < hs[b])
  }

  /** The lines a section covers: its header line `header`, and its body, the lines
      strictly between the header and `end` (the next header, or the end of text). */
  datatype Span = Span(header: nat, end: nat)

  predicate ValidSpan(lines: seq<string>, sp: Span) {
    sp.header < sp.end <= |lines| && IsHeader(lines[sp.header])
  }

  predicate ValidSpans(lines: seq<string>, spans: seq<Span>) {
    forall j :: 0 <= j < |spans| ==> ValidSpan(lines, spans[j])
  }

  /** The section a span stands for: the header's title, and the body lines joined
      with `'\n'` and stripped. */
  function SectionOf(lines: seq<string>, sp: Span): Section
    requires ValidSpan(lines, sp)
  {
    Section(HeaderTitle(lines[sp.header]), Strip(Join("\n", lines[sp.header + 1..sp.end])))
  }

  /** One span per header of `hs`, each reaching the next header; the last one
      reaches `end`. */
  function SpansTo(lines: seq<string>, hs: seq<nat>, end: nat): (spans: seq<Span>)
    requires HeaderList(lines, hs) && end <= |lines|
    requires forall j :: 0 <= j < |hs| ==> hs[j] < end
    ensures |spans| == |hs| && ValidSpans(lines, spans)
  {
    if hs == [] then []
    else
      var n := |hs| - 1;
      assert HeaderList(lines, hs[..n]);
      SpansTo(lines, hs[..n], hs[n]) + [Span(hs[n], end)]
  }

  /** Span `j` starts at header `hs[j]` and ends at header `hs[j + 1]`, or at
      `end` for the last one. */
  lemma {:induction false} SpansToShape(lines: seq<string>, hs: seq<nat>, end: nat)
    requires HeaderList(lines, hs) && end <= |lines|
    requires forall j :: 0 <= j < |hs| ==> hs[j] < end
    ensures var spans := SpansTo(lines, hs, end);
            && (forall j :: 0 <= j < |hs| ==> spans[j].header == hs[j])
            && (forall j :: 0 <= j < |hs| - 1 ==> spans[j].end == hs[j + 1])
            && (hs != [] ==> spans[|hs| - 1].end == end)
    decreases |hs|
  {
    if hs != [] {
      var n := |hs| - 1;
      assert HeaderList(lines, hs[..n]);
      SpansToShape(lines, hs[..n], hs[n]);
    }
  }

  /** The sections of a list of spans, in order. */
  function Render(lines: seq<string>, spans: seq<Span>): (r: seq<Section>)
    requires ValidSpans(lines, spans)
    ensures |r| == |spans|
  {
    seq(|spans|, k requires 0 <= k < |spans| => SectionOf(lines, spans[k]))
  }

  /** Rendering one more span appends its section. */
  lemma RenderSnoc(lines: seq<string>, spans: seq<Span>, sp: Span)
    requires ValidSpans(lines, spans) && ValidSpan(lines, sp)
    ensures ValidSpans(lines, spans + [sp])
    ensures Render(lines, spans + [sp]) == Render(lines, spans) + [SectionOf(lines, sp)]
  {
    var r, r' := Render(lines, spans), Render(lines, spans + [sp]);
    assert forall k :: 0 <= k < |spans| ==> r'[k] == r[k];
  }

  /** Where the body of the `k`-th header in `hs` stops: at the next header, or
      at the end of the text after the last one. */
  function BodyEnd(lines: seq<string>, hs: seq<nat>, k: nat): nat
    requires k < |hs|
  {
    if k + 1 < |hs| then hs[k + 1] else |lines|
  }

  /** One section per header line, in document order; text before the first
      header belongs to no section. */
  function Sections(lines: seq<string>): seq<Section>
  {
    Render(lines, SpansTo(lines, HeaderIndices(lines), |lines|))
  }

  /** What `parse_markdown_sections(text, requireSections)` returns. */
  function Parse(text: string, requireSections: bool): seq<Section>
  {
    if text == "" then []
    else
      var lines := Split(text, "\n");
      if HeaderIndices(lines) == [] && !requireSections then
        [Section(FallbackTitle, Strip(text))]
      else
        Sections(lines)
  }

  /** The spans closed so far, once the headers `hs` have been seen: all but the
      last, whose body may still grow. */
  ghost function Closed(lines: seq<string>, hs: seq<nat>): (spans: seq<Span>)
    requires HeaderList(lines, hs) && hs != []
    ensures ValidSpans(lines, spans)
  {
    var n := |hs| - 1;
    assert HeaderList(lines, hs[..n]);
    SpansTo(lines, hs[..n], hs[n])
  }

  /** The header lines themselves, in document order. */
  function HeaderLines(lines: seq<string>): (hl: seq<string>)
    ensures forall j :: 0 <= j < |hl| ==> IsHeader(hl[j])
  {
    if lines == [] then []
    else
      var n := |lines| - 1;
      HeaderLines(lines[..n]) + (if IsHeader(lines[n]) then [lines[n]] else [])
  }

  /** `hs` with `d` added to every index. */
  function Shift(hs: seq<nat>, d: nat): (r: seq<nat>)
    ensures |r| == |hs| && forall j :: 0 <= j < |hs| ==> r[j] == hs[j] + d
  {
    seq(|hs|, j requires 0 <= j < |hs| => hs[j] + d)
  }

}
