/**
 * `src/utils/renderer_utils.py`: the HTML the app writes for a problem
 * statement (`render_query_section`) and for a task card (`render_task_card`).
 * The fixed markup around the interpolated values is a parameter (a record of
 * its pieces); the constants below hold the pieces the source writes.
 */
module Render {
  import opened Text

  // ---------------------------------------------------------------------------
  // html.escape
  // ---------------------------------------------------------------------------

  /** The characters `html.escape(s, quote=True)` replaces. */
  predicate IsMarkup(c: char) {
    c == '<' || c == '>' || c == '"' || c == '\''
  }

  /** The replacement of one character by `html.escape`. */
  function EscapeChar(c: char): (e: string)
    ensures |e| >= 1 && forall i :: 0 <= i < |e| ==> !IsMarkup(e[i])
  {
    if c == '&' then "&amp;"
    else if c == '<' then "&lt;"
    else if c == '>' then "&gt;"
    else if c == '"' then "&quot;"
    else if c == '\'' then "&#x27;"
    else [c]
  }

  /** `html.escape(s)`. The source replaces `&` first and then each of the
      other four characters, which escapes every character on its own as here. */
  function Escape(s: string): (e: string)
    ensures |e| >= |s|
    ensures forall i :: 0 <= i < |e| ==> !IsMarkup(e[i])
  {
    if s == [] then [] else EscapeChar(s[0]) + Escape(s[1..])
  }

  /** The decoding of the five entities `Escape` writes; any other text is copied. */
  function Unescape(s: string): string
    decreases |s|
  {
    if s == [] then []
    else if IsPrefix("&amp;", s) then "&" + Unescape(s[5..])
    else if IsPrefix("&lt;", s) then "<" + Unescape(s[4..])
    else if IsPrefix("&gt;", s) then ">" + Unescape(s[4..])
    else if IsPrefix("&quot;", s) then "\"" + Unescape(s[6..])
    else if IsPrefix("&#x27;", s) then "'" + Unescape(s[6..])
    else [s[0]] + Unescape(s[1..])
  }

  /** Decoding an entity at the front of the text. */
  lemma UnescapeAmp(rest: string)
    ensures Unescape("&amp;" + rest) == "&" + Unescape(rest)
  {
    var x := "&amp;" + rest;
    assert x[..5] == "&amp;" && x[5..] == rest;
  }

  lemma UnescapeLt(rest: string)
    ensures Unescape("&lt;" + rest) == "<" + Unescape(rest)
  {
    var x := "&lt;" + rest;
    assert x[1] == 'l';
    assert x[..4] == "&lt;" && x[4..] == rest;
  }

  lemma UnescapeGt(rest: string)
    ensures Unescape("&gt;" + rest) == ">" + Unescape(rest)
  {
    var x := "&gt;" + rest;
    assert x[1] == 'g';
    assert x[..4] == "&gt;" && x[4..] == rest;
  }

  lemma UnescapeQuot(rest: string)
    ensures Unescape("&quot;" + rest) == "\"" + Unescape(rest)
  {
    var x := "&quot;" + rest;
    assert x[1] == 'q';
    assert x[..6] == "&quot;" && x[6..] == rest;
  }

  lemma UnescapeApos(rest: string)
    ensures Unescape("&#x27;" + rest) == "'" + Unescape(rest)
  {
    var x := "&#x27;" + rest;
    assert x[1] == '#';
    assert x[..6] == "&#x27;" && x[6..] == rest;
  }

  /** A character other than `&` at the front is copied. */
  lemma UnescapePlain(c: char, rest: string)
    requires c != '&'
    ensures Unescape([c] + rest) == [c] + Unescape(rest)
  {
    var x := [c] + rest;
    assert x[0] == c && x[1..] == rest;
    OtherStart("&amp;", x);
    OtherStart("&lt;", x);
    OtherStart("&gt;", x);
    OtherStart("&quot;", x);
    OtherStart("&#x27;", x);
  }

  /** A text whose first character is not an entity's does not start with it. */
  lemma OtherStart(p: string, s: string)
    requires |p| > 0 && p[0] == '&' && |s| > 0 && s[0] != '&'
    ensures !IsPrefix(p, s)
  {
  }

  /** Decoding the escape of one character gives the character back. */
  lemma UnescapeHead(c: char, rest: string)
    ensures Unescape(EscapeChar(c) + rest) == [c] + Unescape(rest)
  {
    if c == '&' {
      UnescapeAmp(rest);
    } else if c == '<' {
      UnescapeLt(rest);
    } else if c == '>' {
      UnescapeGt(rest);
    } else if c == '"' {
      UnescapeQuot(rest);
    } else if c == '\'' {
      UnescapeApos(rest);
    } else {
      UnescapePlain(c, rest);
    }
  }

  /** Escaping loses nothing: decoding the escaped text gives the text back. */
  lemma {:induction false} EscapeRoundTrip(s: string)
    ensures Unescape(Escape(s)) == s
    decreases |s|
  {
    if s != [] {
      UnescapeHead(s[0], Escape(s[1..]));
      EscapeRoundTrip(s[1..]);
    }
  }

  // ---------------------------------------------------------------------------
  // Line and sentence breaks
  // ---------------------------------------------------------------------------

  /** Turning line breaks into `<br>` tags and back restores text without a `<`,
      such as escaped text. */
  lemma {:induction false} BreaksRoundTrip(x: string)
    requires Lacks(x, '<')
    ensures Replace(Replace(x, "\n", "<br>"), "<br>", "\n") == x
    decreases |x|
  {
    if x != [] {
      assert x[..1] == [x[0]];
      var rest := x[1..];
      assert Lacks(rest, '<') by {
        forall i | 0 <= i < |rest| ensures rest[i] != '<' { assert rest[i] == x[i + 1]; }
      }
      BreaksRoundTrip(rest);
      var y := Replace(rest, "\n", "<br>");
      if x[0] == '\n' {
        assert Replace(x, "\n", "<br>") == "<br>" + y;
        ReplaceAtHead("<br>", y, "\n");
      } else {
        assert Replace(x, "\n", "<br>") == [x[0]] + y;
        ReplaceCons(x[0], y, "<br>", "\n");
      }
    }
  }

  /** A result of the sentence break step that starts with a space comes from
      text that starts with one. */
  lemma SentenceHead(u: string)
    requires Replace(u, ". ", ".<br>") != [] && Replace(u, ". ", ".<br>")[0] == ' '
    ensures u != [] && u[0] == ' '
  {
    if |u| >= 2 && u[..2] != ". " {
      assert Replace(u, ". ", ".<br>") == [u[0]] + Replace(u[1..], ". ", ".<br>");
    }
  }

  /** After `replace('. ', '.<br>')` no sentence ends in a plain space: a period
      is followed by a `<br>` or by something other than a space. */
  lemma {:induction false} SentencesApart(s: string)
    ensures !Contains(Replace(s, ". ", ".<br>"), ". ")
    decreases |s|
  {
    if |s| < 2 {
      ShortNotContains(s, ". ");
    } else if s[..2] == ". " {
      var rest := Replace(s[2..], ". ", ".<br>");
      SentencesApart(s[2..]);
      assert Replace(s, ". ", ".<br>") == ".<br>" + rest;
      var x := ".<br>" + rest;
      assert x[1] == '<';
      assert x[1..] == "<br>" + rest;
      ContainsSkip("<br>", rest, ". ");
    } else {
      var rest := Replace(s[1..], ". ", ".<br>");
      SentencesApart(s[1..]);
      var x := [s[0]] + rest;
      assert Replace(s, ". ", ".<br>") == x;
      assert x[1..] == rest;
      if |rest| > 0 && rest[0] == ' ' {
        SentenceHead(s[1..]);
        assert s[..2] == [s[0], s[1]];
      }
    }
  }

  // ---------------------------------------------------------------------------
  // render_query_section
  // ---------------------------------------------------------------------------

  /** The line that separates the title from the query. */
  const QueryMarker := "\nQuery:"

  /** The title and the query `render_query_section` reads out of a problem
      statement. Where the text mentions `Query:` but not at the start of a line,
      the whole text is the title. */
  function QueryParts(text: string): (string, string) {
    if Contains(text, "Query:") then
      var pieces := Split(text, QueryMarker);
      var query :=
        if Contains(text, QueryMarker) then (SplitMore(text, QueryMarker); Strip(pieces[1])) else "";
      (Strip(pieces[0]), query)
    else
      (Strip(text), "")
  }

  /** Without a `Query:` line the stripped text is the title and there is no query. */
  lemma QueryPartsNoMarker(text: string)
    requires !Contains(text, QueryMarker)
    ensures QueryParts(text) == (Strip(text), "")
  {
    SplitAbsent(text, QueryMarker);
  }

  /** With a first `Query:` line at position `k`, the title is the text before it
      and the query the text after it, up to a further `Query:` line, stripped. */
  lemma QueryPartsFirstMarker(text: string, k: nat)
    requires k <= |text| && IsPrefix(QueryMarker, text[k..])
    requires forall j :: 0 <= j < k ==> !IsPrefix(QueryMarker, text[j..])
    ensures k + |QueryMarker| <= |text|
    ensures QueryParts(text) ==
              (Strip(text[..k]), Strip(Split(text[k + |QueryMarker|..], QueryMarker)[0]))
  {
    SplitAtFirst(text, QueryMarker, k);
    ContainsAt(text, QueryMarker, k);
    assert text[k + 1..][..6] == text[k..][..7][1..] == QueryMarker[1..] == "Query:";
    ContainsAt(text, "Query:", k + 1);
  }

  /** A text with exactly one `Query:` line, between two one-line parts, has
      those parts, stripped, as its title and query. */
  lemma QueryPartsOneMarker(pre: string, post: string)
    requires Lacks(pre, '\n') && Lacks(post, '\n')
    ensures QueryParts(pre + QueryMarker + post) == (Strip(pre), Strip(post))
  {
    var text := pre + QueryMarker + post;
    assert QueryMarker[0] == '\n';
    assert text[|pre|..] == QueryMarker + post;
    assert text[|pre|..][..|QueryMarker|] == QueryMarker;
    forall j | 0 <= j < |pre| ensures !IsPrefix(QueryMarker, text[j..]) {
      assert text[j..][0] == pre[j];
    }
    QueryPartsFirstMarker(text, |pre|);
    assert text[..|pre|] == pre;
    assert text[|pre| + |QueryMarker|..] == post;
    NotContainsChar(post, QueryMarker);
    SplitAbsent(post, QueryMarker);
  }

  /** The title as written: escaped, with its line breaks as `<br>` tags. */
  function TitleHtml(title: string): string {
    Replace(Escape(title), "\n", "<br>")
  }

  /** The query as written: escaped, line breaks as `<br>`, then a `<br>` after
      every period that ends a sentence. */
  function QueryHtml(query: string): string {
    var q := Replace(Escape(query), "\n", "<br>");
    if q != "" then Replace(q, ". ", ".<br>") else q
  }

  /** The written title decodes back to the title: turning the `<br>` tags back
      into line breaks and decoding the entities restores it. */
  lemma TitleHtmlDecodes(title: string)
    ensures Unescape(Replace(TitleHtml(title), "<br>", "\n")) == title
  {
    BreaksRoundTrip(Escape(title));
    EscapeRoundTrip(title);
  }

  /** The written title has no line break and no quote that could end an attribute. */
  lemma TitleHtmlSafe(title: string)
    ensures Lacks(TitleHtml(title), '\n')
    ensures Lacks(TitleHtml(title), '"') && Lacks(TitleHtml(title), '\'')
  {
    ReplaceRemovesChar(Escape(title), '\n', "<br>");
    ReplaceKeepsLacking(Escape(title), "\n", "<br>", '"');
    ReplaceKeepsLacking(Escape(title), "\n", "<br>", '\'');
  }

  /** The written query is empty exactly when the query is, has no line break,
      and no period followed by a plain space. */
  lemma QueryHtmlShape(query: string)
    ensures QueryHtml(query) == "" <==> query == ""
    ensures Lacks(QueryHtml(query), '\n')
    ensures !Contains(QueryHtml(query), ". ")
  {
    var q := Replace(Escape(query), "\n", "<br>");
    ReplaceNonEmpty(Escape(query), "\n", "<br>");
    ReplaceRemovesChar(Escape(query), '\n', "<br>");
    if q != "" {
      ReplaceNonEmpty(q, ". ", ".<br>");
      ReplaceKeepsLacking(q, ". ", ".<br>", '\n');
      SentencesApart(q);
    } else {
      ShortNotContains(q, ". ");
    }
  }

  /** The fixed markup of the section: what comes before the title, between it
      and the optional query block, around the query, and at the end. */
  datatype QueryMarkup = QueryMarkup(
    opening: string, middle: string, queryOpen: string, queryClose: string, closing: string)

  /** The query block and the end of the section start differently. */
  predicate QueryMarkupFacts(m: QueryMarkup) {
    |m.queryOpen| > 0 && |m.closing| > 0 && m.queryOpen[0] != m.closing[0]
  }

  const QueryOpening :=
    "\n    <div style='margin: 2rem 0; padding: 1.5rem; border-left: 4px solid #e0e0e0; background: #f8f9fa;'>"
    + "\n        <div style='font-size: 1.2rem; color: #333; font-weight: 500; line-height: 1.5;'>"
    + "\n            "
  const QueryMiddle := "\n        </div>\n        "
  const QueryBlockOpen := "<div" + " style='margin-top: 1rem; color: #555; font-size: 1rem; line-height: 1.6;'>"
  const QueryBlockClose := "</div>"
  const QueryClosing := "\n" + "    </div>\n    "

  /** The markup `render_query_section` writes. */
  const SourceQueryMarkup := QueryMarkup(QueryOpening, QueryMiddle, QueryBlockOpen, QueryBlockClose, QueryClosing)

  lemma SourceQueryMarkupFacts()
    ensures QueryMarkupFacts(SourceQueryMarkup)
  {
    assert SourceQueryMarkup.queryOpen == QueryBlockOpen;
    assert SourceQueryMarkup.closing == QueryClosing;
    CharInFront("<div", " style='margin-top: 1rem; color: #555; font-size: 1rem; line-height: 1.6;'>", 0);
    CharInFront("\n", "    </div>\n    ", 0);
  }

  /** `render_query_section(problem_text)`. */
  function RenderQuerySection(m: QueryMarkup, text: string): string {
    var (title, query) := QueryParts(text);
    var q := QueryHtml(query);
    m.opening + TitleHtml(title) + m.middle + (if q != "" then m.queryOpen + (q + m.queryClose) else "") + m.closing
  }

  /** The section opens with the written title, and holds a query block exactly
      when the problem statement has a non-empty query. */
  lemma QuerySectionShape(m: QueryMarkup, text: string)
    requires QueryMarkupFacts(m)
    ensures IsPrefix(m.opening + TitleHtml(QueryParts(text).0), RenderQuerySection(m, text))
    ensures IsPrefix(m.opening + TitleHtml(QueryParts(text).0) + m.middle + m.queryOpen, RenderQuerySection(m, text))
            <==> QueryParts(text).1 != ""
  {
    var (title, query) := QueryParts(text);
    var q := QueryHtml(query);
    var a := m.opening + TitleHtml(title) + m.middle;
    QueryHtmlShape(query);
    OptionalBlockIff(a, m.queryOpen, q + m.queryClose, q != "", m.closing, 0);
    var rest := (if q != "" then m.queryOpen + (q + m.queryClose) else "") + m.closing;
    assert RenderQuerySection(m, text) == m.opening + TitleHtml(title) + (m.middle + rest);
    PrefixOfBuilt(m.opening + TitleHtml(title), m.middle + rest);
  }

  // ---------------------------------------------------------------------------
  // render_task_card
  // ---------------------------------------------------------------------------

  /** A tag of a task: its text and colours. */
  datatype Tag = Tag(text: string, bgColor: string, textColor: string)

  /** A task as the card reads it; `kind` is the `type` entry. */
  datatype Task = Task(status: string, kind: string, priority: string, title: string, description: string,
                       tags: seq<Tag>)

  /** The fixed markup of a card and of each tag span. */
  datatype CardMarkup = CardMarkup(
    tagOpen: string, tagColor: string, tagStyle: string, tagClose: string,
    cardOpen: string, statusClose: string, kindSep: string, priorityClose: string,
    titleClose: string, descriptionClose: string, cardClose: string)

  /** The markup `render_task_card` writes. The separator between type and
      priority is the three characters the source file holds there. */
  const SourceCardMarkup := CardMarkup(
    "<span style='background-color: ",
    "; color: ",
    "; padding: 4px 8px; border-radius: 3px; font-size: 12px; margin-right: 8px;'>",
    "</span>",
    "<div style='background-color: white; border: 1px solid #ddd; border-radius: 8px; padding: 20px; "
    + "margin: 20px 0; box-shadow: 0 2px 4px rgba(0,0,0,0.05);'>\n"
    + "        <div style='display: flex; align-items: center; margin-bottom: 12px;'>\n"
    + "            <span style='background-color: #0052CC; color: white; padding: 2px 8px; "
    + "border-radius: 3px; font-size: 12px; margin-right: 10px;'>",
    "</span>\n            <span style='color: #5E6C84; font-size: 13px;'>",
    " \U{00E2}\U{20AC}\U{00A2} ",
    "</span>\n        </div>\n        <h3 style='margin: 0 0 12px 0; font-size: 1.2rem; color: #172B4D;'>",
    "</h3>\n        <p style='color: #172B4D; margin-bottom: 16px;'>",
    "</p>\n        <div style='display: flex; align-items: center;'>",
    "</div>\n    </div>")

  /** The span of one tag; its text and colours are written as they are, unescaped. */
  function TagSpan(m: CardMarkup, tag: Tag): string {
    m.tagOpen + tag.bgColor + m.tagColor + tag.textColor + m.tagStyle + tag.text + m.tagClose
  }

  /** The spans of the tags, in the order of the tags. */
  function TagSpans(m: CardMarkup, tags: seq<Tag>): (spans: seq<string>)
    ensures |spans| == |tags|
    ensures forall i :: 0 <= i < |tags| ==> spans[i] == TagSpan(m, tags[i])
  {
    if tags == [] then [] else TagSpans(m, tags[..|tags| - 1]) + [TagSpan(m, tags[|tags| - 1])]
  }

  /** `''.join(tags_html)`. */
  function TagsHtml(m: CardMarkup, tags: seq<Tag>): string {
    Join("", TagSpans(m, tags))
  }

  /** The card of a task. */
  function Card(m: CardMarkup, task: Task): string {
    CardHead(m, task) + TagsHtml(m, task.tags) + m.cardClose
  }

  /** The card up to its tags: status, kind, priority, title and description. */
  function CardHead(m: CardMarkup, task: Task): string {
    m.cardOpen + task.status + m.statusClose + task.kind + m.kindSep + task.priority + m.priorityClose
    + task.title + m.titleClose + task.description + m.descriptionClose
  }

  /** `render_task_card(task)`: builds the tag spans one by one, then the card. */
  method RenderTaskCard(m: CardMarkup, task: Task) returns (card: string)
    ensures card == Card(m, task)
  {
    var tagsHtml: seq<string> := [];
    var i := 0;
    while i < |task.tags|
      invariant 0 <= i <= |task.tags|
      invariant tagsHtml == TagSpans(m, task.tags[..i])
    {
      var tag := task.tags[i];
      var tagHtml := m.tagOpen + tag.bgColor + m.tagColor + tag.textColor + m.tagStyle + tag.text + m.tagClose;
      assert task.tags[..i + 1][..i] == task.tags[..i];
      tagsHtml := tagsHtml + [tagHtml];
      i := i + 1;
    }
    assert task.tags[..i] == task.tags;
    card := m.cardOpen + task.status + m.statusClose + task.kind + m.kindSep + task.priority + m.priorityClose
            + task.title + m.titleClose + task.description + m.descriptionClose + Join("", tagsHtml) + m.cardClose;
  }

  /** The tags' markup is the markup of the first tags followed by that of the
      others: spans come out in tag order, one per tag. */
  lemma {:induction false} TagsHtmlAppend(m: CardMarkup, a: seq<Tag>, b: seq<Tag>)
    ensures TagsHtml(m, a + b) == TagsHtml(m, a) + TagsHtml(m, b)
    decreases |b|
  {
    if b == [] {
      assert a + b == a;
    } else {
      var b' := b[..|b| - 1];
      var t := b[|b| - 1];
      assert (a + b)[..|a + b| - 1] == a + b';
      assert (a + b)[|a + b| - 1] == t;
      TagsHtmlAppend(m, a, b');
      JoinEmptySnoc(TagSpans(m, a + b'), TagSpan(m, t));
      JoinEmptySnoc(TagSpans(m, b'), TagSpan(m, t));
    }
  }

  /** The markup of a single tag is its span. */
  lemma TagsHtmlSingle(m: CardMarkup, t: Tag)
    ensures TagsHtml(m, [t]) == TagSpan(m, t)
  {
    assert [t][..0] == [];
  }

  /** Every tag of a task shows on its card. */
  lemma CardShowsTag(m: CardMarkup, task: Task, i: nat)
    requires i < |task.tags|
    ensures Contains(Card(m, task), TagSpan(m, task.tags[i]))
  {
    var tags := task.tags;
    TagsHtmlAround(m, tags, i);
    var front := CardHead(m, task);
    var before := TagsHtml(m, tags[..i]);
    var after := TagsHtml(m, tags[i + 1..]);
    var span := TagSpan(m, tags[i]);
    Regroup(front, before, span, after, m.cardClose);
    ContainsMiddle(front + before, span, after + m.cardClose);
  }

  /** Moving the pieces around a middle piece into two groups. */
  lemma Regroup(f: string, b: string, s: string, a: string, c: string)
    ensures f + (b + s + a) + c == (f + b) + s + (a + c)
  {
  }

  /** The tags' markup around the span of tag `i`. */
  lemma TagsHtmlAround(m: CardMarkup, tags: seq<Tag>, i: nat)
    requires i < |tags|
    ensures TagsHtml(m, tags) == TagsHtml(m, tags[..i]) + TagSpan(m, tags[i]) + TagsHtml(m, tags[i + 1..])
  {
    assert tags == tags[..i] + ([tags[i]] + tags[i + 1..]);
    TagsHtmlAppend(m, tags[..i], [tags[i]] + tags[i + 1..]);
    TagsHtmlAppend(m, [tags[i]], tags[i + 1..]);
    TagsHtmlSingle(m, tags[i]);
  }

  /** A tag's text is written into its span as it is, unescaped. */
  lemma TagSpanShowsText(m: CardMarkup, tag: Tag)
    ensures Contains(TagSpan(m, tag), tag.text)
  {
    ContainsMiddle(m.tagOpen + tag.bgColor + m.tagColor + tag.textColor + m.tagStyle, tag.text, m.tagClose);
  }

  /** A task without tags has nothing between the description and the end of the card. */
  lemma CardWithoutTags(m: CardMarkup, task: Task)
    requires task.tags == []
    ensures Card(m, task) ==
              m.cardOpen + task.status + m.statusClose + task.kind + m.kindSep + task.priority + m.priorityClose
              + task.title + m.titleClose + task.description + m.descriptionClose + m.cardClose
  {
  }
}
