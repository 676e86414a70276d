/**
 * The Python `str` operations the core relies on, written out over `seq<char>`:
 * whitespace (`str.isspace`, `\s`), `strip`, `split(sep)`, `sep.join`, `replace`,
 * `in`, and the first token of `split()`.
 */
module Text {
  import opened Wrappers

  /** Python's `str.isspace()` on one character; `\s` in a `re` pattern over `str`,
      `str.strip()` and `str.split()` all use this same set. */
  predicate IsSpace(c: char) {
    c == ' ' || ('\t' <= c <= '\r') || ('\U{1C}' <= c <= '\U{1F}')
    || c == '\U{85}' || c == '\U{A0}' || c == '\U{1680}'
    || ('\U{2000}' <= c <= '\U{200A}') || c == '\U{2028}' || c == '\U{2029}'
    || c == '\U{202F}' || c == '\U{205F}' || c == '\U{3000}'
  }

  predicate AllSpace(s: string) {
    forall i :: 0 <= i < |s| ==> IsSpace(s[i])
  }

  // ---------------------------------------------------------------------------
  // Whitespace trimming
  // ---------------------------------------------------------------------------

  /** Length of the run of whitespace that starts `s`. */
  function LeadingSpaces(s: string): (k: nat)
    ensures k <= |s|
  {
    if |s| > 0 && IsSpace(s[0]) then 1 + LeadingSpaces(s[1..]) else 0
  }

  /** Length of the run of whitespace that ends `s`. */
  function TrailingSpaces(s: string): (k: nat)
    ensures k <= |s|
  {
    if |s| > 0 && IsSpace(s[|s| - 1]) then 1 + TrailingSpaces(s[..|s| - 1]) else 0
  }

  /** The leading run is whitespace and is maximal. */
  lemma {:induction false} LeadingSpacesShape(s: string)
    ensures forall i :: 0 <= i < LeadingSpaces(s) ==> IsSpace(s[i])
    ensures LeadingSpaces(s) < |s| ==> !IsSpace(s[LeadingSpaces(s)])
  {
    if |s| > 0 && IsSpace(s[0]) {
      var t := s[1..];
      LeadingSpacesShape(t);
      forall i | 1 <= i < LeadingSpaces(s) ensures IsSpace(s[i]) {
        assert s[i] == t[i - 1];
      }
      if LeadingSpaces(s) < |s| {
        assert s[LeadingSpaces(s)] == t[LeadingSpaces(t)];
      }
    }
  }

  /** The trailing run is whitespace and is maximal. */
  lemma {:induction false} TrailingSpacesShape(s: string)
    ensures forall i :: |s| - TrailingSpaces(s) <= i < |s| ==> IsSpace(s[i])
    ensures TrailingSpaces(s) < |s| ==> !IsSpace(s[|s| - TrailingSpaces(s) - 1])
  {
    if |s| > 0 && IsSpace(s[|s| - 1]) {
      var t := s[..|s| - 1];
      TrailingSpacesShape(t);
      forall i | |s| - TrailingSpaces(s) <= i < |s| - 1 ensures IsSpace(s[i]) {
        assert s[i] == t[i];
      }
      if TrailingSpaces(s) < |s| {
        assert s[|s| - TrailingSpaces(s) - 1] == t[|t| - TrailingSpaces(t) - 1];
      }
    }
  }

  /** Python's `str.strip()`: `s` without its leading and trailing whitespace;
      the empty string when `s` is whitespace only. */
  function Strip(s: string): string {
    if LeadingSpaces(s) == |s| then ""
    else
      SpaceRunsApart(s);
      s[LeadingSpaces(s)..|s| - TrailingSpaces(s)]
  }

  /** Unless `s` is whitespace only, its leading and trailing runs do not meet. */
  lemma SpaceRunsApart(s: string)
    requires LeadingSpaces(s) < |s|
    ensures LeadingSpaces(s) + TrailingSpaces(s) < |s|
  {
    LeadingSpacesShape(s);
    TrailingSpacesShape(s);
  }

  /** `Strip(s)` is the slice of `s` between a leading and a trailing run of
      whitespace, and neither starts nor ends with whitespace itself. */
  lemma StripShape(s: string)
    ensures LeadingSpaces(s) + |Strip(s)| <= |s|
    ensures Strip(s) == s[LeadingSpaces(s)..LeadingSpaces(s) + |Strip(s)|]
    ensures AllSpace(s[..LeadingSpaces(s)]) && AllSpace(s[LeadingSpaces(s) + |Strip(s)|..])
    ensures Strip(s) == [] || (!IsSpace(Strip(s)[0]) && !IsSpace(Strip(s)[|Strip(s)| - 1]))
  {
    var a, e := StripRange(s);
    SliceShape(s, a, e, Strip(s));
  }

  /** The bounds of `Strip(s)` inside `s`, with what lies outside and at its ends. */
  lemma StripRange(s: string) returns (a: nat, e: nat)
    ensures a == LeadingSpaces(s) && a <= e <= |s| && Strip(s) == s[a..e]
    ensures forall i :: 0 <= i < a ==> IsSpace(s[i])
    ensures forall i :: e <= i < |s| ==> IsSpace(s[i])
    ensures a < e ==> !IsSpace(s[a]) && !IsSpace(s[e - 1])
  {
    a := LeadingSpaces(s);
    LeadingSpacesShape(s);
    if a == |s| {
      e := a;
    } else {
      var b := TrailingSpaces(s);
      TrailingSpacesShape(s);
      StripBetween(s, a, b);
      e := |s| - b;
    }
  }

  /** The slice `s[a..e]` framed by whitespace, with its end characters not whitespace. */
  lemma SliceShape(s: string, a: nat, e: nat, r: string)
    requires a <= e <= |s| && r == s[a..e]
    requires forall i :: 0 <= i < a ==> IsSpace(s[i])
    requires forall i :: e <= i < |s| ==> IsSpace(s[i])
    requires a < e ==> !IsSpace(s[a]) && !IsSpace(s[e - 1])
    ensures a + |r| <= |s| && r == s[a..a + |r|]
    ensures AllSpace(s[..a]) && AllSpace(s[a + |r|..])
    ensures r == [] || (!IsSpace(r[0]) && !IsSpace(r[|r| - 1]))
  {
    if r != [] {
      assert r[0] == s[a] && r[|r| - 1] == s[e - 1];
    }
  }

  /** Whitespace in front of a text adds exactly its length to the leading run. */
  lemma {:induction false} LeadingSpacesAfter(pre: string, x: string)
    requires AllSpace(pre)
    ensures LeadingSpaces(pre + x) == |pre| + LeadingSpaces(x)
    decreases |pre|
  {
    if pre == [] {
      assert pre + x == x;
    } else {
      assert IsSpace(pre[0]);
      assert (pre + x)[0] == pre[0];
      assert (pre + x)[1..] == pre[1..] + x;
      LeadingSpacesAfter(pre[1..], x);
    }
  }

  /** Whitespace after a text adds exactly its length to the trailing run. */
  lemma {:induction false} TrailingSpacesBefore(x: string, post: string)
    requires AllSpace(post)
    ensures TrailingSpaces(x + post) == |post| + TrailingSpaces(x)
    decreases |post|
  {
    if post == [] {
      assert x + post == x;
    } else {
      var s := x + post;
      assert IsSpace(post[|post| - 1]);
      assert s[|s| - 1] == post[|post| - 1];
      assert s[..|s| - 1] == x + post[..|post| - 1];
      TrailingSpacesBefore(x, post[..|post| - 1]);
    }
  }

  /** Stripping text that neither starts nor ends with whitespace changes nothing. */
  lemma StripNoop(s: string)
    requires s == [] || (!IsSpace(s[0]) && !IsSpace(s[|s| - 1]))
    ensures Strip(s) == s
  {
    if s != [] {
      assert s[0..|s|] == s;
    }
  }

  /** Whitespace added around text that is already stripped is removed again. */
  lemma StripPadded(pre: string, body: string, post: string)
    requires AllSpace(pre) && AllSpace(post)
    requires body == [] || (!IsSpace(body[0]) && !IsSpace(body[|body| - 1]))
    ensures Strip(pre + body + post) == body
  {
    var s := pre + body + post;
    assert s == pre + (body + post);
    LeadingSpacesAfter(pre, body + post);
    if body == [] {
      assert body + post == post;
      LeadingSpacesAfter(post, []);
      assert post + [] == post;
    } else {
      assert LeadingSpaces(body + post) == 0 by { assert (body + post)[0] == body[0]; }
      assert TrailingSpaces(pre + body) == 0 by { assert (pre + body)[|pre + body| - 1] == body[|body| - 1]; }
      TrailingSpacesBefore(pre + body, post);
      StripBetween(s, |pre|, |post|);
      assert s[|pre|..|s| - |post|] == body;
    }
  }

  /** A space put in front of a text does not change it once stripped. */
  lemma StripSpaceFront(q: string)
    ensures Strip(" " + q) == Strip(q)
  {
    var a, e := StripRange(q);
    var pre := " " + q[..a];
    var body := q[a..e];
    var post := q[e..];
    assert q == q[..a] + body + post;
    assert " " + q == pre + body + post;
    forall i | 0 <= i < |pre| ensures IsSpace(pre[i]) {
      if i > 0 { assert pre[i] == q[i - 1]; }
    }
    forall i | 0 <= i < |post| ensures IsSpace(post[i]) {
      assert post[i] == q[e + i];
    }
    if body != [] {
      assert body[0] == q[a] && body[|body| - 1] == q[e - 1];
    }
    StripPadded(pre, body, post);
  }

  /** With both runs known, `Strip` is the slice between them. */
  lemma StripBetween(s: string, a: nat, b: nat)
    requires LeadingSpaces(s) == a < |s| && TrailingSpaces(s) == b
    ensures a + b < |s| && Strip(s) == s[a..|s| - b]
  {
    SpaceRunsApart(s);
  }

  // ---------------------------------------------------------------------------
  // Substrings
  // ---------------------------------------------------------------------------

  predicate IsPrefix(p: string, s: string) {
    |p| <= |s| && s[..|p|] == p
  }

  /** Python's `p in s`. */
  predicate Contains(s: string, p: string)
    decreases |s|
  {
    IsPrefix(p, s) || (|s| > 0 && Contains(s[1..], p))
  }

  lemma {:induction false} ContainsAt(s: string, p: string, i: nat)
    requires i <= |s| && IsPrefix(p, s[i..])
    ensures Contains(s, p)
  {
    if i > 0 {
      assert s[1..][i - 1..] == s[i..];
      ContainsAt(s[1..], p, i - 1);
    }
  }

  /** Two texts that differ at position `k` cannot both start `a + x` and `a + y`. */
  lemma PrefixMismatch(a: string, x: string, y: string, k: nat)
    requires k < |x| && k < |y| && x[k] != y[k]
    ensures !IsPrefix(a + x, a + y)
  {
    assert (a + x)[|a| + k] == x[k];
    assert (a + y)[|a| + k] == y[k];
  }

  /** What a text starts with, it still starts with after more text is added. */
  lemma PrefixExtends(a: string, x: string, rest: string)
    ensures IsPrefix(a, a + x + rest) && IsPrefix(a + x, a + x + rest)
  {
    assert (a + x + rest)[..|a|] == a;
    assert (a + x + rest)[..|a + x|] == a + x;
  }

  /** Starting with a text is transitive. */
  lemma PrefixTrans(a: string, b: string, c: string)
    requires IsPrefix(a, b) && IsPrefix(b, c)
    ensures IsPrefix(a, c)
  {
    assert c[..|a|] == c[..|b|][..|a|];
  }

  /** The character at position `k` of a concatenation that lies in its first part. */
  lemma CharInFront(x: string, y: string, k: nat)
    requires k < |x|
    ensures k < |x + y| && (x + y)[k] == x[k]
  {
  }

  /** A text starts with whatever it was built from first. */
  lemma PrefixOfBuilt(a: string, x: string)
    ensures IsPrefix(a, a + x)
  {
    assert (a + x)[..|a|] == a;
  }

  /** A text built around a piece contains it, however the surrounding text is grouped. */
  lemma ContainsBuilt(a: string, b: string, q: string, c: string)
    ensures Contains(a + (b + q + c), q)
  {
    assert a + (b + q + c) == (a + b) + q + c;
    ContainsMiddle(a + b, q, c);
  }

  /** Whether the hole between `a` and `c` is empty can be read off the text,
      provided a non-empty filling starts differently from `c`. */
  lemma EmptyHoleIff(a: string, hole: string, c: string, rest: string)
    requires c != [] && (hole == [] || hole[0] != c[0])
    ensures IsPrefix(a + c, a + hole + c + rest) <==> hole == []
  {
    if hole == [] {
      assert a + hole + c + rest == a + c + rest;
      PrefixExtends(a, c, rest);
    } else {
      assert a + hole + c + rest == a + (hole + c + rest);
      PrefixMismatch(a, c, hole + c + rest, 0);
    }
  }

  /** Whether an optional block sits between `a` and what follows can be read off
      the text, provided the block and what follows differ within the block's heading. */
  lemma OptionalBlockIff(a: string, heading: string, body: string, present: bool, next: string, k: nat)
    requires k < |heading| && k < |next| && heading[k] != next[k]
    ensures IsPrefix(a + heading, a + (if present then heading + body else "") + next) <==> present
  {
    if present {
      assert a + (heading + body) + next == a + heading + (body + next);
      PrefixExtends(a, heading, body + next);
    } else {
      assert a + "" + next == a + next;
      PrefixMismatch(a, heading, next, k);
    }
  }

  /** `OptionalBlockIff` when more text follows the optional block. */
  lemma OptionalBlockBeforeIff(a: string, heading: string, body: string, present: bool,
                               mid: string, next: string, k: nat)
    requires k < |heading| && k < |mid + next| && heading[k] != (mid + next)[k]
    ensures IsPrefix(a + heading, a + (if present then heading + body else "") + mid + next) <==> present
  {
    var block := if present then heading + body else "";
    assert a + block + mid + next == a + block + (mid + next);
    OptionalBlockIff(a, heading, body, present, mid + next, k);
  }

  /** A string contains every string it is built around. */
  lemma ContainsMiddle(a: string, p: string, b: string)
    ensures Contains(a + p + b, p)
  {
    assert (a + p + b)[|a|..][..|p|] == p;
    ContainsAt(a + p + b, p, |a|);
  }

  /** An occurrence in a suffix is an occurrence in the whole. */
  lemma {:induction false} ContainsInSuffix(s: string, k: nat, p: string)
    requires k <= |s| && Contains(s[k..], p)
    ensures Contains(s, p)
    decreases k
  {
    if k > 0 {
      assert s[1..][k - 1..] == s[k..];
      ContainsInSuffix(s[1..], k - 1, p);
    }
  }

  /** An occurrence in a prefix is an occurrence in the whole. */
  lemma {:induction false} ContainsInPrefix(s: string, k: nat, p: string)
    requires k <= |s| && Contains(s[..k], p)
    ensures Contains(s, p)
    decreases k
  {
    if IsPrefix(p, s[..k]) {
      assert s[..|p|] == s[..k][..|p|];
    } else {
      assert s[..k][1..] == s[1..][..k - 1];
      ContainsInPrefix(s[1..], k - 1, p);
    }
  }

  /** An occurrence in a slice is an occurrence in the whole. */
  lemma ContainsInSlice(s: string, i: nat, j: nat, p: string)
    requires i <= j <= |s| && Contains(s[i..j], p)
    ensures Contains(s, p)
  {
    assert s[i..j] == s[i..][..j - i];
    ContainsInPrefix(s[i..], j - i, p);
    ContainsInSuffix(s, i, p);
  }

  /** A pattern that starts with a character the text lacks does not occur in it. */
  lemma {:induction false} NotContainsChar(s: string, p: string)
    requires |p| > 0 && forall i :: 0 <= i < |s| ==> s[i] != p[0]
    ensures !Contains(s, p)
    decreases |s|
  {
    if |s| > 0 {
      if |s| >= |p| { assert s[..|p|][0] == s[0]; }
      NotContainsChar(s[1..], p);
    }
  }

  // ---------------------------------------------------------------------------
  // split / join / replace
  // ---------------------------------------------------------------------------

  /** Python's `s.split(sep)` for a non-empty separator: cut at every leftmost,
      non-overlapping occurrence of `sep`; always at least one piece. */
  function Split(s: string, sep: string): (parts: seq<string>)
    requires |sep| > 0
    ensures |parts| >= 1
    decreases |s|
  {
    if |s| < |sep| then [s]
    else if s[..|sep|] == sep then [""] + Split(s[|sep|..], sep)
    else
      var rest := Split(s[1..], sep);
      [[s[0]] + rest[0]] + rest[1..]
  }

  /** Python's `sep.join(parts)`. */
  function Join(sep: string, parts: seq<string>): string
  {
    if |parts| == 0 then ""
    else if |parts| == 1 then parts[0]
    else parts[0] + sep + Join(sep, parts[1..])
  }

  /** The first piece is always a prefix of what the pieces join back to. */
  lemma FirstPieceIsPrefix(sep: string, parts: seq<string>)
    requires |parts| >= 1
    ensures IsPrefix(parts[0], Join(sep, parts))
  {
  }

  /** Gluing text onto the first piece glues it onto the joined text. */
  lemma JoinConsFirst(sep: string, c: string, parts: seq<string>)
    requires |parts| >= 1
    ensures Join(sep, [c + parts[0]] + parts[1..]) == c + Join(sep, parts)
  {
    var q := [c + parts[0]] + parts[1..];
    if |parts| > 1 {
      assert q[1..] == parts[1..];
    }
  }

  /** Joining the pieces with the separator gives back the original text. */
  lemma {:induction false} JoinSplit(s: string, sep: string)
    requires |sep| > 0
    ensures Join(sep, Split(s, sep)) == s
    decreases |s|
  {
    if |s| < |sep| {
    } else if s[..|sep|] == sep {
      JoinSplit(s[|sep|..], sep);
      JoinCons(sep, "", Split(s[|sep|..], sep));
      SplitAround(s, |sep|);
    } else {
      JoinSplit(s[1..], sep);
      JoinConsFirst(sep, [s[0]], Split(s[1..], sep));
      SplitAround(s, 1);
    }
  }

  /** Joining a piece in front of at least one more piece puts the separator between. */
  lemma JoinCons(sep: string, p: string, rest: seq<string>)
    requires |rest| >= 1
    ensures Join(sep, [p] + rest) == p + sep + Join(sep, rest)
  {
    assert ([p] + rest)[1..] == rest;
  }

  lemma SplitAround(s: string, k: nat)
    requires k <= |s|
    ensures s == s[..k] + s[k..]
  {
  }

  /** A string shorter than the pattern cannot contain it. */
  lemma {:induction false} ShortNotContains(s: string, p: string)
    requires |s| < |p|
    ensures !Contains(s, p)
    decreases |s|
  {
    if |s| > 0 {
      ShortNotContains(s[1..], p);
    }
  }

  /** No piece of a split contains the separator. */
  lemma {:induction false} SplitPiecesFree(s: string, sep: string)
    requires |sep| > 0
    ensures forall k :: 0 <= k < |Split(s, sep)| ==> !Contains(Split(s, sep)[k], sep)
    decreases |s|
  {
    var parts := Split(s, sep);
    if |s| < |sep| {
      ShortNotContains(s, sep);
    } else if s[..|sep|] == sep {
      var rest := Split(s[|sep|..], sep);
      SplitPiecesFree(s[|sep|..], sep);
      ShortNotContains("", sep);
      assert parts == [""] + rest;
      assert forall k :: 1 <= k < |parts| ==> parts[k] == rest[k - 1];
    } else {
      var rest := Split(s[1..], sep);
      SplitPiecesFree(s[1..], sep);
      assert parts == [[s[0]] + rest[0]] + rest[1..];
      ConsPieceFree(s, sep);
      assert forall k :: 1 <= k < |parts| ==> parts[k] == rest[k];
    }
  }

  /** The first piece of a split is a prefix of the text. */
  lemma SplitFirstPrefix(s: string, sep: string)
    requires |sep| > 0
    ensures IsPrefix(Split(s, sep)[0], s)
  {
    JoinSplit(s, sep);
    FirstPieceIsPrefix(sep, Split(s, sep));
  }

  /** A piece that does not start at the separator stays free of it when the
      character in front of it is glued on. */
  lemma ConsPieceFree(s: string, sep: string)
    requires |sep| > 0 && |sep| <= |s| && s[..|sep|] != sep
    requires !Contains(Split(s[1..], sep)[0], sep)
    ensures !Contains([s[0]] + Split(s[1..], sep)[0], sep)
  {
    SplitFirstPrefix(s[1..], sep);
    ConsPrefix(s, Split(s[1..], sep)[0]);
    GluedFree([s[0]] + Split(s[1..], sep)[0], s, sep);
  }

  /** Gluing the first character of `s` onto a prefix of `s[1..]` gives a prefix of `s`. */
  lemma ConsPrefix(s: string, r: string)
    requires s != [] && IsPrefix(r, s[1..])
    ensures IsPrefix([s[0]] + r, s) && ([s[0]] + r)[1..] == r
  {
    assert s[..|r| + 1] == [s[0]] + s[1..][..|r|];
  }

  /** A prefix of `s` that does not contain `sep` after its first character,
      where `s` does not start with `sep`, does not contain `sep` at all. */
  lemma GluedFree(p: string, s: string, sep: string)
    requires |sep| <= |s| && s[..|sep|] != sep
    requires p != [] && IsPrefix(p, s) && !Contains(p[1..], sep)
    ensures !Contains(p, sep)
  {
    if |sep| <= |p| {
      assert p[..|sep|] == s[..|sep|];
    }
  }

  /** `s` holds no occurrence of `sep`: it is the only piece. */
  lemma SplitAbsent(s: string, sep: string)
    requires |sep| > 0 && !Contains(s, sep)
    ensures Split(s, sep) == [s]
  {
    var parts := Split(s, sep);
    JoinSplit(s, sep);
    if |parts| >= 2 {
      JoinCons(sep, parts[0], parts[1..]);
      assert [parts[0]] + parts[1..] == parts;
      ContainsMiddle(parts[0], sep, Join(sep, parts[1..]));
    }
  }

  /** A text that contains the separator splits into at least two pieces. */
  lemma SplitMore(s: string, sep: string)
    requires |sep| > 0 && Contains(s, sep)
    ensures |Split(s, sep)| >= 2
  {
    JoinSplit(s, sep);
    SplitPiecesFree(s, sep);
  }

  /** Splitting at the first occurrence of `sep`, at position `k`: the first piece
      is the text before it, the others are the pieces of the text after it. */
  lemma {:induction false} SplitAtFirst(s: string, sep: string, k: nat)
    requires |sep| > 0 && k <= |s| && IsPrefix(sep, s[k..])
    requires forall j :: 0 <= j < k ==> !IsPrefix(sep, s[j..])
    ensures k + |sep| <= |s| && Split(s, sep) == [s[..k]] + Split(s[k + |sep|..], sep)
    decreases k
  {
    if k == 0 {
      assert s[0..] == s;
    } else {
      assert !IsPrefix(sep, s[0..]);
      assert s[0..] == s;
      var t := s[1..];
      forall j | 0 <= j < k - 1 ensures !IsPrefix(sep, t[j..]) {
        assert t[j..] == s[j + 1..];
      }
      assert t[k - 1..] == s[k..];
      SplitAtFirst(t, sep, k - 1);
      assert t[k - 1 + |sep|..] == s[k + |sep|..];
      assert [s[0]] + t[..k - 1] == s[..k];
    }
  }

  /** `"".join(parts + [x])` appends `x` to `"".join(parts)`. */
  lemma {:induction false} JoinEmptySnoc(parts: seq<string>, x: string)
    ensures Join("", parts + [x]) == Join("", parts) + x
    decreases |parts|
  {
    if |parts| == 0 {
      assert parts + [x] == [x];
    } else if |parts| == 1 {
      assert parts + [x] == [parts[0]] + [x];
    } else {
      assert (parts + [x])[1..] == parts[1..] + [x];
      JoinEmptySnoc(parts[1..], x);
    }
  }

  /** `s` has no character `c`. */
  predicate Lacks(s: string, c: char) {
    forall i :: 0 <= i < |s| ==> s[i] != c
  }

  /** Text that lacks the first character of `p` cannot hold an occurrence of
      `p` that starts in it: every occurrence lies in what follows. */
  lemma {:induction false} ContainsSkip(a: string, b: string, p: string)
    requires |p| > 0 && Lacks(a, p[0]) && !Contains(b, p)
    ensures !Contains(a + b, p)
    decreases |a|
  {
    if a == [] {
      assert a + b == b;
    } else {
      assert (a + b)[0] == a[0];
      assert (a + b)[1..] == a[1..] + b;
      ContainsSkip(a[1..], b, p);
    }
  }

  /** Python's `s.replace(p, r)` for a non-empty pattern: every leftmost,
      non-overlapping occurrence of `p`, scanning left to right, becomes `r`. */
  function Replace(s: string, p: string, r: string): string
    requires |p| > 0
    decreases |s|
  {
    if |s| < |p| then s
    else if s[..|p|] == p then r + Replace(s[|p|..], p, r)
    else [s[0]] + Replace(s[1..], p, r)
  }

  /** An occurrence at the very start is replaced. */
  lemma ReplaceAtHead(p: string, rest: string, r: string)
    requires |p| > 0
    ensures Replace(p + rest, p, r) == r + Replace(rest, p, r)
  {
    assert (p + rest)[..|p|] == p;
    assert (p + rest)[|p|..] == rest;
  }

  /** A character that cannot start the pattern is copied through unchanged. */
  lemma ReplaceCons(c: char, s: string, p: string, r: string)
    requires |p| > 0 && c != p[0]
    ensures Replace([c] + s, p, r) == [c] + Replace(s, p, r)
  {
    assert ([c] + s)[1..] == s;
    if |[c] + s| >= |p| {
      assert ([c] + s)[..|p|][0] == c;
    }
  }

  /** Text in which the pattern does not occur is left as it is. */
  lemma {:induction false} ReplaceAbsent(s: string, p: string, r: string)
    requires |p| > 0 && !Contains(s, p)
    ensures Replace(s, p, r) == s
    decreases |s|
  {
    if |s| >= |p| {
      ReplaceAbsent(s[1..], p, r);
      assert s == [s[0]] + s[1..];
    }
  }

  /** Replacement never turns a non-empty text into an empty one when `r` is non-empty. */
  lemma ReplaceNonEmpty(s: string, p: string, r: string)
    requires |p| > 0 && |r| > 0
    ensures Replace(s, p, r) == [] <==> s == []
  {
  }

  /** The first character survives a replacement whose pattern cannot start with it. */
  lemma ReplaceHead(s: string, p: string, r: string)
    requires |p| > 0 && |s| > 0 && s[0] != p[0]
    ensures |Replace(s, p, r)| > 0 && Replace(s, p, r)[0] == s[0]
  {
    if |s| >= |p| {
      assert s[..|p|][0] == s[0];
    }
  }

  /** Text whose characters cannot start the pattern passes through unchanged,
      whatever follows it. */
  lemma {:induction false} ReplaceSkip(body: string, tail: string, p: string, r: string)
    requires |p| > 0 && forall i :: 0 <= i < |body| ==> body[i] != p[0]
    ensures Replace(body + tail, p, r) == body + Replace(tail, p, r)
    decreases |body|
  {
    if body == [] {
      assert body + tail == tail;
    } else {
      assert body + tail == [body[0]] + (body[1..] + tail);
      ReplaceCons(body[0], body[1..] + tail, p, r);
      ReplaceSkip(body[1..], tail, p, r);
      assert body == [body[0]] + body[1..];
    }
  }

  /** A character found neither in the text nor in the replacement is not in the result. */
  lemma {:induction false} ReplaceKeepsLacking(s: string, p: string, r: string, c: char)
    requires |p| > 0 && Lacks(s, c) && Lacks(r, c)
    ensures Lacks(Replace(s, p, r), c)
    decreases |s|
  {
    if |s| >= |p| {
      if s[..|p|] == p {
        ReplaceKeepsLacking(s[|p|..], p, r, c);
      } else {
        ReplaceKeepsLacking(s[1..], p, r, c);
      }
    }
  }

  /** Replacing a character by text that lacks it removes it from the text. */
  lemma {:induction false} ReplaceRemovesChar(s: string, c: char, r: string)
    requires Lacks(r, c)
    ensures Lacks(Replace(s, [c], r), c)
    decreases |s|
  {
    if s != [] {
      ReplaceRemovesChar(s[1..], c, r);
      assert s[..1] == [s[0]];
    }
  }

  /** `s` with every occurrence of the character `c` removed. */
  function Without(s: string, c: char): (r: string)
    ensures |r| <= |s| && forall i :: 0 <= i < |r| ==> r[i] != c
  {
    if s == [] then [] else (if s[0] == c then [] else [s[0]]) + Without(s[1..], c)
  }

  /** Replacing a single character by nothing removes exactly that character. */
  lemma {:induction false} ReplaceCharIsWithout(s: string, c: char)
    ensures Replace(s, [c], "") == Without(s, c)
    decreases |s|
  {
    if s != [] {
      assert s[..1] == [s[0]];
      ReplaceCharIsWithout(s[1..], c);
    }
  }

  /** Removing a character distributes over concatenation. */
  lemma {:induction false} WithoutAppend(a: string, b: string, c: char)
    ensures Without(a + b, c) == Without(a, c) + Without(b, c)
    decreases |a|
  {
    if a == [] {
      assert a + b == b;
    } else {
      assert (a + b)[0] == a[0];
      assert (a + b)[1..] == a[1..] + b;
      WithoutAppend(a[1..], b, c);
    }
  }

  /** Text without the character is left as it is. */
  lemma {:induction false} WithoutAbsent(s: string, c: char)
    requires forall i :: 0 <= i < |s| ==> s[i] != c
    ensures Without(s, c) == s
    decreases |s|
  {
    if s != [] {
      WithoutAbsent(s[1..], c);
      assert s == [s[0]] + s[1..];
    }
  }

  /** For a non-whitespace `c`, what remains after removing it is whitespace
      exactly when the text held nothing but `c` and whitespace. */
  lemma {:induction false} WithoutAllSpace(s: string, c: char)
    requires !IsSpace(c)
    ensures AllSpace(Without(s, c)) <==> forall i :: 0 <= i < |s| ==> s[i] == c || IsSpace(s[i])
    decreases |s|
  {
    if s != [] {
      WithoutAllSpace(s[1..], c);
      var head := if s[0] == c then [] else [s[0]];
      var r := Without(s[1..], c);
      assert Without(s, c) == head + r;
      if AllSpace(head + r) {
        forall i | 0 <= i < |r| ensures IsSpace(r[i]) {
          assert r[i] == (head + r)[|head| + i];
        }
        if s[0] != c { assert (head + r)[0] == s[0]; }
        forall i | 0 <= i < |s| ensures s[i] == c || IsSpace(s[i]) {
          if i > 0 { assert s[i] == s[1..][i - 1]; }
        }
      }
      if forall i :: 0 <= i < |s| ==> s[i] == c || IsSpace(s[i]) {
        forall i | 0 <= i < |s| - 1 ensures s[1..][i] == c || IsSpace(s[1..][i]) {
          assert s[1..][i] == s[i + 1];
        }
        forall i | 0 <= i < |head + r| ensures IsSpace((head + r)[i]) {
          if i >= |head| { assert (head + r)[i] == r[i - |head|]; }
        }
      }
    }
  }

  // ---------------------------------------------------------------------------
  // The first token of `str.split()`
  // ---------------------------------------------------------------------------

  /** Length of the run of non-whitespace characters that starts `s`. */
  function WordLength(s: string): (k: nat)
    ensures k <= |s|
    ensures forall i :: 0 <= i < k ==> !IsSpace(s[i])
    ensures k < |s| ==> IsSpace(s[k])
  {
    if |s| > 0 && !IsSpace(s[0]) then 1 + WordLength(s[1..]) else 0
  }

  /** Python's `s.split()[0]`: the first maximal run of non-whitespace characters,
      or `None` where Python raises `IndexError` (the text is all whitespace). */
  function FirstWord(s: string): (w: Option<string>)
    ensures w.None? <==> AllSpace(s)
    ensures w.Some? ==> |w.value| > 0 && forall i :: 0 <= i < |w.value| ==> !IsSpace(w.value[i])
    ensures w.Some? ==>
              && LeadingSpaces(s) + |w.value| <= |s|
              && w.value == s[LeadingSpaces(s)..LeadingSpaces(s) + |w.value|]
              && (LeadingSpaces(s) + |w.value| == |s| || IsSpace(s[LeadingSpaces(s) + |w.value|]))
  {
    var a := LeadingSpaces(s);
    LeadingSpacesShape(s);
    if a == |s| then
      None
    else
      var t := s[a..];
      assert t[0] == s[a];
      assert !AllSpace(s) by { assert !IsSpace(s[a]); }
      Some(t[..WordLength(t)])
  }

  /** The first word of a text is the run of non-whitespace characters after
      its leading whitespace. */
  lemma FirstWordAfterSpaces(pre: string, t: string, r: string)
    requires AllSpace(pre) && t != [] && forall i :: 0 <= i < |t| ==> !IsSpace(t[i])
    requires r == [] || IsSpace(r[0])
    ensures FirstWord(pre + t + r) == Some(t)
  {
    var x := pre + t + r;
    assert x == pre + (t + r);
    LeadingSpacesAfter(pre, t + r);
    assert (t + r)[0] == t[0];
    assert LeadingSpaces(t + r) == 0;
    assert x[|pre|..] == t + r;
    WordLengthOf(t, r);
    assert (t + r)[..|t|] == t;
  }

  /** The leading word of `t + r` is all of `t` when `t` has no whitespace and
      `r` is empty or starts with whitespace. */
  lemma {:induction false} WordLengthOf(t: string, r: string)
    requires forall i :: 0 <= i < |t| ==> !IsSpace(t[i])
    requires r == [] || IsSpace(r[0])
    ensures WordLength(t + r) == |t|
    decreases |t|
  {
    if t == [] {
      assert t + r == r;
    } else {
      assert (t + r)[0] == t[0];
      assert (t + r)[1..] == t[1..] + r;
      WordLengthOf(t[1..], r);
    }
  }

  // ---------------------------------------------------------------------------
  // Decimal numerals (Python's `str(i)` for a non-negative int)
  // ---------------------------------------------------------------------------

  function DigitChar(d: nat): (c: char)
    requires d < 10
    ensures '0' <= c <= '9'
  {
    "0123456789"[d]
  }

  /** The decimal numeral of `n`, without leading zeros. */
  function NatToString(n: nat): (s: string)
    ensures |s| > 0 && forall i :: 0 <= i < |s| ==> '0' <= s[i] <= '9'
    ensures |s| > 1 ==> s[0] != '0'
  {
    if n < 10 then [DigitChar(n)]
    else
      var s := NatToString(n / 10) + [DigitChar(n % 10)];
      assert s[0] == NatToString(n / 10)[0];
      s
  }
}
