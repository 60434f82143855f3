/** The one regular expression of the version check,
    `<h2>Package Details: [^<]+ (.+)</h2>`, with the semantics of Rust's
    `regex` crate: the leftmost match wins, and among the matches that start
    there the greedy `[^<]+` takes as much as it can, then the greedy `(.+)`
    does. `[^<]` matches any character but '<', newlines included; `.`
    matches any character but a newline. */
module Heading {
  import opened Wrappers

  const Open: string := "<h2>Package Details: "
  const Close: string := "</h2>"

  /** A stretch `doc[from..to]` that `[^<]` accepts character by character. */
  predicate NoAngle(doc: string, from: int, to: int)
    requires 0 <= from <= to <= |doc|
  {
    forall k :: from <= k < to ==> doc[k] != '<'
  }

  /** A stretch `doc[from..to]` that `.` accepts character by character. */
  predicate NoNewline(doc: string, from: int, to: int)
    requires 0 <= from <= to <= |doc|
  {
    forall k :: from <= k < to ==> doc[k] != '\n'
  }

  /** The pattern matches `doc[s..c + |Close|]` with `[^<]+` covering
      `doc[s + |Open|..b]`, the literal space at `b`, and group 1 covering
      `doc[b + 1..c]`. */
  predicate MatchAt(doc: string, s: int, b: int, c: int) {
    && 0 <= s && s + |Open| < b && b + 1 < c && c + |Close| <= |doc|
    && doc[s..s + |Open|] == Open
    && NoAngle(doc, s + |Open|, b)
    && doc[b] == ' '
    && NoNewline(doc, b + 1, c)
    && doc[c..c + |Close|] == Close
  }

  /** The match the regex engine reports: it starts leftmost, and among the
      matches starting there it has the longest `[^<]+` and then the longest
      group 1 (greedy repetition is tried longest first). */
  ghost predicate LeftmostFirst(doc: string, s: int, b: int, c: int) {
    && MatchAt(doc, s, b, c)
    && (forall s', b', c' :: s' < s ==> !MatchAt(doc, s', b', c'))
    && (forall b', c' :: b < b' ==> !MatchAt(doc, s, b', c'))
    && (forall c' :: c < c' ==> !MatchAt(doc, s, b, c'))
  }

  ghost predicate NoMatch(doc: string) {
    forall s, b, c :: !MatchAt(doc, s, b, c)
  }

  /** At most one match is leftmost-first, so the engine's answer is
      determined by the document alone. */
  lemma LeftmostFirstIsUnique(doc: string, s1: int, b1: int, c1: int, s2: int, b2: int, c2: int)
    requires LeftmostFirst(doc, s1, b1, c1) && LeftmostFirst(doc, s2, b2, c2)
    ensures s1 == s2 && b1 == b2 && c1 == c2
  {
    assert MatchAt(doc, s1, b1, c1) && MatchAt(doc, s2, b2, c2);
  }

  /** A byte range of the document, as Rust's `regex::Match` reports it. */
  datatype Span = Span(start: nat, end: nat)

  /** What `Regex::captures` returns: the whole match and group 1, which
      `Captures::get(1)` may report as absent. */
  datatype Captures = Captures(whole: Span, group1: Option<Span>)

  /** The longest group 1 ending at or before `hi` for fixed `s` and `b`. */
  function LastClose(doc: string, s: int, b: int, hi: int): (r: Option<int>)
    ensures r.Some? ==> r.value <= hi && MatchAt(doc, s, b, r.value)
    ensures r.Some? ==> forall c :: r.value < c <= hi ==> !MatchAt(doc, s, b, c)
    ensures r.None? ==> forall c :: c <= hi ==> !MatchAt(doc, s, b, c)
    decreases hi - b
  {
    if hi <= b + 1 then None
    else if MatchAt(doc, s, b, hi) then Some(hi)
    else LastClose(doc, s, b, hi - 1)
  }

  /** The longest `[^<]+` ending at or before `hi` that leads to a match
      starting at `s`, with its longest group 1. */
  function LastSplit(doc: string, s: int, hi: int): (r: Option<(int, int)>)
    ensures r.Some? ==> r.value.0 <= hi && MatchAt(doc, s, r.value.0, r.value.1)
    ensures r.Some? ==> forall c :: r.value.1 < c ==> !MatchAt(doc, s, r.value.0, c)
    ensures r.Some? ==> forall b, c :: r.value.0 < b <= hi ==> !MatchAt(doc, s, b, c)
    ensures r.None? ==> forall b, c :: b <= hi ==> !MatchAt(doc, s, b, c)
    decreases hi - s
  {
    if hi <= s + |Open| then None
    else
      match LastClose(doc, s, hi, |doc|)
      case Some(c) => Some((hi, c))
      case None => LastSplit(doc, s, hi - 1)
  }

  /** The leftmost match starting at or after `s`. */
  function FirstMatch(doc: string, s: nat): (r: Option<(int, int, int)>)
    ensures r.Some? ==> s <= r.value.0 && LeftmostFirstFrom(doc, s, r.value.0, r.value.1, r.value.2)
    ensures r.None? ==> forall s', b, c :: s <= s' ==> !MatchAt(doc, s', b, c)
    decreases |doc| - s
  {
    if |doc| <= s then None
    else
      match LastSplit(doc, s, |doc|)
      case Some((b, c)) => Some((s, b, c))
      case None => FirstMatch(doc, s + 1)
  }

  /** `LeftmostFirst` restricted to the matches starting at or after `from`. */
  ghost predicate LeftmostFirstFrom(doc: string, from: int, s: int, b: int, c: int) {
    && MatchAt(doc, s, b, c)
    && (forall s', b', c' :: from <= s' < s ==> !MatchAt(doc, s', b', c'))
    && (forall b', c' :: b < b' ==> !MatchAt(doc, s, b', c'))
    && (forall c' :: c < c' ==> !MatchAt(doc, s, b, c'))
  }

  /** `Regex::captures` for the heading pattern. */
  function Capture(doc: string): (r: Option<Captures>)
    ensures r.Some? ==> r.value.group1.Some?
    ensures r.Some? ==> var g := r.value.group1.value;
      && g.start < g.end <= |doc|
      && LeftmostFirst(doc, r.value.whole.start, g.start - 1, g.end)
      && r.value.whole == Span(r.value.whole.start, g.end + |Close|)
    ensures r.None? <==> NoMatch(doc)
  {
    match FirstMatch(doc, 0)
    case None => None
    case Some((s, b, c)) => Some(Captures(Span(s, c + |Close|), Some(Span(b + 1, c))))
  }

  /** The text of group 1, when the pattern matches. */
  function ExtractVersion(doc: string): (r: Option<string>)
    ensures r.Some? ==> |r.value| > 0 && '\n' !in r.value
    ensures r.Some? ==> exists s, b, c :: LeftmostFirst(doc, s, b, c) && r.value == doc[b + 1..c]
    ensures r.None? <==> NoMatch(doc)
  {
    match Capture(doc)
    case None => None
    case Some(caps) =>
      match caps.group1
      case None => None
      case Some(g) => Some(doc[g.start..g.end])
  }

  /** A name or version as the package page prints it: non-empty, with no
      space, no '<' and no line break. */
  predicate IsToken(t: string) {
    |t| > 0 && forall k :: 0 <= k < |t| ==> t[k] != ' ' && t[k] != '<' && t[k] != '\n'
  }

  /** `Open` occurs in `text` at offset `i`. */
  predicate OpenAt(text: string, i: int) {
    0 <= i && i + |Open| <= |text| && text[i..i + |Open|] == Open
  }

  /** `Open` does not occur anywhere in `text`. */
  predicate OpenFree(text: string) {
    forall i :: 0 <= i <= |text| ==> !OpenAt(text, i)
  }

  /** The page layout the version check is written for: the heading with
      the package name and version on one line, and no earlier heading. */
  function Page(pre: string, name: string, version: string, post: string): string {
    pre + Open + name + " " + version + Close + post
  }

  /** The characters of `Page`, position by position. */
  lemma PageLayout(pre: string, name: string, version: string, post: string)
    ensures var doc := Page(pre, name, version, post);
      var a := |pre| + |Open|;
      var b := a + |name|;
      var c := b + 1 + |version|;
      && |doc| == c + |Close| + |post|
      && doc[..|pre|] == pre
      && doc[|pre|..a] == Open
      && (forall k :: a <= k < b ==> doc[k] == name[k - a])
      && doc[b] == ' '
      && (forall k :: b < k < c ==> doc[k] == version[k - b - 1])
      && doc[c..c + |Close|] == Close
      && (forall k :: c + |Close| <= k < |doc| ==> doc[k] == post[k - c - |Close|])
  {
  }

  /** No match can start before the heading: either its `Open` would lie
      inside `pre`, or it would overlap the heading's own '<', which `Open`
      holds only at its first position. */
  lemma NothingBeforeHeading(doc: string, pre: string)
    requires |pre| + |Open| <= |doc| && doc[..|pre|] == pre && doc[|pre|..|pre| + |Open|] == Open
    requires OpenFree(pre)
    ensures forall s, b, c :: s < |pre| ==> !MatchAt(doc, s, b, c)
  {
    assert doc[|pre|..|pre| + |Open|][0] == doc[|pre|];
    forall s, b, c | s < |pre| ensures !MatchAt(doc, s, b, c) {
      if 0 <= s && s + |Open| <= |doc| {
        if s + |Open| <= |pre| {
          forall k | s <= k < s + |Open| ensures doc[k] == pre[k] {
            assert doc[..|pre|][k] == doc[k];
          }
          assert doc[s..s + |Open|] == pre[s..s + |Open|];
          assert !OpenAt(pre, s) && s <= |pre|;
        } else {
          var j := |pre| - s;
          assert 0 < j < |Open|;
          assert Open[j] != '<';
          assert doc[s..s + |Open|][j] == doc[|pre|] == '<';
        }
      }
    }
  }

  /** `[^<]+` cannot reach past the space before the version: the version
      has no space, and the '<' of `Close` stops the repetition. */
  lemma NoLongerName(doc: string, s: int, b0: int, c0: int)
    requires MatchAt(doc, s, b0, c0)
    requires forall k :: b0 < k < c0 ==> doc[k] != ' '
    ensures forall b, c :: b0 < b ==> !MatchAt(doc, s, b, c)
  {
    assert doc[c0..c0 + |Close|][0] == doc[c0];
    forall b, c | b0 < b ensures !MatchAt(doc, s, b, c) {
      if b < c && c + |Close| <= |doc| {
        if b < c0 {
          assert doc[b] != ' ';
        } else if b == c0 {
          assert doc[c0] == '<';
        } else {
          assert doc[c0] == '<' && s + |Open| <= c0 < b;
        }
      }
    }
  }

  /** `(.+)` cannot reach past the version: the characters of `Close` after
      its '<' cannot start another `Close`, and after it comes a line break
      or the end of the document. */
  lemma NoLongerVersion(doc: string, s: int, b0: int, c0: int)
    requires MatchAt(doc, s, b0, c0)
    requires c0 + |Close| == |doc| || doc[c0 + |Close|] == '\n'
    ensures forall c :: c0 < c ==> !MatchAt(doc, s, b0, c)
  {
    forall c | c0 < c ensures !MatchAt(doc, s, b0, c) {
      if c + |Close| <= |doc| {
        if c < c0 + |Close| {
          assert doc[c0..c0 + |Close|][c - c0] == doc[c];
          assert Close[c - c0] != '<';
          assert doc[c..c + |Close|][0] == doc[c];
        } else if c == c0 + |Close| {
          assert doc[c..c + |Close|][0] == doc[c];
        } else {
          assert b0 + 1 <= c0 + |Close| < c;
        }
      }
    }
  }

  /** The heading of a well-formed page is a match, and its group 1 spans
      the version. */
  lemma HeadingMatches(pre: string, name: string, version: string, post: string)
    requires IsToken(name) && IsToken(version)
    ensures var b := |pre| + |Open| + |name|;
      var c := b + 1 + |version|;
      var doc := Page(pre, name, version, post);
      && MatchAt(doc, |pre|, b, c)
      && doc[b + 1..c] == version
      && doc[..|pre|] == pre && doc[|pre|..|pre| + |Open|] == Open
      && (forall k :: b < k < c ==> doc[k] != ' ')
      && (c + |Close| == |doc| || doc[c + |Close|] == post[0])
  {
    var doc := Page(pre, name, version, post);
    PageLayout(pre, name, version, post);
    var a := |pre| + |Open|;
    var b := a + |name|;
    var c := b + 1 + |version|;
    assert NoAngle(doc, a, b);
    assert NoNewline(doc, b + 1, c);
    assert doc[b + 1..c] == version;
  }

  /** The heading of a well-formed page is the match the engine reports. */
  lemma HeadingIsLeftmostFirst(pre: string, name: string, version: string, post: string)
    requires OpenFree(pre) && IsToken(name) && IsToken(version)
    requires |post| == 0 || post[0] == '\n'
    ensures var b := |pre| + |Open| + |name|;
      var c := b + 1 + |version|;
      var doc := Page(pre, name, version, post);
      && c <= |doc|
      && LeftmostFirst(doc, |pre|, b, c)
      && doc[b + 1..c] == version
  {
    var doc := Page(pre, name, version, post);
    var b := |pre| + |Open| + |name|;
    var c := b + 1 + |version|;
    HeadingMatches(pre, name, version, post);
    OnlyMatchIsLeftmostFirst(doc, pre, b, c);
  }

  /** A match right after an `Open`-free prefix whose name part is followed
      by a space-free version and whose `Close` ends the line is the
      leftmost-first match. */
  lemma OnlyMatchIsLeftmostFirst(doc: string, pre: string, b: int, c: int)
    requires MatchAt(doc, |pre|, b, c)
    requires doc[..|pre|] == pre && doc[|pre|..|pre| + |Open|] == Open && OpenFree(pre)
    requires forall k :: b < k < c ==> doc[k] != ' '
    requires c + |Close| == |doc| || doc[c + |Close|] == '\n'
    ensures LeftmostFirst(doc, |pre|, b, c)
  {
    NothingBeforeHeading(doc, pre);
    NoLongerName(doc, |pre|, b, c);
    NoLongerVersion(doc, |pre|, b, c);
  }

  /** A well-formed page yields its version, verbatim. */
  lemma WellFormedPage(pre: string, name: string, version: string, post: string)
    requires OpenFree(pre) && IsToken(name) && IsToken(version)
    requires |post| == 0 || post[0] == '\n'
    ensures ExtractVersion(Page(pre, name, version, post)) == Some(version)
  {
    var doc := Page(pre, name, version, post);
    var b0 := |pre| + |Open| + |name|;
    var c0 := b0 + 1 + |version|;
    HeadingIsLeftmostFirst(pre, name, version, post);
    VersionOfLeftmostFirst(doc, |pre|, b0, c0);
  }

  /** The version extracted from a document is group 1 of its
      leftmost-first match. */
  lemma VersionOfLeftmostFirst(doc: string, s: int, b: int, c: int)
    requires LeftmostFirst(doc, s, b, c)
    ensures ExtractVersion(doc) == Some(doc[b + 1..c])
  {
    CaptureOfLeftmostFirst(doc, s, b, c);
  }

  /** The captures reported for a document are those of its leftmost-first
      match. */
  lemma CaptureOfLeftmostFirst(doc: string, s: int, b: int, c: int)
    requires LeftmostFirst(doc, s, b, c)
    ensures Capture(doc) == Some(Captures(Span(s, c + |Close|), Some(Span(b + 1, c))))
  {
    var r := Capture(doc);
    assert MatchAt(doc, s, b, c);
    assert r.Some?;
    var g := r.value.group1.value;
    var s2 := r.value.whole.start;
    assert LeftmostFirst(doc, s2, g.start - 1, g.end);
    LeftmostFirstIsUnique(doc, s2, g.start - 1, g.end, s, b, c);
    assert r.value.whole == Span(s, c + |Close|);
    assert r.value.group1 == Some(Span(b + 1, c));
  }
}
