/**
 * `findRequires` and `getMatches`: collect the package names of every
 * `require('name')` call in a source text, as the global regular expression
 * `require\(\s*['"]([^'"]+)['"]\s*\)` finds them with repeated `exec` calls.
 *
 * The pattern is written out as a scanner (`MatchAt`) and proved equal to a
 * declarative reading of the pattern (`Shape`): backtracking can never pick a
 * different split, so the match at a position, when there is one, is unique.
 */
module RequireScan {
  import opened Wrappers

  const Require: string := "require("

  /**
   * JavaScript's `\s`: tab, line feed, vertical tab, form feed, carriage
   * return and space; above U+009F the no-break space, the line and paragraph
   * separators, the byte order mark and the Unicode space separators.
   */
  predicate IsSpace(c: char) {
    if c < '\U{00A0}' then '\t' <= c <= '\r' || c == ' '
    else c in WideSpaces || '\U{2000}' <= c <= '\U{200A}'
  }

  const WideSpaces: set<char> :=
    {'\U{00A0}', '\U{1680}', '\U{2028}', '\U{2029}', '\U{202F}', '\U{205F}', '\U{3000}', '\U{FEFF}'}

  predicate IsQuote(c: char) {
    c == '\'' || c == '"'
  }

  /** The word `w` occurs in `s` at index `p`. */
  predicate WordAt(s: string, p: nat, w: string)
    decreases |w|
  {
    if |w| == 0 then p <= |s| else p < |s| && s[p] == w[0] && WordAt(s, p + 1, w[1..])
  }

  lemma {:induction false} WordAtIsSlice(s: string, p: nat, w: string)
    ensures WordAt(s, p, w) <==> p + |w| <= |s| && s[p..p + |w|] == w
    decreases |w|
  {
    if |w| > 0 {
      WordAtIsSlice(s, p + 1, w[1..]);
      assert WordAt(s, p, w) == (p < |s| && s[p] == w[0] && WordAt(s, p + 1, w[1..]));
      if p + |w| <= |s| {
        var t := s[p..p + |w|];
        assert t[1..] == s[p + 1..p + 1 + |w[1..]|];
        assert t == w <==> t[0] == w[0] && t[1..] == w[1..] by {
          assert t == [t[0]] + t[1..];
          assert w == [w[0]] + w[1..];
        }
      }
    }
  }

  /** The end of the longest run of white space starting at `i`. */
  function SkipSpaces(s: string, i: nat): (j: nat)
    requires i <= |s|
    ensures i <= j <= |s|
    decreases |s| - i
  {
    if i < |s| && IsSpace(s[i]) then SkipSpaces(s, i + 1) else i
  }

  /** `SkipSpaces` stops at the first character that is not white space. */
  lemma {:induction false} SkipSpacesMaximal(s: string, i: nat)
    requires i <= |s|
    ensures var j := SkipSpaces(s, i);
      (forall k | i <= k < j :: IsSpace(s[k])) && (j < |s| ==> !IsSpace(s[j]))
    decreases |s| - i
  {
    if i < |s| && IsSpace(s[i]) {
      SkipSpacesMaximal(s, i + 1);
    }
  }

  /** The end of the longest run of non-quote characters starting at `i`. */
  function SkipName(s: string, i: nat): (j: nat)
    requires i <= |s|
    ensures i <= j <= |s|
    decreases |s| - i
  {
    if i < |s| && !IsQuote(s[i]) then SkipName(s, i + 1) else i
  }

  /** `SkipName` stops at the first quote. */
  lemma {:induction false} SkipNameMaximal(s: string, i: nat)
    requires i <= |s|
    ensures var j := SkipName(s, i);
      (forall k | i <= k < j :: !IsQuote(s[k])) && (j < |s| ==> IsQuote(s[j]))
    decreases |s| - i
  {
    if i < |s| && !IsQuote(s[i]) {
      SkipNameMaximal(s, i + 1);
    }
  }

  /** A match: group 1 is `s[from..to]`, and `end` is the index just past the `)`. */
  datatype Found = Found(from: nat, to: nat, end: nat)

  /** The match of the pattern that starts at index `p` of `s`, if any. */
  function MatchAt(s: string, p: nat): (r: Option<Found>)
    ensures r.Some? ==> p + |Require| < r.value.from < r.value.to < r.value.end <= |s|
  {
    if !WordAt(s, p, Require) then None
    else
      var a := SkipSpaces(s, p + |Require|);
      if a == |s| || !IsQuote(s[a]) then None
      else
        var b := SkipName(s, a + 1);
        if b == a + 1 || b == |s| then None
        else
          var c := SkipSpaces(s, b + 1);
          if c == |s| || s[c] != ')' then None
          else Some(Found(a + 1, b, c + 1))
  }

  /**
   * The pattern read declaratively, with the opening quote at `a`, the
   * closing quote at `b` and the `)` at `c`: any split the regular
   * expression engine could settle on.
   */
  predicate Shape(s: string, p: nat, a: nat, b: nat, c: nat) {
    && p + |Require| <= a < b < c < |s|
    && s[p..p + |Require|] == Require
    && (forall k | p + |Require| <= k < a :: IsSpace(s[k]))
    && IsQuote(s[a])
    && a + 1 < b
    && (forall k | a + 1 <= k < b :: !IsQuote(s[k]))
    && IsQuote(s[b])
    && (forall k | b + 1 <= k < c :: IsSpace(s[k]))
    && s[c] == ')'
  }

  lemma {:induction false} SkipSpacesStopsAt(s: string, i: nat, j: nat)
    requires i <= j < |s|
    requires forall k | i <= k < j :: IsSpace(s[k])
    requires !IsSpace(s[j])
    ensures SkipSpaces(s, i) == j
    decreases j - i
  {
    if i < j {
      SkipSpacesStopsAt(s, i + 1, j);
    }
  }

  lemma {:induction false} SkipNameStopsAt(s: string, i: nat, j: nat)
    requires i <= j < |s|
    requires forall k | i <= k < j :: !IsQuote(s[k])
    requires IsQuote(s[j])
    ensures SkipName(s, i) == j
    decreases j - i
  {
    if i < j {
      SkipNameStopsAt(s, i + 1, j);
    }
  }

  /** Wherever the pattern can match, the scanner reports that match. */
  lemma MatchAtComplete(s: string, p: nat, a: nat, b: nat, c: nat)
    requires Shape(s, p, a, b, c)
    ensures MatchAt(s, p) == Some(Found(a + 1, b, c + 1))
  {
    ShapeScans(s, p, a, b, c);
    SkipsMatch(s, p, a, b, c);
  }

  /** On the text of a match, the three scans stop at its quotes and its `)`. */
  lemma ShapeScans(s: string, p: nat, a: nat, b: nat, c: nat)
    requires Shape(s, p, a, b, c)
    ensures WordAt(s, p, Require)
    ensures SkipSpaces(s, p + |Require|) == a && SkipName(s, a + 1) == b && SkipSpaces(s, b + 1) == c
  {
    WordAtIsSlice(s, p, Require);
    SkipSpacesStopsAt(s, p + |Require|, a);
    SkipNameStopsAt(s, a + 1, b);
    SkipSpacesStopsAt(s, b + 1, c);
  }

  /** Whatever the scanner reports is a match of the pattern. */
  lemma MatchAtSound(s: string, p: nat)
    requires MatchAt(s, p).Some?
    ensures exists a: nat, b: nat, c: nat ::
      Shape(s, p, a, b, c) && MatchAt(s, p) == Some(Found(a + 1, b, c + 1))
  {
    assert WordAt(s, p, Require);
    var a := SkipSpaces(s, p + |Require|);
    assert a < |s| && IsQuote(s[a]);
    var b := SkipName(s, a + 1);
    assert a + 1 < b < |s|;
    var c := SkipSpaces(s, b + 1);
    assert c < |s| && s[c] == ')';
    SkipsShape(s, p, a, b, c);
  }

  /** When the three scans find what the scanner looks for, the scanner reports the match they delimit. */
  lemma SkipsMatch(s: string, p: nat, a: nat, b: nat, c: nat)
    requires WordAt(s, p, Require)
    requires p + |Require| <= |s| && a == SkipSpaces(s, p + |Require|) && a < |s| && IsQuote(s[a])
    requires b == SkipName(s, a + 1) && a + 1 < b < |s|
    requires c == SkipSpaces(s, b + 1) && c < |s| && s[c] == ')'
    ensures MatchAt(s, p) == Some(Found(a + 1, b, c + 1))
  {
  }

  /** When the three scans find what the scanner looks for, they delimit a match of the pattern. */
  lemma SkipsShape(s: string, p: nat, a: nat, b: nat, c: nat)
    requires WordAt(s, p, Require)
    requires p + |Require| <= |s| && a == SkipSpaces(s, p + |Require|) && a < |s| && IsQuote(s[a])
    requires b == SkipName(s, a + 1) && a + 1 < b < |s|
    requires c == SkipSpaces(s, b + 1) && c < |s| && s[c] == ')'
    ensures Shape(s, p, a, b, c)
  {
    WordAtIsSlice(s, p, Require);
    SkipSpacesMaximal(s, p + |Require|);
    SkipNameMaximal(s, a + 1);
    SkipSpacesMaximal(s, b + 1);
  }

  /** One match as `exec` reports it: its index, group 1, and the new `lastIndex`. */
  datatype Span = Span(start: nat, found: Found)

  /** The pattern matches at no index in `[lo, hi)`. */
  predicate NoMatchIn(s: string, lo: nat, hi: nat)
    decreases hi - lo
  {
    lo >= hi || (MatchAt(s, lo).None? && NoMatchIn(s, lo + 1, hi))
  }

  /** `NoMatchIn(s, lo, |s|)` rules out a match at every index from `lo` on. */
  lemma {:induction false} NoMatchAt(s: string, lo: nat, hi: nat, q: nat)
    requires lo <= q
    ensures NoMatchIn(s, lo, hi) && (q < hi || hi == |s|) ==> MatchAt(s, q).None?
    decreases hi - lo
  {
    if q >= hi {
      WordAtIsSlice(s, q, Require);
    } else if lo < q {
      NoMatchAt(s, lo + 1, hi, q);
    }
  }

  /** `exec` from `lastIndex`: the leftmost match starting at or after `from`. */
  function NextMatch(s: string, from: nat): (r: Option<Span>)
    ensures r.Some? ==> from <= r.value.start && MatchAt(s, r.value.start) == Some(r.value.found)
    ensures r.Some? ==> NoMatchIn(s, from, r.value.start)
    ensures r.None? ==> NoMatchIn(s, from, |s|)
    decreases |s| - from
  {
    if from >= |s| then None
    else match MatchAt(s, from)
      case Some(f) => Some(Span(from, f))
      case None => NextMatch(s, from + 1)
  }

  /** The successive results of `exec` with the global flag, beginning at `from`. */
  function FindAll(s: string, from: nat): seq<Span>
    decreases |s| - from
  {
    match NextMatch(s, from)
    case None => []
    case Some(m) => [m] + FindAll(s, m.found.end)
  }

  /** A span `exec` could report: the pattern matches at its start as recorded. */
  predicate Reported(s: string, m: Span) {
    MatchAt(s, m.start) == Some(m.found)
  }

  /**
   * Real matches in order, each starting at or after the end of the one
   * before it (the first at or after `from`).
   */
  predicate SpansFrom(s: string, from: nat, r: seq<Span>)
    decreases |r|
  {
    r == [] || (from <= r[0].start && Reported(s, r[0]) && SpansFrom(s, r[0].found.end, r[1..]))
  }

  /** The reported matches are real matches, in source order, and do not overlap. */
  lemma {:induction false} FindAllSpans(s: string, from: nat)
    ensures SpansFrom(s, from, FindAll(s, from))
    decreases |s| - from
  {
    match NextMatch(s, from)
    case None =>
    case Some(m) =>
      FindAllSpans(s, m.found.end);
      assert FindAll(s, from)[1..] == FindAll(s, m.found.end);
  }

  /** Every span of a well-ordered list is a real match. */
  lemma {:induction false} SpansReported(s: string, from: nat, r: seq<Span>, i: nat)
    requires SpansFrom(s, from, r) && i < |r|
    ensures Reported(s, r[i])
    decreases i
  {
    if i > 0 {
      SpansReported(s, r[0].found.end, r[1..], i - 1);
    }
  }

  /** Group 1 of a match. */
  function Name(s: string, m: Span): string {
    if m.found.from <= m.found.to <= |s| then s[m.found.from..m.found.to] else []
  }

  function Names(s: string, spans: seq<Span>): (r: seq<string>)
    ensures |r| == |spans| && forall i | 0 <= i < |r| :: r[i] == Name(s, spans[i])
  {
    if spans == [] then [] else [Name(s, spans[0])] + Names(s, spans[1..])
  }

  /** `findRequires(source)`: the names, in source order. */
  function FindRequires(source: string): seq<string> {
    Names(source, FindAll(source, 0))
  }

  /** Index `q` lies within one of the spans. */
  predicate Covers(spans: seq<Span>, q: nat) {
    exists i | 0 <= i < |spans| :: spans[i].start <= q < spans[i].found.end
  }

  /**
   * No call is missed: every position where the pattern matches either
   * starts a reported match or lies inside one (the global search resumes
   * after each match, so a match overlapping an earlier one is not reported).
   */
  lemma {:induction false} NoMatchSkipped(s: string, from: nat, q: nat)
    requires from <= q && MatchAt(s, q).Some?
    ensures Covers(FindAll(s, from), q)
    decreases |s| - from
  {
    if NextMatch(s, from).None? {
      NoMatchAt(s, from, |s|, q);
      assert false;
    }
    var m := NextMatch(s, from).value;
    assert FindAll(s, from) == [m] + FindAll(s, m.found.end);
    if q >= m.found.end {
      NoMatchSkipped(s, m.found.end, q);
    } else if q < m.start {
      NoMatchAt(s, from, m.start, q);
      assert false;
    }
    CoversCons(m, FindAll(s, m.found.end), q);
  }

  /** Putting a span in front keeps what was covered and adds the positions inside it. */
  lemma CoversCons(m: Span, rest: seq<Span>, q: nat)
    requires m.start <= q < m.found.end || Covers(rest, q)
    ensures Covers([m] + rest, q)
  {
    var r := [m] + rest;
    if !(m.start <= q < m.found.end) {
      var i :| 0 <= i < |rest| && rest[i].start <= q < rest[i].found.end;
      assert r[i + 1] == rest[i];
    } else {
      assert r[0] == m;
    }
  }

  /** The name of a real match is a nonempty run of non-quote characters. */
  lemma ReportedNameWellFormed(s: string, m: Span)
    requires Reported(s, m)
    ensures var n := Name(s, m); |n| > 0 && forall k | 0 <= k < |n| :: !IsQuote(n[k])
  {
    MatchAtSound(s, m.start);
    var a: nat, b: nat, c: nat :| Shape(s, m.start, a, b, c) && MatchAt(s, m.start) == Some(Found(a + 1, b, c + 1));
    assert m.found == Found(a + 1, b, c + 1);
    QuotedNameWellFormed(s, m.start, a, b, c);
  }

  /** The text between the quotes of a match is nonempty and holds no quote. */
  lemma QuotedNameWellFormed(s: string, p: nat, a: nat, b: nat, c: nat)
    requires Shape(s, p, a, b, c)
    ensures var n := s[a + 1..b]; |n| > 0 && forall k | 0 <= k < |n| :: !IsQuote(n[k])
  {
    var n := s[a + 1..b];
    assert forall k | 0 <= k < |n| :: n[k] == s[a + 1 + k];
  }

  /** Every reported name is a nonempty run of non-quote characters. */
  lemma FoundNamesWellFormed(source: string)
    ensures forall n | n in FindRequires(source) :: |n| > 0 && forall k | 0 <= k < |n| :: !IsQuote(n[k])
  {
    var r := FindAll(source, 0);
    FindAllSpans(source, 0);
    forall n | n in FindRequires(source)
      ensures |n| > 0 && forall k | 0 <= k < |n| :: !IsQuote(n[k])
    {
      var i :| 0 <= i < |r| && Names(source, r)[i] == n;
      SpansReported(source, 0, r, i);
      ReportedNameWellFormed(source, r[i]);
    }
  }

  /** One `exec`: the names from `from` on are the next match's name, then the names after it. */
  lemma NamesStep(s: string, from: nat)
    requires NextMatch(s, from).Some?
    ensures var m := NextMatch(s, from).value;
      && m.found.from <= m.found.to <= |s|
      && Names(s, FindAll(s, from)) == [s[m.found.from..m.found.to]] + Names(s, FindAll(s, m.found.end))
  {
    var m := NextMatch(s, from).value;
    assert FindAll(s, from) == [m] + FindAll(s, m.found.end);
    assert Names(s, [m] + FindAll(s, m.found.end)) == [Name(s, m)] + Names(s, FindAll(s, m.found.end));
  }

  /** `getMatches(string, regex, 1)`: call `exec` until it fails, collecting group 1. */
  method GetMatches(s: string) returns (matches: seq<string>)
    ensures matches == FindRequires(s)
  {
    matches := [];
    var lastIndex := 0;
    var found := NextMatch(s, lastIndex);
    while found.Some?
      invariant lastIndex <= |s|
      invariant found == NextMatch(s, lastIndex)
      invariant matches + Names(s, FindAll(s, lastIndex)) == FindRequires(s)
      decreases |s| - lastIndex
    {
      var m := found.value;
      NamesStep(s, lastIndex);
      matches := matches + [s[m.found.from..m.found.to]];
      lastIndex := m.found.end;
      found := NextMatch(s, lastIndex);
    }
    assert FindAll(s, lastIndex) == [];
  }
}
