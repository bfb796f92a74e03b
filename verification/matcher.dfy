/** `_match_attribute`: the single-line pattern

      ^\s*([a-zA-Z_]+[a-zA-Z_0-9]*)(\s*:\s*(\w+)\s*)?\s*=\s*(.+?)\s*(#\s*(.*?)\s*)?$

    written out as the choices Python's backtracking regular-expression
    engine makes, in the order it makes them. Up to the `=` no choice can be
    undone usefully, so the head is a straight scan; after it the engine
    tries the value's start from the end of the blank run backwards and,
    for each start, the value's end from one character onwards. `.` does not
    match a newline and `$` also matches before one final newline. */
module AttributeMatcher {
  import opened Wrappers
  import opened Strings

  /** `[a-zA-Z_]`. */
  predicate IsNameStart(c: char)
  {
    'a' <= c <= 'z' || 'A' <= c <= 'Z' || c == '_'
  }

  /** `[a-zA-Z_0-9]`, which is also `\w` restricted to ASCII. */
  predicate IsWordChar(c: char)
  {
    IsNameStart(c) || '0' <= c <= '9'
  }

  predicate IsIdentifier(s: string)
  {
    s != [] && IsNameStart(s[0]) && forall i :: 0 < i < |s| ==> IsWordChar(s[i])
  }

  predicate IsWord(s: string)
  {
    s != [] && forall i :: 0 <= i < |s| ==> IsWordChar(s[i])
  }

  /** The four groups the function returns: name, hint, value, comment. */
  datatype Match = Match(name: string, hint: Option<string>, value: string, comment: Option<string>)

  /** Where a greedy `\s*` starting at `i` stops. */
  function SkipSpaces(s: string, i: nat): (j: nat)
    requires i <= |s|
    ensures i <= j <= |s|
    ensures j == |s| || !IsSpace(s[j])
    decreases |s| - i
  {
    if i < |s| && IsSpace(s[i]) then SkipSpaces(s, i + 1) else i
  }

  /** Everything `SkipSpaces` passes over is blank. */
  lemma {:induction false} SkippedSpaces(s: string, i: nat)
    requires i <= |s|
    ensures forall t :: i <= t < SkipSpaces(s, i) ==> IsSpace(s[t])
    decreases |s| - i
  {
    if i < |s| && IsSpace(s[i]) {
      SkippedSpaces(s, i + 1);
    }
  }

  /** Where a greedy run of word characters starting at `i` stops. */
  function SkipWord(s: string, i: nat): (j: nat)
    requires i <= |s|
    ensures i <= j <= |s|
    ensures j == |s| || !IsWordChar(s[j])
    decreases |s| - i
  {
    if i < |s| && IsWordChar(s[i]) then SkipWord(s, i + 1) else i
  }

  /** Everything `SkipWord` passes over is a word character. */
  lemma {:induction false} SkippedWord(s: string, i: nat)
    requires i <= |s|
    ensures forall t :: i <= t < SkipWord(s, i) ==> IsWordChar(s[t])
    decreases |s| - i
  {
    if i < |s| && IsWordChar(s[i]) {
      SkippedWord(s, i + 1);
    }
  }

  /** What the head of the pattern captured, and where the text after
      the `=` starts. */
  datatype Head = Head(name: string, hint: Option<string>, afterEquals: nat)

  /** `(\s*:\s*(\w+)\s*)?\s*=` right after the name, which ends at `i1`:
      the hint, if any, and the position after the `=`. */
  function HintAndEquals(s: string, i1: nat): (r: Option<(Option<string>, nat)>)
    requires i1 <= |s|
    ensures r.Some? ==> i1 < r.value.1 <= |s| && s[r.value.1 - 1] == '='
  {
    var i2 := SkipSpaces(s, i1);
    if i2 < |s| && s[i2] == ':' then
      var i3 := SkipSpaces(s, i2 + 1);
      var i4 := SkipWord(s, i3);
      var i5 := SkipSpaces(s, i4);
      if i3 < i4 && i5 < |s| && s[i5] == '=' then
        Some((Some(s[i3..i4]), i5 + 1))
      else None
    else if i2 < |s| && s[i2] == '=' then
      Some((None, i2 + 1))
    else None
  }

  /** `^\s*([a-zA-Z_]+[a-zA-Z_0-9]*)(\s*:\s*(\w+)\s*)?\s*=`. */
  function MatchHead(s: string): (r: Option<Head>)
    ensures r.Some? ==> 0 < r.value.afterEquals <= |s| && s[r.value.afterEquals - 1] == '='
  {
    var i0 := SkipSpaces(s, 0);
    if i0 == |s| || !IsNameStart(s[i0]) then None
    else
      var i1 := SkipWord(s, i0 + 1);
      match HintAndEquals(s, i1)
      case None => None
      case Some(he) => Some(Head(s[i0..i1], he.0, he.1))
  }

  /** Where the blank run that ends at `b` starts, looking no further
      back than `a`. */
  function TrimmedEnd(s: string, a: nat, b: nat): (r: nat)
    requires a <= b <= |s|
    ensures a <= r <= b
    decreases b
  {
    if a < b && IsSpace(s[b - 1]) then TrimmedEnd(s, a, b - 1) else b
  }

  /** `#\s*(.*?)\s*$` from the `#` at `h`: the bounds of the comment, the
      blanks around it left out, provided it stays on one line. */
  function CommentAt(s: string, h: nat): (r: Option<(nat, nat)>)
    requires h < |s|
    ensures r.Some? ==> h < r.value.0 <= r.value.1 <= |s|
  {
    var a := SkipSpaces(s, h + 1);
    var b := TrimmedEnd(s, a, |s|);
    if '\n' in s[a..b] then None else Some((a, b))
  }

  /** `\s*(#\s*(.*?)\s*)?$` at position `e`: Some(None) when the rest of
      the line is blank, Some(Some(bounds)) when it is a comment, None when
      neither matches. */
  function Trailer(s: string, e: nat): (r: Option<Option<(nat, nat)>>)
    requires e <= |s|
    ensures r.Some? && r.value.Some? ==> e < r.value.value.0 <= r.value.value.1 <= |s|
    decreases |s| - e
  {
    if e == |s| then Some(None)
    else if IsSpace(s[e]) then Trailer(s, e + 1)
    else if s[e] == '#' then
      match CommentAt(s, e)
      case None => None
      case Some(ab) => Some(Some(ab))
    else None
  }

  /** `(.+?)` for a value whose last character is at `e - 1`: the first
      of the ends `e`, `e + 1`, ... at which the trailer matches; `.` cannot
      cross a newline. */
  function ValueEnd(s: string, e: nat): (f: Option<nat>)
    requires 0 < e <= |s|
    ensures f.Some? ==> e <= f.value <= |s| && Trailer(s, f.value).Some?
    decreases |s| - e
  {
    if s[e - 1] == '\n' then None
    else if Trailer(s, e).Some? then Some(e)
    else if e == |s| then None
    else ValueEnd(s, e + 1)
  }

  /** `\s*(.+?)`: the blank run after `=` is first taken whole and then
      given back one character at a time; the result is the value's start
      and end. */
  function ValueSearch(s: string, p: nat, k: nat): (r: Option<(nat, nat)>)
    requires p <= k <= |s|
    ensures r.Some? ==> p <= r.value.0 < r.value.1 <= |s| && Trailer(s, r.value.1).Some?
    decreases k - p
  {
    var found := if k < |s| then ValueEnd(s, k + 1) else None;
    if found.Some? then Some((k, found.value))
    else if k == p then None
    else ValueSearch(s, p, k - 1)
  }

  /** The comment text the trailer's bounds select. */
  function CommentOf(s: string, bounds: Option<(nat, nat)>): Option<string>
    requires bounds.Some? ==> bounds.value.0 <= bounds.value.1 <= |s|
  {
    match bounds
    case None => None
    case Some(ab) => Some(s[ab.0..ab.1])
  }

  /** `\s*(.+?)\s*(#\s*(.*?)\s*)?$` after the `=` at `p - 1`: the value
      and the comment. */
  function MatchTail(s: string, p: nat): Option<(string, Option<string>)>
    requires p <= |s|
  {
    match ValueSearch(s, p, SkipSpaces(s, p))
    case None => None
    case Some(kf) => Some((s[kf.0..kf.1], CommentOf(s, Trailer(s, kf.1).value)))
  }

  /** The pattern on a line from which the final newline, if any, has been
      removed, so that `$` only matches at its end. */
  function MatchBody(s: string): Option<Match>
  {
    match MatchHead(s)
    case None => None
    case Some(h) =>
      match MatchTail(s, h.afterEquals)
      case None => None
      case Some(vc) => Some(Match(h.name, h.hint, vc.0, vc.1))
  }

  /** `$` matches at the end or before a final newline: a line that ends
      in a newline loses exactly that newline, any other line is kept. */
  function StripFinalNewline(line: string): (r: string)
    ensures line != [] && line[|line| - 1] == '\n' ==> r + "\n" == line
    ensures line == [] || line[|line| - 1] != '\n' ==> r == line
    ensures |r| <= |line| && r == line[..|r|]
  {
    if line != [] && line[|line| - 1] == '\n' then line[..|line| - 1] else line
  }

  /** `_match_attribute(line)`: the name, hint, value and inline comment of
      an attribute declaration, or None when the line is not one. */
  function MatchAttribute(line: string): Option<Match>
  {
    MatchBody(StripFinalNewline(line))
  }

  /** The head's name is an identifier that sits at the first non-blank
      position and is followed by a character that cannot continue it. */
  lemma HeadName(s: string)
    requires MatchHead(s).Some?
    ensures var name := MatchHead(s).value.name;
            var i0 := SkipSpaces(s, 0);
            && IsIdentifier(name)
            && i0 + |name| < |s| && s[i0..i0 + |name|] == name
            && !IsWordChar(s[i0 + |name|])
  {
    var i0 := SkipSpaces(s, 0);
    NameIsIdentifier(s, i0);
  }

  /** A name start followed by the greedy run of word characters after it
      is an identifier. */
  lemma NameIsIdentifier(s: string, i0: nat)
    requires i0 < |s| && IsNameStart(s[i0])
    ensures IsIdentifier(s[i0..SkipWord(s, i0 + 1)])
  {
    var name := s[i0..SkipWord(s, i0 + 1)];
    SkippedWord(s, i0 + 1);
    forall t | 0 < t < |name|
      ensures IsWordChar(name[t])
    {
      assert name[t] == s[i0 + t];
    }
  }

  /** The hint, when there is one, is a non-empty run of word characters. */
  lemma HeadHint(s: string)
    requires MatchHead(s).Some? && MatchHead(s).value.hint.Some?
    ensures IsWord(MatchHead(s).value.hint.value)
  {
    HintIsWord(s, SkipWord(s, SkipSpaces(s, 0) + 1));
  }

  lemma HintIsWord(s: string, i1: nat)
    requires i1 <= |s| && HintAndEquals(s, i1).Some? && HintAndEquals(s, i1).value.0.Some?
    ensures IsWord(HintAndEquals(s, i1).value.0.value)
  {
    var i2 := SkipSpaces(s, i1);
    var i3 := SkipSpaces(s, i2 + 1);
    var i4 := SkipWord(s, i3);
    var hint := s[i3..i4];
    SkippedWord(s, i3);
    forall t | 0 <= t < |hint|
      ensures IsWordChar(hint[t])
    {
      assert hint[t] == s[i3 + t];
    }
  }

  /** The comment the trailer captures stays on one line and has no blank
      at either end. */
  lemma {:induction false} TrailerComment(s: string, e: nat)
    requires e <= |s| && Trailer(s, e).Some? && Trailer(s, e).value.Some?
    ensures var ab := Trailer(s, e).value.value;
            var c := s[ab.0..ab.1];
            '\n' !in c && (c == [] || (!IsSpace(c[0]) && !IsSpace(c[|c| - 1])))
    decreases |s| - e
  {
    if IsSpace(s[e]) {
      TrailerComment(s, e + 1);
    } else {
      var a := SkipSpaces(s, e + 1);
      var b := TrimmedEnd(s, a, |s|);
      TrimmedEndStops(s, a, |s|);
      var c := s[a..b];
      if c != [] {
        assert c[0] == s[a] && c[|c| - 1] == s[b - 1];
      }
    }
  }

  lemma {:induction false} TrimmedEndStops(s: string, a: nat, b: nat)
    requires a <= b <= |s|
    ensures var r := TrimmedEnd(s, a, b);
            r == a || !IsSpace(s[r - 1])
    decreases b
  {
    if a < b && IsSpace(s[b - 1]) {
      TrimmedEndStops(s, a, b - 1);
    }
  }

  /** The lazy value never crosses a newline. */
  lemma {:induction false} ValueEndOneLine(s: string, e: nat)
    requires 0 < e <= |s| && ValueEnd(s, e).Some?
    ensures '\n' !in s[e - 1..ValueEnd(s, e).value]
    decreases |s| - e
  {
    var f := ValueEnd(s, e).value;
    if f > e {
      ValueEndOneLine(s, e + 1);
      assert s[e - 1..f] == [s[e - 1]] + s[e..f];
    }
  }

  /** The lazy value never ends in a blank beyond its first character: the
      trailer would already have matched one position earlier. */
  lemma {:induction false} ValueEndNotBlank(s: string, e: nat)
    requires 0 < e <= |s|
    ensures var f := ValueEnd(s, e);
            f.Some? && f.value > e ==> !IsSpace(s[f.value - 1])
    decreases |s| - e
  {
    if s[e - 1] != '\n' && Trailer(s, e).None? && e < |s| {
      ValueEndNotBlank(s, e + 1);
      var f := ValueEnd(s, e + 1);
      if f == Some(e + 1) {
        // a blank at `e` would pass the trailer at `e + 1` back to `e`
        assert !IsSpace(s[e]);
      }
    }
  }

  /** The value is non-empty, stays on one line, and ends in a non-blank
      character unless it is a single character. */
  lemma TailValue(s: string, p: nat)
    requires p <= |s| && MatchTail(s, p).Some?
    ensures var v := MatchTail(s, p).value.0;
            v != [] && '\n' !in v && (|v| == 1 || !IsSpace(v[|v| - 1]))
  {
    var kf := ValueSearch(s, p, SkipSpaces(s, p)).value;
    ValueSearchFound(s, p, SkipSpaces(s, p));
    var v := s[kf.0..kf.1];
    assert v[|v| - 1] == s[kf.1 - 1];
  }

  /** What the value search found is the lazy value at its start. */
  lemma {:induction false} ValueSearchFound(s: string, p: nat, k: nat)
    requires p <= k <= |s| && ValueSearch(s, p, k).Some?
    ensures var kf := ValueSearch(s, p, k).value;
            && '\n' !in s[kf.0..kf.1]
            && (kf.1 == kf.0 + 1 || !IsSpace(s[kf.1 - 1]))
    decreases k - p
  {
    if k < |s| && ValueEnd(s, k + 1).Some? {
      assert ValueSearch(s, p, k) == Some((k, ValueEnd(s, k + 1).value));
      ValueEndOneLine(s, k + 1);
      ValueEndNotBlank(s, k + 1);
    } else {
      assert ValueSearch(s, p, k) == ValueSearch(s, p, k - 1);
      ValueSearchFound(s, p, k - 1);
    }
  }

  /** A match is the head's groups followed by the tail's. */
  lemma MatchedParts(line: string)
    requires MatchAttribute(line).Some?
    ensures var body := StripFinalNewline(line);
            && MatchHead(body).Some?
            && var h := MatchHead(body).value;
            && MatchTail(body, h.afterEquals).Some?
            && var vc := MatchTail(body, h.afterEquals).value;
            MatchAttribute(line).value == Match(h.name, h.hint, vc.0, vc.1)
  {
  }

  /** A matched line holds an `=`, and its name is an identifier. */
  lemma MatchedName(line: string)
    requires MatchAttribute(line).Some?
    ensures '=' in line
    ensures IsIdentifier(MatchAttribute(line).value.name)
  {
    var body := StripFinalNewline(line);
    var p := MatchHead(body).value.afterEquals;
    HeadName(body);
    assert line[p - 1] == body[p - 1];
  }

  /** The matched name starts the line once the indentation is removed,
      and is followed by a character that cannot continue it. */
  lemma MatchedNameStartsLine(line: string)
    requires MatchAttribute(line).Some?
    ensures var name := MatchAttribute(line).value.name;
            var t := TrimStart(line);
            |name| < |t| && t[..|name|] == name && !IsWordChar(t[|name|])
  {
    var body := StripFinalNewline(line);
    MatchedParts(line);
    var name := MatchHead(body).value.name;
    HeadName(body);
    NameInLine(line, body, name, SkipSpaces(body, 0));
  }

  /** A matched hint is a non-empty run of word characters. */
  lemma MatchedHint(line: string)
    requires MatchAttribute(line).Some? && MatchAttribute(line).value.hint.Some?
    ensures IsWord(MatchAttribute(line).value.hint.value)
  {
    HeadHint(StripFinalNewline(line));
  }

  /** A matched value is non-empty, stays on one line, and ends in a
      non-blank character unless it is a single character. */
  lemma MatchedValue(line: string)
    requires MatchAttribute(line).Some?
    ensures var v := MatchAttribute(line).value.value;
            v != [] && '\n' !in v && (|v| == 1 || !IsSpace(v[|v| - 1]))
  {
    var body := StripFinalNewline(line);
    TailValue(body, MatchHead(body).value.afterEquals);
  }

  /** A matched comment stays on one line and has no blank at either end. */
  lemma MatchedComment(line: string)
    requires MatchAttribute(line).Some? && MatchAttribute(line).value.comment.Some?
    ensures var c := MatchAttribute(line).value.comment.value;
            '\n' !in c && (c == [] || (!IsSpace(c[0]) && !IsSpace(c[|c| - 1])))
  {
    var body := StripFinalNewline(line);
    var p := MatchHead(body).value.afterEquals;
    var kf := ValueSearch(body, p, SkipSpaces(body, p)).value;
    TrailerComment(body, kf.1);
  }

  /** The name found at the first non-blank position `i0` of the stripped
      line `body` also starts the whole line once its indentation is
      removed. */
  lemma NameInLine(line: string, body: string, name: string, i0: nat)
    requires body == StripFinalNewline(line)
    requires i0 == SkipSpaces(body, 0) && i0 + |name| < |body|
    requires body[i0..i0 + |name|] == name && !IsWordChar(body[i0 + |name|])
    ensures var t := TrimStart(line);
            |name| < |t| && t[..|name|] == name && !IsWordChar(t[|name|])
  {
    var n := |name|;
    TrimStartLine(line, body);
    var t := line[i0..];
    assert |body| <= |line| && line[..|body|] == body;
    forall k | 0 <= k <= n
      ensures t[k] == body[i0 + k]
    {
      calc {
        t[k];
        line[i0 + k];
        line[..|body|][i0 + k];
      }
    }
    assert t[..n] == name by {
      forall k | 0 <= k < n
        ensures t[..n][k] == name[k]
      {
        assert body[i0..i0 + n][k] == body[i0 + k];
      }
    }
  }

  /** The blanks `SkipSpaces` passes over in the body are the ones
      `TrimStart` removes from the line. */
  lemma TrimStartLine(line: string, body: string)
    requires body == StripFinalNewline(line) && SkipSpaces(body, 0) < |body|
    ensures TrimStart(line) == line[SkipSpaces(body, 0)..]
  {
    var i0 := SkipSpaces(body, 0);
    assert line[..|body|] == body;
    assert line[i0] == body[i0];
    SkippedSpaces(body, 0);
    forall t | 0 <= t < i0
      ensures IsSpace(line[t])
    {
      assert line[t] == body[t];
    }
    TrimStartAt(line, i0);
  }

  /** Where the first non-blank character is, `TrimStart` starts. */
  lemma {:induction false} TrimStartAt(s: string, i: nat)
    requires i < |s| && !IsSpace(s[i])
    requires forall t :: 0 <= t < i ==> IsSpace(s[t])
    ensures TrimStart(s) == s[i..]
    decreases i
  {
    if i > 0 {
      TrimStartAt(s[1..], i - 1);
      assert s[1..][i - 1..] == s[i..];
    }
  }
}
