/** What `_match_attribute` reads back: a declaration laid out with blank
    gaps between its parts yields exactly the name, hint, value and comment
    it was written with. */
module AttributeLayout {
  import opened Wrappers
  import opened Strings
  import opened AttributeMatcher

  /** The blank runs around the parts of a declaration. Any of them may be
      empty, and `\s` also matches a newline, so they may hold newlines. */
  datatype Spacing = Spacing(
    indent: string, beforeColon: string, afterColon: string,
    beforeEquals: string, afterEquals: string,
    beforeComment: string, afterHash: string, trailing: string)

  predicate Blank(sp: Spacing)
  {
    && AllSpace(sp.indent) && AllSpace(sp.beforeColon) && AllSpace(sp.afterColon)
    && AllSpace(sp.beforeEquals) && AllSpace(sp.afterEquals)
    && AllSpace(sp.beforeComment) && AllSpace(sp.afterHash) && AllSpace(sp.trailing)
  }

  /** The groups a declaration can be written with and read back intact:
      the value has no `#` (the first one starts the comment), no newline,
      and no blank at its ends (they belong to the gaps); the comment has no
      newline and no blank at its ends. */
  predicate Renderable(m: Match)
  {
    && IsIdentifier(m.name)
    && (m.hint.Some? ==> IsWord(m.hint.value))
    && m.value != [] && !IsSpace(m.value[0]) && !IsSpace(m.value[|m.value| - 1])
    && '#' !in m.value && '\n' !in m.value
    && (m.comment.Some? ==> CleanComment(m.comment.value))
  }

  predicate CleanComment(c: string)
  {
    '\n' !in c && (c == [] || (!IsSpace(c[0]) && !IsSpace(c[|c| - 1])))
  }

  /** The hint group, if any, followed by `rest`. */
  function HintText(m: Match, sp: Spacing, rest: string): string
  {
    if m.hint.Some? then sp.beforeColon + (":" + (sp.afterColon + (m.hint.value + rest)))
    else rest
  }

  /** The comment group, if any, followed by `rest`. */
  function CommentText(m: Match, sp: Spacing, rest: string): string
  {
    if m.comment.Some? then "#" + (sp.afterHash + (m.comment.value + rest)) else rest
  }

  /** Everything after the `=`. */
  function TailText(m: Match, sp: Spacing): string
  {
    sp.afterEquals + (m.value + (sp.beforeComment + CommentText(m, sp, sp.trailing)))
  }

  /** The declaration `m` written out with the gaps `sp`. */
  function Layout(m: Match, sp: Spacing): string
  {
    sp.indent + (m.name + HintText(m, sp, sp.beforeEquals + ("=" + TailText(m, sp))))
  }

  /** Reading `x` off the front of what `s` holds from `i` on. */
  lemma Peel(s: string, i: nat, x: string, rest: string)
    requires i <= |s| && s[i..] == x + rest
    ensures i + |x| <= |s| && s[i..i + |x|] == x && s[i + |x|..] == rest
  {
    assert s[i..i + |x|] == (x + rest)[..|x|];
    assert s[i + |x|..] == (x + rest)[|x|..];
  }

  lemma CharAt(s: string, i: nat, x: string, rest: string, t: nat)
    requires i <= |s| && s[i..] == x + rest && t < |x|
    ensures i + t < |s| && s[i + t] == x[t]
  {
    assert s[i..][t] == s[i + t];
  }

  /** A single character read off the front. */
  lemma Lit(s: string, i: nat, c: char, rest: string)
    requires i <= |s| && s[i..] == [c] + rest
    ensures i < |s| && s[i] == c && s[i + 1..] == rest
  {
    CharAt(s, i, [c], rest, 0);
    Peel(s, i, [c], rest);
  }

  /** A greedy `\s*` at the start of a blank run stops where the run ends. */
  lemma {:induction false} SkipSpacesTo(s: string, i: nat, j: nat)
    requires i <= j <= |s|
    requires forall t :: i <= t < j ==> IsSpace(s[t])
    requires j == |s| || !IsSpace(s[j])
    ensures SkipSpaces(s, i) == j
    decreases j - i
  {
    if i < j {
      SkipSpacesTo(s, i + 1, j);
    }
  }

  lemma BlankRun(s: string, i: nat, b: string, rest: string)
    requires i <= |s| && s[i..] == b + rest && AllSpace(b)
    ensures forall t :: i <= t < i + |b| ==> IsSpace(s[t])
  {
    forall t | i <= t < i + |b|
      ensures IsSpace(s[t])
    {
      CharAt(s, i, b, rest, t - i);
    }
  }

  /** `\s*` over a blank gap that is followed by a non-blank or the end. */
  lemma Gap(s: string, i: nat, b: string, rest: string)
    requires i <= |s| && s[i..] == b + rest && AllSpace(b)
    requires rest == [] || !IsSpace(rest[0])
    ensures SkipSpaces(s, i) == i + |b| && s[i + |b|..] == rest
  {
    Peel(s, i, b, rest);
    BlankRun(s, i, b, rest);
    if rest != [] {
      assert s[i + |b|] == s[i + |b|..][0];
    }
    SkipSpacesTo(s, i, i + |b|);
  }

  /** The trailer reads through a blank run unchanged. */
  lemma {:induction false} TrailerSkipsTo(s: string, i: nat, j: nat)
    requires i <= j <= |s|
    requires forall t :: i <= t < j ==> IsSpace(s[t])
    ensures Trailer(s, i) == Trailer(s, j)
    decreases j - i
  {
    if i < j {
      TrailerSkipsTo(s, i + 1, j);
    }
  }

  lemma TrailerGap(s: string, i: nat, b: string, rest: string)
    requires i <= |s| && s[i..] == b + rest && AllSpace(b)
    ensures Trailer(s, i) == Trailer(s, i + |b|) && s[i + |b|..] == rest
  {
    Peel(s, i, b, rest);
    BlankRun(s, i, b, rest);
    TrailerSkipsTo(s, i, i + |b|);
  }

  /** A greedy run of word characters stops where the word ends. */
  lemma {:induction false} SkipWordTo(s: string, i: nat, j: nat)
    requires i <= j <= |s|
    requires forall t :: i <= t < j ==> IsWordChar(s[t])
    requires j == |s| || !IsWordChar(s[j])
    ensures SkipWord(s, i) == j
    decreases j - i
  {
    if i < j {
      SkipWordTo(s, i + 1, j);
    }
  }

  /** Blank text, `:` and `=` cannot continue a name or a hint. */
  lemma NotWordStart(b: string, c: char, rest: string)
    requires AllSpace(b) && (c == ':' || c == '=')
    ensures !IsWordChar((b + ([c] + rest))[0])
  {
    if b != [] {
      assert (b + ([c] + rest))[0] == b[0];
    }
  }

  /** `\s*` from `i` over the blank piece `s[i..j]`, which is followed by
      a non-blank character or the end. */
  lemma GapAt(s: string, i: nat, j: nat, b: string)
    requires i <= j <= |s| && s[i..j] == b && AllSpace(b)
    requires j == |s| || !IsSpace(s[j])
    ensures SkipSpaces(s, i) == j
  {
    forall t | i <= t < j
      ensures IsSpace(s[t])
    {
      assert s[t] == s[i..j][t - i];
    }
    SkipSpacesTo(s, i, j);
  }

  /** A greedy word scan from `i` over the word piece `s[i..j]`. */
  lemma WordAt(s: string, i: nat, j: nat, w: string)
    requires i <= j <= |s| && s[i..j] == w
    requires forall t :: 0 <= t < |w| ==> IsWordChar(w[t])
    requires j == |s| || !IsWordChar(s[j])
    ensures SkipWord(s, i) == j
  {
    forall t | i <= t < j
      ensures IsWordChar(s[t])
    {
      assert s[t] == s[i..j][t - i];
    }
    SkipWordTo(s, i, j);
  }

  /** `HintAndEquals` once each of its scans is known. */
  lemma HintAndEqualsAt(s: string, i1: nat, i2: nat, i3: nat, i4: nat, i5: nat, hint: string)
    requires i1 <= i2 < i3 <= i4 <= i5 < |s|
    requires SkipSpaces(s, i1) == i2 && s[i2] == ':' && SkipSpaces(s, i2 + 1) == i3
    requires SkipWord(s, i3) == i4 && i3 < i4 && s[i3..i4] == hint
    requires SkipSpaces(s, i4) == i5 && s[i5] == '='
    ensures HintAndEquals(s, i1).Some? && HintAndEquals(s, i1).value.0 == Some(hint)
    ensures HintAndEquals(s, i1).value.1 == i5 + 1
  {
  }

  /** The hint group `\s*:\s*(\w+)\s*` laid out in pieces, and the `=`
      after it. */
  lemma HintPiecesAt(s: string, i1: nat, i2: nat, i3: nat, i4: nat, i5: nat,
                     bc: string, ac: string, hint: string, be: string)
    requires AllSpace(bc) && AllSpace(ac) && AllSpace(be) && IsWord(hint)
    requires i1 <= i2 < i3 <= i4 <= i5 < |s|
    requires s[i1..i2] == bc && s[i2] == ':' && s[i2 + 1..i3] == ac && s[i3..i4] == hint
    requires s[i4..i5] == be && s[i5] == '='
    ensures HintAndEquals(s, i1).Some? && HintAndEquals(s, i1).value.0 == Some(hint)
    ensures HintAndEquals(s, i1).value.1 == i5 + 1
  {
    GapAt(s, i1, i2, bc);
    assert s[i3] == hint[0];
    GapAt(s, i2 + 1, i3, ac);
    if be != [] {
      assert s[i4] == be[0];
    }
    WordAt(s, i3, i4, hint);
    GapAt(s, i4, i5, be);
    HintAndEqualsAt(s, i1, i2, i3, i4, i5, hint);
  }

  /** The hint group and the `=` read off the front of `s[i1..]`. */
  lemma HintGroupOfLayout(s: string, i1: nat, bc: string, ac: string, hint: string,
                          be: string, tail: string)
    requires AllSpace(bc) && AllSpace(ac) && AllSpace(be) && IsWord(hint)
    requires i1 <= |s| && s[i1..] == bc + (":" + (ac + (hint + (be + ("=" + tail)))))
    ensures HintAndEquals(s, i1).Some? && HintAndEquals(s, i1).value.0 == Some(hint)
    ensures s[HintAndEquals(s, i1).value.1..] == tail
  {
    var i2 := i1 + |bc|;
    var i3 := i2 + 1 + |ac|;
    var i4 := i3 + |hint|;
    var i5 := i4 + |be|;
    Peel(s, i1, bc, ":" + (ac + (hint + (be + ("=" + tail)))));
    Lit(s, i2, ':', ac + (hint + (be + ("=" + tail))));
    Peel(s, i2 + 1, ac, hint + (be + ("=" + tail)));
    Peel(s, i3, hint, be + ("=" + tail));
    Peel(s, i4, be, "=" + tail);
    Lit(s, i5, '=', tail);
    HintPiecesAt(s, i1, i2, i3, i4, i5, bc, ac, hint, be);
  }

  /** Without a hint, only `\s*=` follows the name. */
  lemma EqualsOfLayout(s: string, i1: nat, be: string, tail: string)
    requires AllSpace(be) && i1 <= |s| && s[i1..] == be + ("=" + tail)
    ensures HintAndEquals(s, i1).Some? && HintAndEquals(s, i1).value.0 == None
    ensures s[HintAndEquals(s, i1).value.1..] == tail
  {
    var i5 := i1 + |be|;
    Peel(s, i1, be, "=" + tail);
    Lit(s, i5, '=', tail);
    GapAt(s, i1, i5, be);
  }

  /** `(\s*:\s*(\w+)\s*)?\s*=` over a laid-out hint and `=`, from the end
      `i1` of the name; it ends just after the `=`, where the tail starts. */
  lemma HintOfLayout(s: string, i1: nat, m: Match, sp: Spacing, tail: string)
    requires m.hint.Some? ==> IsWord(m.hint.value)
    requires AllSpace(sp.beforeColon) && AllSpace(sp.afterColon) && AllSpace(sp.beforeEquals)
    requires i1 <= |s| && s[i1..] == HintText(m, sp, sp.beforeEquals + ("=" + tail))
    ensures HintAndEquals(s, i1).Some?
    ensures HintAndEquals(s, i1).value.0 == m.hint
    ensures s[HintAndEquals(s, i1).value.1..] == tail
  {
    if m.hint.Some? {
      HintGroupOfLayout(s, i1, sp.beforeColon, sp.afterColon, m.hint.value, sp.beforeEquals, tail);
    } else {
      EqualsOfLayout(s, i1, sp.beforeEquals, tail);
    }
  }

  /** `MatchHead` once the name's bounds and the rest of the head are
      known. */
  lemma MatchHeadAt(s: string, i0: nat, i1: nat)
    requires i0 < i1 <= |s| && SkipSpaces(s, 0) == i0 && IsNameStart(s[i0])
    requires SkipWord(s, i0 + 1) == i1 && HintAndEquals(s, i1).Some?
    ensures MatchHead(s).Some? && MatchHead(s).value.name == s[i0..i1]
    ensures MatchHead(s).value.hint == HintAndEquals(s, i1).value.0
    ensures MatchHead(s).value.afterEquals == HintAndEquals(s, i1).value.1
  {
  }

  /** The name piece `s[i0..i1]` of a laid-out declaration. */
  lemma NameAt(s: string, i0: nat, i1: nat, name: string)
    requires i0 < i1 <= |s| && s[i0..i1] == name && IsIdentifier(name)
    requires i1 == |s| || !IsWordChar(s[i1])
    ensures IsNameStart(s[i0]) && SkipWord(s, i0 + 1) == i1
  {
    assert s[i0] == name[0];
    assert s[i0 + 1..i1] == name[1..];
    WordAt(s, i0 + 1, i1, name[1..]);
  }

  /** The head of a laid-out declaration: its name and hint, and the tail
      text left after the `=`. */
  lemma HeadOfLayout(s: string, m: Match, sp: Spacing)
    requires Renderable(m) && Blank(sp) && s == Layout(m, sp)
    ensures MatchHead(s).Some?
    ensures MatchHead(s).value.name == m.name && MatchHead(s).value.hint == m.hint
    ensures s[MatchHead(s).value.afterEquals..] == TailText(m, sp)
  {
    var tail := TailText(m, sp);
    var after := HintText(m, sp, sp.beforeEquals + ("=" + tail));
    var i0 := |sp.indent|;
    var i1 := i0 + |m.name|;
    assert s[0..] == sp.indent + (m.name + after);
    Peel(s, 0, sp.indent, m.name + after);
    Peel(s, i0, m.name, after);
    assert s[i0] == m.name[0];
    GapAt(s, 0, i0, sp.indent);
    assert !IsWordChar(s[i1]) by {
      assert s[i1] == after[0];
      if m.hint.Some? {
        NotWordStart(sp.beforeColon, ':', sp.afterColon + (m.hint.value + (sp.beforeEquals + ("=" + tail))));
      } else {
        NotWordStart(sp.beforeEquals, '=', tail);
      }
    }
    NameAt(s, i0, i1, m.name);
    HintOfLayout(s, i1, m, sp, tail);
    MatchHeadAt(s, i0, i1);
  }

  /** `\s*$` at the end of a blank run: the comment ends where the run
      starts. */
  lemma {:induction false} TrimmedEndTo(s: string, a: nat, r: nat, b: nat)
    requires a <= r <= b <= |s|
    requires forall t :: r <= t < b ==> IsSpace(s[t])
    requires r == a || !IsSpace(s[r - 1])
    ensures TrimmedEnd(s, a, b) == r
    decreases b - r
  {
    if r < b {
      TrimmedEndTo(s, a, r, b - 1);
    }
  }

  /** `CommentAt` once its two scans are known. */
  lemma CommentBounds(s: string, h: nat, a: nat, b: nat)
    requires h < |s| && SkipSpaces(s, h + 1) == a && a <= |s|
    requires TrimmedEnd(s, a, |s|) == b && a <= b && '\n' !in s[a..b]
    ensures CommentAt(s, h).Some? && CommentOf(s, CommentAt(s, h)) == Some(s[a..b])
  {
  }

  /** The comment of a laid-out declaration, read from its `#` at `h` to
      the end of the line. */
  lemma CommentOfLayout(s: string, h: nat, ah: string, c: string, tr: string)
    requires AllSpace(ah) && AllSpace(tr) && CleanComment(c)
    requires h < |s| && s[h + 1..] == ah + (c + tr)
    ensures CommentAt(s, h).Some? && CommentOf(s, CommentAt(s, h)) == Some(c)
  {
    if c == [] {
      EmptyComment(s, h, ah, tr);
    } else {
      var a := h + 1 + |ah|;
      Peel(s, h + 1, ah, c + tr);
      Peel(s, a, c, tr);
      assert s[a] == c[0];
      GapAt(s, h + 1, a, ah);
      assert s[a + |c| - 1] == c[|c| - 1];
      assert s[a + |c|..] == tr + [];
      BlankRun(s, a + |c|, tr, []);
      TrimmedEndTo(s, a, a + |c|, |s|);
      CommentBounds(s, h, a, a + |c|);
    }
  }

  /** A `#` followed by blanks only holds the empty comment. */
  lemma EmptyComment(s: string, h: nat, ah: string, tr: string)
    requires AllSpace(ah) && AllSpace(tr)
    requires h < |s| && s[h + 1..] == ah + ([] + tr)
    ensures CommentAt(s, h).Some? && CommentOf(s, CommentAt(s, h)) == Some([])
  {
    assert ah + ([] + tr) == (ah + tr) + [];
    Gap(s, h + 1, ah + tr, []);
    CommentBounds(s, h, |s|, |s|);
    assert s[|s|..|s|] == [];
  }

  /** The trailer right after a laid-out value matches, with the comment
      the declaration was written with. */
  lemma TrailerOfLayout(s: string, i: nat, m: Match, sp: Spacing)
    requires Renderable(m) && Blank(sp)
    requires i <= |s| && s[i..] == sp.beforeComment + CommentText(m, sp, sp.trailing)
    ensures Trailer(s, i).Some? && CommentOf(s, Trailer(s, i).value) == m.comment
  {
    TrailerGap(s, i, sp.beforeComment, CommentText(m, sp, sp.trailing));
    var h := i + |sp.beforeComment|;
    if m.comment.Some? {
      var c := m.comment.value;
      Lit(s, h, '#', sp.afterHash + (c + sp.trailing));
      CommentOfLayout(s, h, sp.afterHash, c, sp.trailing);
    } else {
      assert s[h..] == sp.trailing + [];
      TrailerGap(s, h, sp.trailing, []);
    }
  }

  /** Inside a value free of `#` and newlines that ends in a non-blank
      character, the lazy value runs to that character and stops at the
      first end where the trailer matches. */
  lemma {:induction false} ValueEndRunsTo(s: string, k: nat, v: string, rest: string, e: nat)
    requires k <= |s| && s[k..] == v + rest
    requires v != [] && '\n' !in v && '#' !in v && !IsSpace(v[|v| - 1])
    requires k < e <= k + |v| && Trailer(s, k + |v|).Some?
    ensures ValueEnd(s, e).Some? && ValueEnd(s, e).value == k + |v|
    decreases k + |v| - e
  {
    var f := k + |v|;
    CharAt(s, k, v, rest, e - 1 - k);
    if e < f {
      var j := SkipSpaces(s, e);
      CharAt(s, k, v, rest, |v| - 1);
      SkippedSpaces(s, e);
      CharAt(s, k, v, rest, j - k);
      TrailerSkipsTo(s, e, j);
      ValueEndRunsTo(s, k, v, rest, e + 1);
    }
  }

  /** `MatchTail` once the value's start `k` and end `f` are known. */
  lemma MatchTailAt(s: string, p: nat, k: nat, f: nat)
    requires p <= k < f <= |s| && SkipSpaces(s, p) == k
    requires ValueEnd(s, k + 1).Some? && ValueEnd(s, k + 1).value == f
    ensures MatchTail(s, p).Some? && MatchTail(s, p).value.0 == s[k..f]
    ensures MatchTail(s, p).value.1 == CommentOf(s, Trailer(s, f).value)
  {
    assert ValueSearch(s, p, k).Some? && ValueSearch(s, p, k).value.0 == k;
    assert ValueSearch(s, p, k).value.1 == f;
  }

  /** A blank gap `ae` then a value starting with a non-blank: the value
      starts right after the gap. */
  lemma ValueStartAt(s: string, p: nat, ae: string, v: string, rest: string)
    requires AllSpace(ae) && v != [] && !IsSpace(v[0])
    requires p <= |s| && s[p..] == ae + (v + rest)
    ensures p + |ae| + |v| <= |s| && SkipSpaces(s, p) == p + |ae|
    ensures s[p + |ae|..] == v + rest && s[p + |ae|..p + |ae| + |v|] == v
  {
    var k := p + |ae|;
    Peel(s, p, ae, v + rest);
    Peel(s, k, v, rest);
    assert s[k] == v[0];
    GapAt(s, p, k, ae);
  }

  /** A blank gap, then a value free of `#` and newlines with non-blank
      ends, then a matching trailer: the lazy value is exactly that value. */
  lemma ValueOfLayout(s: string, p: nat, ae: string, v: string, rest: string, f: nat)
    requires AllSpace(ae) && v != [] && !IsSpace(v[0]) && !IsSpace(v[|v| - 1])
    requires '#' !in v && '\n' !in v
    requires p <= |s| && s[p..] == ae + (v + rest)
    requires f == p + |ae| + |v| && f <= |s| && Trailer(s, f).Some?
    ensures MatchTail(s, p).Some? && MatchTail(s, p).value.0 == v
    ensures MatchTail(s, p).value.1 == CommentOf(s, Trailer(s, f).value)
  {
    var k := p + |ae|;
    ValueStartAt(s, p, ae, v, rest);
    ValueEndRunsTo(s, k, v, rest, k + 1);
    MatchTailAt(s, p, k, f);
  }

  /** The tail of a laid-out declaration, read from just after its `=`
      at `p`: the lazy value stops at the end of the written value. */
  lemma TailOfLayout(s: string, p: nat, m: Match, sp: Spacing)
    requires Renderable(m) && Blank(sp)
    requires p <= |s| && s[p..] == TailText(m, sp)
    ensures MatchTail(s, p).Some?
    ensures MatchTail(s, p).value.0 == m.value && MatchTail(s, p).value.1 == m.comment
  {
    var rest := sp.beforeComment + CommentText(m, sp, sp.trailing);
    var f := p + |sp.afterEquals| + |m.value|;
    assert f <= |s| && s[f..] == rest by {
      Peel(s, p, sp.afterEquals, m.value + rest);
      Peel(s, p + |sp.afterEquals|, m.value, rest);
    }
    TrailerOfLayout(s, f, m, sp);
    ValueOfLayout(s, p, sp.afterEquals, m.value, rest, f);
  }

  /** Reading a laid-out declaration gives back the groups it was written
      with, whether or not the line ends in its newline. */
  lemma RoundTrip(m: Match, sp: Spacing)
    requires Renderable(m) && Blank(sp)
    ensures MatchBody(Layout(m, sp)) == Some(m)
    ensures MatchAttribute(Layout(m, sp) + "\n") == Some(m)
    ensures var line := Layout(m, sp);
            line[|line| - 1] != '\n' ==> MatchAttribute(line) == Some(m)
  {
    var line := Layout(m, sp);
    HeadOfLayout(line, m, sp);
    var h := MatchHead(line).value;
    TailOfLayout(line, h.afterEquals, m, sp);
    var vc := MatchTail(line, h.afterEquals).value;
    assert MatchBody(line) == Some(Match(h.name, h.hint, vc.0, vc.1));
    assert Match(h.name, h.hint, vc.0, vc.1) == m;
    assert StripFinalNewline(line + "\n") == line;
  }

  /** `_match_attribute('  some_attr   =     2  ')`. */
  lemma PlainDeclaration()
    ensures MatchAttribute("  some_attr   =     2  ")
              == Some(Match("some_attr", None, "2", None))
  {
    PlainLayout();
    RoundTrip(Plain, PlainSpacing);
  }

  const Plain := Match("some_attr", None, "2", None)
  const PlainSpacing := Spacing("  ", "", "", "   ", "     ", "  ", "", "")

  lemma PlainLayout()
    ensures Layout(Plain, PlainSpacing) == "  some_attr   =     2  "
  {
    var tail := "     2  ";
    assert TailText(Plain, PlainSpacing) == tail;
    Regroup("  ", "some_attr", "   ", "=" + tail);
    assert ("  " + "some_attr") + "   " == "  some_attr   ";
    assert "  some_attr   " + ("=" + tail) == "  some_attr   =     2  ";
  }

  /** `_match_attribute('  some_attr  :  int  =   2  ')`. */
  lemma HintedDeclaration()
    ensures MatchAttribute("  some_attr  :  int  =   2  ")
              == Some(Match("some_attr", Some("int"), "2", None))
  {
    HintedLayout();
    RoundTrip(Hinted, HintedSpacing);
  }

  const Hinted := Match("some_attr", Some("int"), "2", None)
  const HintedSpacing := Spacing("  ", "  ", "  ", "  ", "   ", "  ", "", "")

  lemma HintedLayout()
    ensures Layout(Hinted, HintedSpacing) == "  some_attr  :  int  =   2  "
  {
    HintedTail();
    HintedHint();
    Regroup("  ", "some_attr", "  :  int  =", "   2  ");
    HintedHead();
    HintedJoin();
  }

  lemma HintedTail()
    ensures TailText(Hinted, HintedSpacing) == "   2  "
  {
  }

  lemma HintedHint()
    ensures HintText(Hinted, HintedSpacing, "  " + ("=" + "   2  ")) == "  :  int  =" + "   2  "
  {
  }

  lemma HintedHead()
    ensures ("  " + "some_attr") + "  :  int  =" == "  some_attr  :  int  ="
  {
  }

  lemma HintedJoin()
    ensures "  some_attr  :  int  =" + "   2  " == "  some_attr  :  int  =   2  "
  {
  }

  /** `_match_attribute('  some_attr  :  int  =   2  #   bla bla bla!   ')`. */
  lemma CommentedDeclaration()
    ensures MatchAttribute("  some_attr  :  int  =   2  #   bla bla bla!   ")
              == Some(Match("some_attr", Some("int"), "2", Some("bla bla bla!")))
  {
    CommentedLayout();
    RoundTrip(Commented, CommentedSpacing);
  }

  const Commented := Match("some_attr", Some("int"), "2", Some("bla bla bla!"))
  const CommentedSpacing := Spacing("  ", "  ", "  ", "  ", "   ", "  ", "   ", "   ")

  lemma CommentedComment()
    ensures CommentText(Commented, CommentedSpacing, "   ") == "#   bla bla bla!   "
  {
  }

  lemma CommentedTail()
    ensures TailText(Commented, CommentedSpacing) == "   2  #   bla bla bla!   "
  {
    CommentedComment();
  }

  lemma CommentedHint()
    ensures HintText(Commented, CommentedSpacing, "  " + ("=" + TailText(Commented, CommentedSpacing)))
              == "  :  int  =" + "   2  #   bla bla bla!   "
  {
    CommentedTail();
  }

  lemma CommentedLayout()
    ensures Layout(Commented, CommentedSpacing) == "  some_attr  :  int  =   2  #   bla bla bla!   "
  {
    CommentedHint();
    Regroup("  ", "some_attr", "  :  int  =", "   2  #   bla bla bla!   ");
    HintedHead();
    CommentedJoin();
  }

  lemma CommentedJoin()
    ensures "  some_attr  :  int  =" + "   2  #   bla bla bla!   "
              == "  some_attr  :  int  =   2  #   bla bla bla!   "
  {
  }

  lemma Regroup(a: string, b: string, c: string, d: string)
    ensures a + (b + (c + d)) == ((a + b) + c) + d
  {
  }

  /** On a single line the value can always stop at the end of the line,
      so the tail of the pattern fails only when nothing follows the `=`. */
  lemma {:induction false} ValueEndReachesEnd(s: string, e: nat)
    requires 0 < e <= |s|
    requires forall t :: e - 1 <= t < |s| ==> s[t] != '\n'
    ensures ValueEnd(s, e).Some?
    decreases |s| - e
  {
    if Trailer(s, e).None? && e < |s| {
      ValueEndReachesEnd(s, e + 1);
    }
  }

  lemma ValueSearchFinds(s: string, p: nat, k: nat)
    requires p <= k <= |s| && p < |s| && '\n' !in s
    ensures ValueSearch(s, p, k).Some?
  {
    if k < |s| {
      ValueEndReachesEnd(s, k + 1);
    } else {
      ValueEndReachesEnd(s, k);
    }
  }

  /** A line without an inner newline is an attribute declaration exactly
      when its head matches and at least one character follows the `=`. */
  lemma SingleLine(line: string)
    requires '\n' !in StripFinalNewline(line)
    ensures var body := StripFinalNewline(line);
            var h := MatchHead(body);
            MatchAttribute(line).Some? <==> h.Some? && h.value.afterEquals < |body|
  {
    var body := StripFinalNewline(line);
    var h := MatchHead(body);
    if h.Some? && h.value.afterEquals < |body| {
      var p := h.value.afterEquals;
      ValueSearchFinds(body, p, SkipSpaces(body, p));
    }
  }
}
