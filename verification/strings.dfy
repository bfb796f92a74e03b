/** The few Python string operations the discovery code relies on. */
module Strings {

  /** Python's `str.isspace`, which is also what the `\s` class of a `str`
      regular expression matches. */
  predicate IsSpace(c: char)
  {
    || c == ' '
    || '\t' <= c <= '\r'
    || '\U{1c}' <= c <= '\U{1f}'
    || c == '\U{85}' || c == '\U{a0}' || c == '\U{1680}'
    || '\U{2000}' <= c <= '\U{200a}'
    || c == '\U{2028}' || c == '\U{2029}' || c == '\U{202f}'
    || c == '\U{205f}' || c == '\U{3000}'
  }

  predicate AllSpace(s: string)
  {
    forall i :: 0 <= i < |s| ==> IsSpace(s[i])
  }

  /** `s.startswith(prefix)`. */
  predicate StartsWith(s: string, prefix: string)
  {
    |prefix| <= |s| && s[..|prefix|] == prefix
  }

  /** Leading whitespace removed (`str.lstrip()`): a suffix of `s` that
      starts with a non-blank character, if any. */
  function TrimStart(s: string): (r: string)
    ensures |r| <= |s| && r == s[|s| - |r|..]
    ensures r == [] || !IsSpace(r[0])
  {
    if s != [] && IsSpace(s[0]) then TrimStart(s[1..]) else s
  }

  /** `sep.join(parts)` for a one-character separator. */
  function Join(parts: seq<string>, sep: char): (r: string)
    ensures parts == [] ==> r == ""
    ensures |parts| == 1 ==> r == parts[0]
  {
    if parts == [] then ""
    else if |parts| == 1 then parts[0]
    else Join(parts[..|parts| - 1], sep) + [sep] + parts[|parts| - 1]
  }

  /** Joining two non-empty lists puts exactly one separator between
      the two joined halves. */
  lemma {:induction false} JoinAppend(a: seq<string>, b: seq<string>, sep: char)
    requires a != [] && b != []
    ensures Join(a + b, sep) == Join(a, sep) + [sep] + Join(b, sep)
    decreases |b|
  {
    var ab := a + b;
    if |b| == 1 {
      assert ab[..|ab| - 1] == a;
    } else {
      var b' := b[..|b| - 1];
      assert ab[..|ab| - 1] == a + b';
      JoinAppend(a, b', sep);
      assert b'[..|b'|] == b';
    }
  }

  /** `s.split(sep)`: the pieces between separators, empty pieces kept. */
  function Split(s: string, sep: char): (r: seq<string>)
    ensures |r| >= 1
    ensures forall i :: 0 <= i < |r| ==> sep !in r[i]
    decreases |s|
  {
    if s == [] then [""]
    else
      var rest := Split(s[1..], sep);
      if s[0] == sep then [""] + rest
      else [[s[0]] + rest[0]] + rest[1..]
  }

  /** Splitting undoes joining, as long as no part holds the separator. */
  lemma {:induction false} SplitJoin(parts: seq<string>, sep: char)
    requires parts != []
    requires forall i :: 0 <= i < |parts| ==> sep !in parts[i]
    ensures Split(Join(parts, sep), sep) == parts
    decreases |parts|
  {
    if |parts| == 1 {
      SplitWord(parts[0], sep);
    } else {
      var init := parts[..|parts| - 1];
      var last := parts[|parts| - 1];
      SplitJoin(init, sep);
      SplitWord(last, sep);
      SplitConcat(Join(init, sep), [sep] + last, sep);
      assert Split([sep] + last, sep) == [""] + [last] by {
        assert ([sep] + last)[1..] == last;
      }
      assert Join(init, sep) + [sep] + last == Join(init, sep) + ([sep] + last);
      var n := |init|;
      assert init[n - 1] + "" == init[n - 1];
      assert init[..n - 1] + [init[n - 1]] == init;
      assert init + [last] == parts;
    }
  }

  /** A string without the separator splits into itself alone. */
  lemma {:induction false} SplitWord(w: string, sep: char)
    requires sep !in w
    ensures Split(w, sep) == [w]
    decreases |w|
  {
    if w != [] {
      SplitWord(w[1..], sep);
      assert [w[0]] + w[1..] == w;
    }
  }

  /** The pieces of `x + y`: those of `x`, except that its last piece is
      joined to the first piece of `y`, then the rest of `y`'s. */
  function Glue(sx: seq<string>, sy: seq<string>): seq<string>
    requires |sx| >= 1 && |sy| >= 1
  {
    sx[..|sx| - 1] + [sx[|sx| - 1] + sy[0]] + sy[1..]
  }

  /** Splitting a concatenation glues the last piece of the left part
      to the first piece of the right part. */
  lemma {:induction false} SplitConcat(x: string, y: string, sep: char)
    ensures Split(x + y, sep) == Glue(Split(x, sep), Split(y, sep))
    decreases |x|
  {
    var sy := Split(y, sep);
    if x == [] {
      assert x + y == y;
      assert "" + sy[0] == sy[0];
      assert [sy[0]] + sy[1..] == sy;
    } else {
      var sx' := Split(x[1..], sep);
      assert (x + y)[1..] == x[1..] + y;
      SplitConcat(x[1..], y, sep);
      var rest := Split(x[1..] + y, sep);
      if x[0] == sep {
        assert Split(x + y, sep) == [""] + rest;
        assert Split(x, sep) == [""] + sx';
        GlueCons(sx', sy);
      } else {
        assert Split(x + y, sep) == [[x[0]] + rest[0]] + rest[1..];
        assert Split(x, sep) == [[x[0]] + sx'[0]] + sx'[1..];
        GlueExtendFirst(sx', sy, [x[0]]);
      }
    }
  }

  lemma GlueCons(sx: seq<string>, sy: seq<string>)
    requires |sx| >= 1 && |sy| >= 1
    ensures [""] + Glue(sx, sy) == Glue([""] + sx, sy)
  {
    assert ([""] + sx)[..|sx|] == [""] + sx[..|sx| - 1];
  }

  lemma GlueExtendFirst(sx: seq<string>, sy: seq<string>, c: string)
    requires |sx| >= 1 && |sy| >= 1
    ensures var g := Glue(sx, sy);
            [c + g[0]] + g[1..] == Glue([c + sx[0]] + sx[1..], sy)
  {
    var g := Glue(sx, sy);
    if |sx| == 1 {
      assert g == [sx[0] + sy[0]] + sy[1..];
      assert c + (sx[0] + sy[0]) == (c + sx[0]) + sy[0];
    } else {
      assert g[0] == sx[0];
      assert g[1..] == sx[1..|sx| - 1] + [sx[|sx| - 1] + sy[0]] + sy[1..];
    }
  }
}
