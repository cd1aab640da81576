/** The handful of Go `strings` operations the calendar core relies on:
    `TrimSpace`, `Split` on a single-character separator, `Join`,
    `HasPrefix` and `ToLower`. */
module Text {

  /** Go's `unicode.IsSpace`: the ASCII blanks plus the Unicode White_Space
      characters outside Latin-1. */
  predicate IsSpace(c: char) {
    || ('\t' <= c <= '\r')
    || c == ' '
    || c == '\U{0085}'
    || c == '\U{00A0}'
    || c == '\U{1680}'
    || ('\U{2000}' <= c <= '\U{200A}')
    || c == '\U{2028}'
    || c == '\U{2029}'
    || c == '\U{202F}'
    || c == '\U{205F}'
    || c == '\U{3000}'
  }

  predicate AllSpace(s: string) {
    forall i :: 0 <= i < |s| ==> IsSpace(s[i])
  }

  predicate NoSpace(s: string) {
    forall i :: 0 <= i < |s| ==> !IsSpace(s[i])
  }

  /** `r` is the slice `s[i..j]`, flanked by white space only, and neither
      starts nor ends with white space itself. */
  predicate TrimmedAt(r: string, s: string, i: int, j: int) {
    && 0 <= i <= j <= |s|
    && r == s[i..j]
    && AllSpace(s[..i])
    && AllSpace(s[j..])
    && (r == [] || (!IsSpace(r[0]) && !IsSpace(r[|r| - 1])))
  }

  /** `r` is `s` with its leading and trailing white space removed. */
  ghost predicate IsTrimmingOf(r: string, s: string) {
    exists i, j :: TrimmedAt(r, s, i, j)
  }

  /** Drops leading white space. */
  function TrimLeft(s: string): (r: string)
    ensures |r| <= |s| && r == s[|s| - |r|..]
    ensures AllSpace(s[..|s| - |r|])
    ensures r == [] || !IsSpace(r[0])
  {
    if |s| > 0 && IsSpace(s[0]) then
      var r := TrimLeft(s[1..]);
      assert s[1..][|s| - 1 - |r|..] == s[|s| - |r|..];
      r
    else s
  }

  /** Drops trailing white space. */
  function TrimRight(s: string): (r: string)
    ensures |r| <= |s| && r == s[..|r|]
    ensures AllSpace(s[|r|..])
    ensures r == [] || !IsSpace(r[|r| - 1])
  {
    if |s| > 0 && IsSpace(s[|s| - 1]) then TrimRight(s[..|s| - 1]) else s
  }

  /** Go's `strings.TrimSpace`. */
  function TrimSpace(s: string): (r: string)
    ensures IsTrimmingOf(r, s)
  {
    var l := TrimLeft(s);
    var r := TrimRight(l);
    var i := |s| - |l|;
    var j := i + |r|;
    assert r == s[i..j];
    assert s[j..] == l[|r|..];
    assert TrimmedAt(r, s, i, j);
    r
  }

  /** The trimming of a string is unique, so `IsTrimmingOf` pins
      `TrimSpace` down completely. */
  lemma TrimmingUnique(r1: string, r2: string, s: string)
    requires IsTrimmingOf(r1, s) && IsTrimmingOf(r2, s)
    ensures r1 == r2
  {
    var i1, j1 :| TrimmedAt(r1, s, i1, j1);
    var i2, j2 :| TrimmedAt(r2, s, i2, j2);
    if r1 == [] {
      EmptyTrimmingMeansAllSpace(r1, s, i1, j1);
      EmptyTrimmingMeansAllSpace(r2, s, i2, j2);
    } else if r2 == [] {
      EmptyTrimmingMeansAllSpace(r2, s, i2, j2);
      EmptyTrimmingMeansAllSpace(r1, s, i1, j1);
    } else {
      assert r1[0] == s[i1] && r2[0] == s[i2];
      FirstNonSpaceUnique(s, i1, i2);
      assert r1[|r1| - 1] == s[j1 - 1] && r2[|r2| - 1] == s[j2 - 1];
      LastNonSpaceUnique(s, j1, j2);
    }
  }

  /** A trimming is empty exactly when the whole string is white space. */
  lemma EmptyTrimmingMeansAllSpace(r: string, s: string, i: int, j: int)
    requires TrimmedAt(r, s, i, j)
    ensures r == [] <==> AllSpace(s)
  {
    if r == [] {
      forall k | 0 <= k < |s| ensures IsSpace(s[k]) {
        if k < i { assert s[k] == s[..i][k]; } else { assert s[k] == s[j..][k - j]; }
      }
    } else {
      assert r[0] == s[i];
    }
  }

  /** Only one index can end an all-white-space prefix and hold a non-space. */
  lemma FirstNonSpaceUnique(s: string, a: int, b: int)
    requires 0 <= a < |s| && 0 <= b < |s|
    requires AllSpace(s[..a]) && AllSpace(s[..b])
    requires !IsSpace(s[a]) && !IsSpace(s[b])
    ensures a == b
  {
  }

  /** Only one index can start an all-white-space suffix right after a non-space. */
  lemma LastNonSpaceUnique(s: string, a: int, b: int)
    requires 0 < a <= |s| && 0 < b <= |s|
    requires AllSpace(s[a..]) && AllSpace(s[b..])
    requires !IsSpace(s[a - 1]) && !IsSpace(s[b - 1])
    ensures a == b
  {
  }

  /** A string without white space is its own trimming. */
  lemma TrimSpaceOfNoSpace(s: string)
    requires NoSpace(s)
    ensures TrimSpace(s) == s
  {
    assert TrimmedAt(s, s, 0, |s|) by {
      assert s == s[0..|s|] && s[..0] == [] && s[|s|..] == [];
    }
    TrimmingUnique(TrimSpace(s), s, s);
  }

  /** Number of occurrences of `c` in `s`. */
  function Count(s: string, c: char): nat {
    if |s| == 0 then 0 else (if s[0] == c then 1 else 0) + Count(s[1..], c)
  }

  /** Go's `strings.Split(s, string(sep))` for a one-character separator:
      the pieces between separators, always at least one. */
  function Split(s: string, sep: char): (parts: seq<string>)
    ensures |parts| == Count(s, sep) + 1
    ensures forall i :: 0 <= i < |parts| ==> sep !in parts[i]
  {
    if |s| == 0 then [""]
    else
      var rest := Split(s[1..], sep);
      if s[0] == sep then [""] + rest
      else [[s[0]] + rest[0]] + rest[1..]
  }

  /** Go's `strings.Join`. */
  function Join(parts: seq<string>, sep: string): string {
    if |parts| == 0 then ""
    else if |parts| == 1 then parts[0]
    else parts[0] + sep + Join(parts[1..], sep)
  }

  /** A join starts with its first piece. */
  lemma JoinStartsWithFirst(parts: seq<string>, sep: string)
    requires |parts| > 0
    ensures parts[0] <= Join(parts, sep)
  {
    if |parts| > 1 {
      assert Join(parts, sep) == parts[0] + (sep + Join(parts[1..], sep));
    }
  }

  /** Prefixes survive putting the same string in front. */
  lemma PrefixExtends(p: string, a: string, b: string)
    requires a <= b
    ensures p + a <= p + b
  {
    assert p + b == (p + a) + b[|a|..];
  }

  /** Joining the pieces back with the separator restores the input. */
  lemma {:induction false} JoinSplit(s: string, sep: char)
    ensures Join(Split(s, sep), [sep]) == s
  {
    if |s| == 0 {
    } else {
      var rest := Split(s[1..], sep);
      JoinSplit(s[1..], sep);
      assert s == [s[0]] + s[1..];
      if s[0] == sep {
        assert ([""] + rest)[1..] == rest;
      } else {
        var parts := [[s[0]] + rest[0]] + rest[1..];
        if |rest| == 1 {
        } else {
          assert parts[1..] == rest[1..];
          assert Join(rest, [sep]) == rest[0] + [sep] + Join(rest[1..], [sep]);
        }
      }
    }
  }

  /** A piece free of the separator splits to itself. */
  lemma {:induction false} SplitNoSeparator(x: string, sep: char)
    requires sep !in x
    ensures Split(x, sep) == [x]
  {
    if |x| > 0 {
      SplitNoSeparator(x[1..], sep);
      assert [x[0]] + x[1..] == x;
    }
  }

  /** Splitting at the first separator. */
  lemma {:induction false} SplitAtSeparator(x: string, sep: char, y: string)
    requires sep !in x
    ensures Split(x + [sep] + y, sep) == [x] + Split(y, sep)
  {
    var s := x + [sep] + y;
    if |x| == 0 {
      assert s[1..] == y;
    } else {
      assert s[1..] == x[1..] + [sep] + y;
      SplitAtSeparator(x[1..], sep, y);
      assert [x[0]] + x[1..] == x;
    }
  }

  /** Splitting a join of separator-free pieces gives the pieces back. */
  lemma {:induction false} SplitJoin(parts: seq<string>, sep: char)
    requires |parts| >= 1
    requires forall i :: 0 <= i < |parts| ==> sep !in parts[i]
    ensures Split(Join(parts, [sep]), sep) == parts
  {
    if |parts| == 1 {
      SplitNoSeparator(parts[0], sep);
    } else {
      SplitJoin(parts[1..], sep);
      SplitAtSeparator(parts[0], sep, Join(parts[1..], [sep]));
      assert [parts[0]] + parts[1..] == parts;
    }
  }

  /** Go's `strings.HasPrefix`. */
  predicate StartsWith(s: string, prefix: string) {
    prefix <= s
  }

  /** Go's `unicode.ToLower` on the characters that matter here: the ASCII
      capitals and the two non-ASCII capitals whose lower case is ASCII
      (U+0130 to 'i', KELVIN SIGN U+212A to 'k'). */
  function LowerChar(c: char): (r: char)
    ensures !('A' <= r <= 'Z') && r != '\U{0130}' && r != '\U{212A}'
  {
    if 'A' <= c <= 'Z' then (c as int + 32) as char
    else if c == '\U{0130}' then 'i'
    else if c == '\U{212A}' then 'k'
    else c
  }

  /** Go's `strings.ToLower`, character by character. */
  function ToLower(s: string): (r: string)
    ensures |r| == |s|
    ensures forall i :: 0 <= i < |s| ==> r[i] == LowerChar(s[i])
  {
    seq(|s|, i requires 0 <= i < |s| => LowerChar(s[i]))
  }

  /** Lowering twice is lowering once. */
  lemma ToLowerIdempotent(s: string)
    ensures ToLower(ToLower(s)) == ToLower(s)
  {
  }
}
