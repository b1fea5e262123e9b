/** The few Python `str` operations the transpiler relies on, over `seq<char>`. */
module Text {

  /** One level of generated indentation (`Template.indent`). */
  const Indent: string := "    "

  /** Python's `str.isspace` for one character: the characters `lstrip()` and
      `rstrip()` remove when called without arguments. */
  predicate IsSpace(ch: char)
  {
    ch == ' ' || ('\t' <= ch <= '\r') || ('\U{1C}' <= ch <= '\U{1F}')
    || ch == '\U{85}' || ch == '\U{A0}' || ch == '\U{1680}'
    || ('\U{2000}' <= ch <= '\U{200A}') || ch == '\U{2028}' || ch == '\U{2029}'
    || ch == '\U{202F}' || ch == '\U{205F}' || ch == '\U{3000}'
  }

  predicate IsBlank(s: string)
  {
    forall k :: 0 <= k < |s| ==> IsSpace(s[k])
  }

  /** `s.lstrip()`: the suffix of `s` left once leading whitespace is gone. */
  function LStrip(s: string): (r: string)
    ensures |r| <= |s| && r == s[|s| - |r|..]
    ensures r != [] ==> !IsSpace(r[0])
  {
    if s != [] && IsSpace(s[0]) then LStrip(s[1..]) else s
  }

  /** What `lstrip()` removes is whitespace only. */
  lemma {:induction false} LStripBlank(s: string)
    ensures IsBlank(s[..|s| - |LStrip(s)|])
  {
    if s != [] && IsSpace(s[0]) {
      LStripBlank(s[1..]);
      var r := LStrip(s[1..]);
      assert s[1..][..|s[1..]| - |r|] == s[1..|s| - |r|];
    }
  }

  /** `s.rstrip()`: the prefix of `s` left once trailing whitespace is gone. */
  function RStrip(s: string): (r: string)
    ensures |r| <= |s| && r == s[..|r|]
    ensures r != [] ==> !IsSpace(r[|r| - 1])
  {
    if s != [] && IsSpace(s[|s| - 1]) then RStrip(s[..|s| - 1]) else s
  }

  /** What `rstrip()` removes is whitespace only. */
  lemma {:induction false} RStripBlank(s: string)
    ensures IsBlank(s[|RStrip(s)|..])
  {
    if s != [] && IsSpace(s[|s| - 1]) {
      RStripBlank(s[..|s| - 1]);
      var r := RStrip(s[..|s| - 1]);
      assert s[|r|..] == s[..|s| - 1][|r|..] + [s[|s| - 1]];
    }
  }

  /** `rstrip()` leaves nothing exactly when the string is all whitespace. */
  lemma RStripEmpty(s: string)
    ensures RStrip(s) == [] <==> IsBlank(s)
  {
    RStripBlank(s);
    var r := RStrip(s);
    if r == [] {
      assert s[0..] == s;
    } else {
      assert s[|r| - 1] == r[|r| - 1];
    }
  }

  /** `lstrip()` keeps a string all whitespace exactly when it was. */
  lemma LStripKeepsBlank(s: string)
    ensures IsBlank(LStrip(s)) <==> IsBlank(s)
  {
    LStripBlank(s);
    var r := LStrip(s);
    assert s == s[..|s| - |r|] + r;
  }

  /** A line is all whitespace exactly when stripping it on both sides leaves
      nothing. */
  lemma StripBlank(line: string)
    ensures RStrip(LStrip(line)) == "" <==> IsBlank(line)
  {
    RStripEmpty(LStrip(line));
    LStripKeepsBlank(line);
  }

  /** Width of the leading whitespace, `len(line) - len(line.lstrip())`. */
  function Width(line: string): nat
  {
    |line| - |LStrip(line)|
  }

  predicate StartsWith(s: string, prefix: string)
  {
    |prefix| <= |s| && s[..|prefix|] == prefix
  }

  predicate EndsWith(s: string, suffix: string)
  {
    |suffix| <= |s| && s[|s| - |suffix|..] == suffix
  }

  /** `pat` occurs in `s` starting at index `i`. */
  predicate OccursAt(s: string, pat: string, i: int)
  {
    0 <= i && i + |pat| <= |s| && s[i..i + |pat|] == pat
  }

  /** `pat in s` */
  predicate Occurs(pat: string, s: string)
  {
    exists i :: 0 <= i <= |s| - |pat| && OccursAt(s, pat, i)
  }

  /** `s.replace(pat, rep)`: leftmost, non-overlapping occurrences are replaced
      while scanning from left to right. */
  function Replace(s: string, pat: string, rep: string): string
    requires pat != []
    decreases |s|
  {
    if |s| < |pat| then s
    else if s[..|pat|] == pat then rep + Replace(s[|pat|..], pat, rep)
    else [s[0]] + Replace(s[1..], pat, rep)
  }

  /** Replacing a pattern that does not occur leaves the text as it is. */
  lemma {:induction false} ReplaceAbsent(s: string, pat: string, rep: string)
    requires pat != []
    requires !Occurs(pat, s)
    ensures Replace(s, pat, rep) == s
    decreases |s|
  {
    if |s| >= |pat| {
      assert !OccursAt(s, pat, 0);
      forall i | OccursAt(s[1..], pat, i) ensures false {
        assert s[1..][i..i + |pat|] == s[i + 1..i + 1 + |pat|];
        assert OccursAt(s, pat, i + 1);
      }
      ReplaceAbsent(s[1..], pat, rep);
    }
  }

  /** When no occurrence of the pattern starts inside the prefix `x`, the
      prefix is copied unchanged and replacing resumes at `y`. */
  lemma {:induction false} ReplaceSkipsPrefix(x: string, y: string, pat: string, rep: string)
    requires pat != []
    requires forall i :: 0 <= i < |x| ==> !OccursAt(x + y, pat, i)
    ensures Replace(x + y, pat, rep) == x + Replace(y, pat, rep)
    decreases |x|
  {
    if x != [] {
      var s := x + y;
      var t := x[1..] + y;
      assert s == [x[0]] + t;
      forall i | 0 <= i < |x[1..]| ensures !OccursAt(t, pat, i) {
        assert !OccursAt(s, pat, i + 1);
        if i + |pat| <= |t| {
          assert t[i..i + |pat|] == s[i + 1..i + 1 + |pat|];
        }
      }
      ReplaceSkipsPrefix(x[1..], y, pat, rep);
      assert x + Replace(y, pat, rep) == [x[0]] + (x[1..] + Replace(y, pat, rep));
      if |s| < |pat| {
        assert Replace(y, pat, rep) == y;
      } else {
        assert !OccursAt(s, pat, 0);
        assert Replace(s, pat, rep) == [s[0]] + Replace(t, pat, rep);
      }
    } else {
      assert x + y == y;
    }
  }

  /** A pattern does not occur at `i` when its `m`-th character differs from
      the text's there. */
  lemma MismatchAt(s: string, pat: string, i: int, m: int)
    requires 0 <= i && 0 <= m < |pat| && i + m < |s| && s[i + m] != pat[m]
    ensures !OccursAt(s, pat, i)
  {
    if i + |pat| <= |s| {
      assert s[i..i + |pat|][m] == s[i + m];
    }
  }

  /** A pattern one of whose characters is missing from the text does not
      occur in it. */
  lemma AbsentChar(s: string, pat: string, m: int)
    requires 0 <= m < |pat| && pat[m] !in s
    ensures !Occurs(pat, s)
  {
    forall i | 0 <= i <= |s| - |pat| ensures !OccursAt(s, pat, i) {
      assert s[i + m] in s;
    }
  }

  /** One occurrence, after a prefix in which the pattern cannot start and
      before a rest in which it does not occur, is the only one replaced. */
  lemma ReplaceOnce(a: string, pat: string, b: string, rep: string)
    requires pat != [] && pat[0] !in a && !Occurs(pat, b)
    ensures Replace(a + pat + b, pat, rep) == a + rep + b
  {
    forall i | 0 <= i < |a| ensures !OccursAt(a + (pat + b), pat, i) {
      assert (a + (pat + b))[i] == a[i];
      assert a[i] in a;
    }
    ReplaceSkipsPrefix(a, pat + b, pat, rep);
    assert (pat + b)[..|pat|] == pat && (pat + b)[|pat|..] == b;
    ReplaceAbsent(b, pat, rep);
    assert a + pat + b == a + (pat + b);
  }

  /** `''.join(parts)` */
  function Concat(parts: seq<string>): string
  {
    if parts == [] then "" else parts[0] + Concat(parts[1..])
  }

  lemma {:induction false} ConcatAppend(a: seq<string>, b: seq<string>)
    ensures Concat(a + b) == Concat(a) + Concat(b)
  {
    if a != [] {
      assert (a + b)[0] == a[0] && (a + b)[1..] == a[1..] + b;
      ConcatAppend(a[1..], b);
      calc {
        Concat(a + b);
        a[0] + Concat(a[1..] + b);
        a[0] + (Concat(a[1..]) + Concat(b));
        (a[0] + Concat(a[1..])) + Concat(b);
      }
    } else {
      assert a + b == b;
    }
  }

  /** `sep.join(parts)` */
  function JoinWith(sep: string, parts: seq<string>): string
  {
    if |parts| == 0 then ""
    else if |parts| == 1 then parts[0]
    else parts[0] + sep + JoinWith(sep, parts[1..])
  }

  /** `s.split(sep)` for a one-character separator: the pieces between the
      separators, at least one. */
  function Split(s: string, sep: char): (r: seq<string>)
    ensures |r| >= 1
  {
    if s == [] then [""]
    else
      var rest := Split(s[1..], sep);
      if s[0] == sep then [""] + rest
      else [[s[0]] + rest[0]] + rest[1..]
  }

  /** No piece holds the separator, and joining the pieces back with it gives
      the text again. */
  lemma {:induction false} SplitJoin(s: string, sep: char)
    ensures var r := Split(s, sep);
      && (forall k :: 0 <= k < |r| ==> sep !in r[k])
      && JoinWith([sep], r) == s
  {
    if s != [] {
      var rest := Split(s[1..], sep);
      SplitJoin(s[1..], sep);
      var r := Split(s, sep);
      if s[0] == sep {
        assert r == [""] + rest;
        assert r[1..] == rest;
        assert s == [sep] + s[1..];
      } else {
        assert r == [[s[0]] + rest[0]] + rest[1..];
        assert r[1..] == rest[1..];
        assert s == [s[0]] + s[1..];
        forall k | 0 <= k < |r| ensures sep !in r[k] {
          if k == 0 {
            assert r[0] == [s[0]] + rest[0];
          } else {
            assert r[k] == rest[k];
          }
        }
        if |rest| > 1 {
          assert rest == [rest[0]] + rest[1..];
          assert JoinWith([sep], rest) == rest[0] + [sep] + JoinWith([sep], rest[1..]);
          assert JoinWith([sep], r) == r[0] + [sep] + JoinWith([sep], r[1..]);
        }
      }
    }
  }

  /** Text without the separator is a single piece. */
  lemma {:induction false} SplitWithoutSep(s: string, sep: char)
    requires sep !in s
    ensures Split(s, sep) == [s]
  {
    if s != [] {
      assert s[0] in s;
      assert s[1..] == s[|s| - |s[1..]|..];
      assert sep !in s[1..] by {
        forall k | 0 <= k < |s[1..]| ensures s[1..][k] != sep {
          assert s[1..][k] == s[k + 1];
          assert s[k + 1] in s;
        }
      }
      SplitWithoutSep(s[1..], sep);
      assert [s[0]] + s[1..] == s;
    }
  }

  /** The first separator ends the first piece. */
  lemma {:induction false} SplitAtFirst(x: string, sep: char, y: string)
    requires sep !in x
    ensures Split(x + [sep] + y, sep) == [x] + Split(y, sep)
  {
    var s := x + [sep] + y;
    if x == [] {
      assert s == [sep] + y;
      assert s[1..] == y;
    } else {
      assert x[0] in x;
      assert sep !in x[1..] by {
        forall k | 0 <= k < |x[1..]| ensures x[1..][k] != sep {
          assert x[k + 1] in x;
        }
      }
      SplitAtFirst(x[1..], sep, y);
      assert s[0] == x[0] && s[1..] == x[1..] + [sep] + y;
      var rest := Split(s[1..], sep);
      assert rest[0] == x[1..] && rest[1..] == Split(y, sep);
      assert Split(s, sep) == [[s[0]] + rest[0]] + rest[1..];
      assert [x[0]] + x[1..] == x;
    }
  }

  /** `n * Indent`: Python repeats a string zero times for any `n <= 0`. */
  function Pad(n: int): (r: string)
    ensures |r| == if n <= 0 then 0 else 4 * n
    ensures forall k :: 0 <= k < |r| ==> r[k] == ' '
  {
    if n <= 0 then "" else Indent + Pad(n - 1)
  }
}
