/** The delimiter scanner of `Template.__parse`: backslash-escaped tags are
    hidden, the text is cut at `open(.*?)close` (the non-greedy, DOTALL regular
    expression), and every piece gets its hidden tags back. */
module Scanner {
  import opened Results
  import opened Text

  datatype Tags = Tags(open: string, close: string)

  /** `Template.tags`, the class default. */
  const DefaultTags: Tags := Tags("<%", "%>")

  /** What the constructor accepts: both tags at least two characters long and
      no backslash in either. */
  predicate ValidTags(t: Tags)
  {
    |t.open| >= 2 && |t.close| >= 2 && '\\' !in t.open + t.close
  }

  /** `'\\'.join(x)`: the characters of `x` with a backslash between each two. */
  function Interleave(x: string): (r: string)
    ensures |x| >= 1 ==> |r| == 2 * |x| - 1
    ensures forall k :: 0 <= k < |x| ==> r[2 * k] == x[k]
    ensures forall k :: 0 <= k < |x| - 1 ==> r[2 * k + 1] == '\\'
  {
    if |x| <= 1 then x
    else
      var tail := Interleave(x[1..]);
      var r := [x[0], '\\'] + tail;
      forall k | 1 <= k < |x| ensures r[2 * k] == x[k] {
        assert r[2 * k] == tail[2 * (k - 1)];
      }
      forall k | 0 <= k < |x| - 1 ensures r[2 * k + 1] == '\\' {
        if k > 0 {
          assert r[2 * k + 1] == tail[2 * (k - 1) + 1];
        }
      }
      r
  }

  /** Hides escaped tags before the split: `\open` becomes `'\\'.join(open)`,
      then `\close` becomes `'\\'.join(close)` (two `str.replace` calls, in this
      order, on the whole source). */
  function Escape(src: string, t: Tags): string
    requires ValidTags(t)
  {
    var once := Replace(src, ['\\'] + t.open, Interleave(t.open));
    Replace(once, ['\\'] + t.close, Interleave(t.close))
  }

  /** Gives a piece its hidden tags back, open tag first. */
  function Unescape(snip: string, t: Tags): string
    requires ValidTags(t)
  {
    var once := Replace(snip, Interleave(t.open), t.open);
    Replace(once, Interleave(t.close), t.close)
  }

  /** Leftmost occurrence of `pat` in `s` at or after `from` (`str.find`). */
  function FindFrom(s: string, pat: string, from: nat): (r: Option<nat>)
    ensures r.Some? ==> from <= r.value && OccursAt(s, pat, r.value)
    ensures r.Some? ==> forall j :: from <= j < r.value ==> !OccursAt(s, pat, j)
    ensures r.None? ==> forall j :: from <= j ==> !OccursAt(s, pat, j)
    decreases |s| - from
  {
    if from + |pat| > |s| then None
    else if OccursAt(s, pat, from) then Some(from)
    else FindFrom(s, pat, from + 1)
  }

  /** The text that `SplitTags` cut into `pieces`: the pieces joined again with
      the open tag before and the close tag after every odd (embedded) piece. */
  function Reassemble(pieces: seq<string>, t: Tags): string
    requires |pieces| % 2 == 1
  {
    if |pieces| == 1 then pieces[0]
    else pieces[0] + t.open + pieces[1] + t.close + Reassemble(pieces[2..], t)
  }

  /** No open tag in `s` is followed by a close tag. */
  ghost predicate Unterminated(s: string, t: Tags)
  {
    forall p, q :: OccursAt(s, t.open, p) && p + |t.open| <= q ==> !OccursAt(s, t.close, q)
  }

  lemma OccursInSlice(s: string, pat: string, a: int, b: int, j: int)
    requires 0 <= a <= b <= |s|
    requires OccursAt(s[a..b], pat, j)
    ensures OccursAt(s, pat, a + j)
  {
    forall k | 0 <= k < |pat| ensures s[a + j + k] == pat[k] {
      assert s[a..b][j..j + |pat|][k] == pat[k];
    }
  }

  /** A slice in which no occurrence of `pat` starts does not contain `pat`. */
  lemma SliceFree(s: string, pat: string, a: int, b: int)
    requires pat != [] && 0 <= a <= b <= |s|
    requires forall j :: a <= j < b ==> !OccursAt(s, pat, j)
    ensures !Occurs(pat, s[a..b])
  {
    forall j | 0 <= j <= |s[a..b]| - |pat| ensures !OccursAt(s[a..b], pat, j) {
      if OccursAt(s[a..b], pat, j) {
        OccursInSlice(s, pat, a, b, j);
      }
    }
  }

  /** Where the regular expression matches first: the leftmost open tag and
      the first close tag after it, or nothing when no open tag is followed by
      a close tag. */
  function NextTag(s: string, t: Tags): (r: Option<(nat, nat)>)
    requires t.open != [] && t.close != []
    ensures r.Some? ==>
      OccursAt(s, t.open, r.value.0) && r.value.0 + |t.open| <= r.value.1 && OccursAt(s, t.close, r.value.1)
    ensures r.Some? ==> forall j :: 0 <= j < r.value.0 ==> !OccursAt(s, t.open, j)
    ensures r.Some? ==> forall j :: r.value.0 + |t.open| <= j < r.value.1 ==> !OccursAt(s, t.close, j)
    ensures r.None? ==> Unterminated(s, t)
  {
    match FindFrom(s, t.open, 0)
    case None => None
    case Some(p) =>
      match FindFrom(s, t.close, p + |t.open|)
      case None =>
        assert forall a :: OccursAt(s, t.open, a) ==> p <= a;
        None
      case Some(q) => Some((p, q))
  }

  /** `re.split(open(.*?)close, s, flags=DOTALL)` with its one capture group:
      literal and embedded pieces alternate, starting and ending with a literal
      piece, and joined back with the tags they give the text again. */
  function SplitTags(s: string, t: Tags): (r: seq<string>)
    requires t.open != [] && t.close != []
    ensures |r| % 2 == 1
    ensures Reassemble(r, t) == s
    decreases |s|
  {
    match NextTag(s, t)
    case None => [s]
    case Some((p, q)) =>
      var rest := SplitTags(s[q + |t.close|..], t);
      ReassembleStep(s, t, p, q, rest);
      [s[..p], s[p + |t.open|..q]] + rest
  }

  lemma ReassembleStep(s: string, t: Tags, p: nat, q: nat, rest: seq<string>)
    requires OccursAt(s, t.open, p) && p + |t.open| <= q && OccursAt(s, t.close, q)
    requires |rest| % 2 == 1 && Reassemble(rest, t) == s[q + |t.close|..]
    ensures var r := [s[..p], s[p + |t.open|..q]] + rest;
      |r| % 2 == 1 && Reassemble(r, t) == s
  {
    var r := [s[..p], s[p + |t.open|..q]] + rest;
    assert r[2..] == rest;
    calc {
      Reassemble(r, t);
      s[..p] + t.open + s[p + |t.open|..q] + t.close + s[q + |t.close|..];
      { assert s[p..p + |t.open|] == t.open && s[q..q + |t.close|] == t.close; }
      s[..p] + s[p..p + |t.open|] + s[p + |t.open|..q] + s[q..q + |t.close|] + s[q + |t.close|..];
      s;
    }
  }

  /** One match of the regular expression: the text before it, the group,
      then the pieces of the rest. */
  lemma SplitTagsStep(s: string, t: Tags, p: nat, q: nat)
    requires t.open != [] && t.close != [] && NextTag(s, t) == Some((p, q))
    ensures SplitTags(s, t) == [s[..p], s[p + |t.open|..q]] + SplitTags(s[q + |t.close|..], t)
  {
  }

  /** No embedded (odd) piece contains the close tag. */
  ghost predicate EmbeddedFree(r: seq<string>, close: string)
  {
    forall k :: 0 <= k < |r| && k % 2 == 1 ==> !Occurs(close, r[k])
  }

  /** No literal (even) piece but the last contains the open tag. */
  ghost predicate LiteralFree(r: seq<string>, open: string)
  {
    forall k :: 0 <= k < |r| - 1 && k % 2 == 0 ==> !Occurs(open, r[k])
  }

  /** The match is non-greedy: an embedded piece never contains the close tag. */
  lemma {:induction false} SplitTagsEmbedded(s: string, t: Tags)
    requires t.open != [] && t.close != []
    ensures EmbeddedFree(SplitTags(s, t), t.close)
    decreases |s|
  {
    match NextTag(s, t)
    case None =>
    case Some((p, q)) =>
      var rest := SplitTags(s[q + |t.close|..], t);
      SplitTagsEmbedded(s[q + |t.close|..], t);
      SplitTagsStep(s, t, p, q);
      SliceFree(s, t.close, p + |t.open|, q);
      EmbeddedInStep(s[..p], s[p + |t.open|..q], rest, t.close);
  }

  lemma EmbeddedInStep(lit: string, piece: string, rest: seq<string>, close: string)
    requires !Occurs(close, piece)
    requires EmbeddedFree(rest, close)
    ensures EmbeddedFree([lit, piece] + rest, close)
  {
    var r := [lit, piece] + rest;
    forall k | 2 <= k < |r| ensures r[k] == rest[k - 2] { }
  }

  /** The search is leftmost: a literal piece other than the last never
      contains the open tag. */
  lemma {:induction false} SplitTagsLiteral(s: string, t: Tags)
    requires t.open != [] && t.close != []
    ensures LiteralFree(SplitTags(s, t), t.open)
    decreases |s|
  {
    match NextTag(s, t)
    case None =>
    case Some((p, q)) =>
      var rest := SplitTags(s[q + |t.close|..], t);
      SplitTagsLiteral(s[q + |t.close|..], t);
      SplitTagsStep(s, t, p, q);
      SliceFree(s, t.open, 0, p);
      LiteralInStep(s[..p], s[p + |t.open|..q], rest, t.open);
  }

  lemma LiteralInStep(lit: string, piece: string, rest: seq<string>, open: string)
    requires !Occurs(open, lit)
    requires LiteralFree(rest, open)
    ensures LiteralFree([lit, piece] + rest, open)
  {
    var r := [lit, piece] + rest;
    forall k | 2 <= k < |r| ensures r[k] == rest[k - 2] { }
  }

  /** An open tag that no close tag follows stays in the last, literal, piece:
      an unterminated tag is literal text rather than an error. */
  lemma {:induction false} SplitTagsLastUnterminated(s: string, t: Tags)
    requires t.open != [] && t.close != []
    ensures var r := SplitTags(s, t); Unterminated(r[|r| - 1], t)
    decreases |s|
  {
    match NextTag(s, t)
    case None =>
    case Some((p, q)) =>
      var rest := SplitTags(s[q + |t.close|..], t);
      SplitTagsLastUnterminated(s[q + |t.close|..], t);
      SplitTagsStep(s, t, p, q);
      var r := [s[..p], s[p + |t.open|..q]] + rest;
      assert r[|r| - 1] == rest[|rest| - 1];
  }

  /** The split is determined by the leftmost open tag and the first close
      tag after it: wherever they are, the text is cut there. */
  lemma SplitTagsAt(s: string, t: Tags, p: nat, q: nat)
    requires t.open != [] && t.close != []
    requires OccursAt(s, t.open, p) && p + |t.open| <= q && OccursAt(s, t.close, q)
    requires forall j :: 0 <= j < p ==> !OccursAt(s, t.open, j)
    requires forall j :: p + |t.open| <= j < q ==> !OccursAt(s, t.close, j)
    ensures SplitTags(s, t) == [s[..p], s[p + |t.open|..q]] + SplitTags(s[q + |t.close|..], t)
  {
    NextTagIs(s, t, p, q);
    SplitTagsStep(s, t, p, q);
  }

  /** The leftmost open tag and the first close tag after it are the match. */
  lemma NextTagIs(s: string, t: Tags, p: nat, q: nat)
    requires t.open != [] && t.close != []
    requires OccursAt(s, t.open, p) && p + |t.open| <= q && OccursAt(s, t.close, q)
    requires forall j :: 0 <= j < p ==> !OccursAt(s, t.open, j)
    requires forall j :: p + |t.open| <= j < q ==> !OccursAt(s, t.close, j)
    ensures NextTag(s, t) == Some((p, q))
  {
    FindFromIs(s, t.open, 0, p);
    FindFromIs(s, t.close, p + |t.open|, q);
    NextTagOf(s, t, p, q);
  }

  lemma NextTagOf(s: string, t: Tags, p: nat, q: nat)
    requires t.open != [] && t.close != []
    requires FindFrom(s, t.open, 0) == Some(p) && FindFrom(s, t.close, p + |t.open|) == Some(q)
    ensures NextTag(s, t) == Some((p, q))
  {
  }

  /** An occurrence with none before it, from `from` on, is the one `FindFrom`
      finds. */
  lemma FindFromIs(s: string, pat: string, from: nat, p: nat)
    requires from <= p && OccursAt(s, pat, p)
    requires forall j :: from <= j < p ==> !OccursAt(s, pat, j)
    ensures FindFrom(s, pat, from) == Some(p)
  {
    assert from <= p && OccursAt(s, pat, p);
  }

  /** Text without an open tag is one literal piece. */
  lemma SplitTagsNoOpen(s: string, t: Tags)
    requires t.open != [] && t.close != []
    requires !Occurs(t.open, s)
    ensures SplitTags(s, t) == [s]
  {
    assert FindFrom(s, t.open, 0).None?;
  }

  /** Text in which no close tag occurs is one literal piece, even when it
      holds an open tag. */
  lemma UnclosedIsLiteral(s: string, t: Tags)
    requires t.open != [] && t.close != []
    requires !Occurs(t.close, s)
    ensures SplitTags(s, t) == [s]
  {
  }

  /** Without a backslash there is nothing to hide. */
  lemma EscapeWithoutBackslash(s: string, t: Tags)
    requires ValidTags(t)
    requires '\\' !in s
    ensures Escape(s, t) == s
  {
    AbsentChar(s, ['\\'] + t.open, 0);
    AbsentChar(s, ['\\'] + t.close, 0);
    ReplaceAbsent(s, ['\\'] + t.open, Interleave(t.open));
    ReplaceAbsent(s, ['\\'] + t.close, Interleave(t.close));
  }

  /** Without a backslash there is nothing to give back. */
  lemma UnescapeWithoutBackslash(s: string, t: Tags)
    requires ValidTags(t)
    requires '\\' !in s
    ensures Unescape(s, t) == s
  {
    AbsentChar(s, Interleave(t.open), 1);
    AbsentChar(s, Interleave(t.close), 1);
    ReplaceAbsent(s, Interleave(t.open), t.open);
    ReplaceAbsent(s, Interleave(t.close), t.close);
  }
}
