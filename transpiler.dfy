/** What `Template.__parse` computes, as functions: the generated Python
    lines (`rawcode`) for a source text, or the error the parse raises.
    The imperative parse in `MiniTemple.Template.Parse` is proved to return
    exactly this. */
module Transpiler {
  import opened Results
  import opened Text
  import opened Paths
  import opened Scanner
  import opened Indentation

  /** How deep includes may nest before the interpreter's recursion limit
      stops the parse. */
  const MaxDepth: nat := 1000

  /** The generated line for a literal piece. The text goes between the
      triple quotes as it is: quotes and backslashes are not escaped. */
  function WriteLit(text: string): string
  {
    "write(\"\"\"" + text + "\"\"\")\n"
  }

  function Prepend(prefix: seq<string>, r: Result<seq<string>>): Result<seq<string>>
  {
    match r
    case Err(e) => Err(e)
    case Ok(code) => Ok(prefix + code)
  }

  /** The level after an embedded piece: one deeper when the piece's last line,
      blank or not, ends with `:` once stripped. */
  function Bump(lines: seq<string>, level: int): int
    requires lines != []
  {
    if EndsWith(RStrip(LStrip(lines[|lines| - 1])), ":") then level + 1 else level
  }

  /** `__parse(indent_init)` of a template with tags `t`, source `src` and base
      directory `basedir`; `fuel` bounds the include depth. */
  function Transpile(fs: FileSystem, basedir: string, t: Tags, src: string, init: int, fuel: nat)
    : Result<seq<string>>
    requires ValidTags(t)
    decreases fuel, 6, 0
  {
    Pieces(fs, basedir, t, SplitTags(Escape(src, t), t), 0, init, init, [], fuel)
  }

  /** The `write("""…""")` line for the buffered literal pieces, if any. */
  function Flush(stack: seq<string>, level: int): seq<string>
  {
    if |stack| > 0 then [Pad(level), WriteLit(Concat(stack))] else []
  }

  /** The code for `pieces[i..]`, starting at `level` with the literal pieces
      in `stack` not yet written: a piece at an even index is literal and is
      buffered; a piece at an odd index is embedded (see `Embed`); the buffer
      left at the end is written out last. */
  function Pieces(fs: FileSystem, basedir: string, t: Tags, pieces: seq<string>, i: nat,
                  init: int, level: int, stack: seq<string>, fuel: nat): Result<seq<string>>
    requires ValidTags(t) && i <= |pieces|
    decreases fuel, 5, |pieces| - i
  {
    if i == |pieces| then Ok(Flush(stack, level))
    else if i % 2 == 1 then
      match Embed(fs, basedir, Unescape(pieces[i], t), init, level, stack, fuel)
      case Err(e) => Err(e)
      case Ok((code, next)) => Prepend(code, Pieces(fs, basedir, t, pieces, i + 1, init, next, [], fuel))
    else Pieces(fs, basedir, t, pieces, i + 1, init, level, stack + [Unescape(pieces[i], t)], fuel)
  }

  /** An embedded piece `snip` (tags given back) after the buffered literal
      pieces `stack`: the buffer is written out first, then the code of the
      piece's lines from `level`; the level after it is one deeper when the
      last line ends with `:`. */
  function Embed(fs: FileSystem, basedir: string, snip: string, init: int, level: int,
                 stack: seq<string>, fuel: nat): Result<(seq<string>, int)>
    decreases fuel, 4, 0
  {
    var lines := Split(snip, '\n');
    match Lines(fs, basedir, lines, 0, init, level, [], fuel)
    case Err(e) => Err(e)
    case Ok(s) => Ok((Flush(stack, level) + s.code, Bump(lines, s.level)))
  }

  /** The lines `lines[j..]` of one embedded piece, from the given level and
      width stack: the final state and the code emitted. */
  function Lines(fs: FileSystem, basedir: string, lines: seq<string>, j: nat,
                 init: int, level: int, widths: seq<nat>, fuel: nat): Result<Step>
    requires j <= |lines|
    decreases fuel, 3, |lines| - j
  {
    if j == |lines| then Ok(Step(level, widths, []))
    else
      match Line(fs, basedir, lines[j], init, level, widths, fuel)
      case Err(e) => Err(e)
      case Ok(st) =>
        if st.level < init then Err(IndentationTooLow(LStrip(lines[j])))
        else
          match Lines(fs, basedir, lines, j + 1, init, st.level, st.widths, fuel)
          case Err(e) => Err(e)
          case Ok(rest) => Ok(Step(rest.level, rest.widths, st.code + rest.code))
  }

  /** One line: an include line splices the included files after a newline;
      every other line is a step of the indentation tracker. */
  function Line(fs: FileSystem, basedir: string, line: string,
                init: int, level: int, widths: seq<nat>, fuel: nat): Result<Step>
    decreases fuel, 2, 0
  {
    match Classify(line)
    case IncludeMark(_, files) =>
      (match Includes(fs, basedir, files, 0, level, fuel)
       case Err(e) => Err(e)
       case Ok(code) => Ok(Step(level, widths, ["\n"] + code)))
    case kind => StepLine(init, kind, level, widths)
  }

  /** The named files of an include line, from the `k`-th on: each non-empty
      name is joined to the base directory, parsed at the current level and
      followed by a newline. */
  function Includes(fs: FileSystem, basedir: string, files: seq<string>, k: nat,
                    level: int, fuel: nat): Result<seq<string>>
    requires k <= |files|
    decreases fuel, 1, |files| - k
  {
    if k == |files| then Ok([])
    else if files[k] == "" then Includes(fs, basedir, files, k + 1, level, fuel)
    else
      match ParseFile(fs, Join(basedir, files[k]), level, fuel)
      case Err(e) => Err(e)
      case Ok(code) => Prepend(code + ["\n"], Includes(fs, basedir, files, k + 1, level, fuel))
  }

  /** `Template(file=path)` followed by `__load_file()` and `__parse(init)`:
      the included file is read, and parsed with the default tags in its own
      directory. */
  function ParseFile(fs: FileSystem, path: string, init: int, fuel: nat): Result<seq<string>>
    decreases fuel, 0, 0
  {
    if path !in fs then Err(FileNotFound(path))
    else if fuel == 0 then Err(IncludeTooDeep)
    else Transpile(fs, DirName(path), DefaultTags, fs[path].content, init, fuel - 1)
  }

  lemma PrependNil(r: Result<seq<string>>)
    ensures Prepend([], r) == r
  {
    if r.Ok? {
      assert [] + r.value == r.value;
    }
  }

  lemma PrependPrepend(a: seq<string>, b: seq<string>, r: Result<seq<string>>)
    ensures Prepend(a, Prepend(b, r)) == Prepend(a + b, r)
  {
    if r.Ok? {
      assert a + (b + r.value) == (a + b) + r.value;
    }
  }

  /** A literal piece goes into the buffer. */
  lemma PiecesLiteral(fs: FileSystem, basedir: string, t: Tags, pieces: seq<string>, i: nat,
                      init: int, level: int, stack: seq<string>, fuel: nat)
    requires ValidTags(t) && i < |pieces| && i % 2 == 0
    ensures Pieces(fs, basedir, t, pieces, i, init, level, stack, fuel)
         == Pieces(fs, basedir, t, pieces, i + 1, init, level, stack + [Unescape(pieces[i], t)], fuel)
  {
  }

  /** An embedded piece writes out the buffer, then the code of its lines,
      or stops the parse with the error of one of them. */
  lemma PiecesEmbedded(fs: FileSystem, basedir: string, t: Tags, pieces: seq<string>, i: nat,
                       init: int, level: int, stack: seq<string>, fuel: nat)
    requires ValidTags(t) && i < |pieces| && i % 2 == 1
    ensures var e := Embed(fs, basedir, Unescape(pieces[i], t), init, level, stack, fuel);
      && (e.Err? ==> Pieces(fs, basedir, t, pieces, i, init, level, stack, fuel) == Err(e.error))
      && (e.Ok? ==>
            Pieces(fs, basedir, t, pieces, i, init, level, stack, fuel)
            == Prepend(e.value.0, Pieces(fs, basedir, t, pieces, i + 1, init, e.value.1, [], fuel)))
  {
  }

  /** A piece that ends with a newline never raises the level, whatever its
      last statement ends with: the `:` test looks at the blank last line. */
  lemma BumpAfterNewline(lines: seq<string>, level: int)
    ensures Bump(lines + [""], level) == level
  {
    assert (lines + [""])[|lines|] == "";
  }

  /** The level never ends below the starting level once the lines are
      through: any line that would leave it lower stops the parse. */
  lemma {:induction false} LinesFloor(fs: FileSystem, basedir: string, lines: seq<string>, j: nat,
                                      init: int, level: int, widths: seq<nat>, fuel: nat)
    requires j <= |lines| && level >= init
    ensures var r := Lines(fs, basedir, lines, j, init, level, widths, fuel);
      r.Ok? ==> r.value.level >= init
    decreases |lines| - j
  {
    if j < |lines| {
      var st := Line(fs, basedir, lines[j], init, level, widths, fuel);
      if st.Ok? && st.value.level >= init {
        LinesFloor(fs, basedir, lines, j + 1, init, st.value.level, st.value.widths, fuel);
      }
    }
  }

  /** The first line that leaves the level below the starting level stops the
      piece with `IndentationTooLow`, naming that line once left-stripped. */
  lemma TooLow(fs: FileSystem, basedir: string, lines: seq<string>, j: nat,
               init: int, level: int, widths: seq<nat>, fuel: nat)
    requires j < |lines|
    requires var st := Line(fs, basedir, lines[j], init, level, widths, fuel);
      st.Ok? && st.value.level < init
    ensures Lines(fs, basedir, lines, j, init, level, widths, fuel) == Err(IndentationTooLow(LStrip(lines[j])))
  {
  }

  /** The width stack of a piece, which starts empty, always holds strictly
      increasing widths. */
  lemma {:induction false} LinesKeepIncreasing(fs: FileSystem, basedir: string, lines: seq<string>,
                                               j: nat, init: int, level: int, widths: seq<nat>, fuel: nat)
    requires j <= |lines| && Increasing(widths)
    ensures var r := Lines(fs, basedir, lines, j, init, level, widths, fuel);
      r.Ok? ==> Increasing(r.value.widths)
    decreases |lines| - j
  {
    if j < |lines| {
      LineKeepsIncreasing(fs, basedir, lines[j], init, level, widths, fuel);
      LinesUnfold(fs, basedir, lines, j, init, level, widths, fuel);
      var st := Line(fs, basedir, lines[j], init, level, widths, fuel);
      if st.Ok? {
        LinesKeepIncreasing(fs, basedir, lines, j + 1, init, st.value.level, st.value.widths, fuel);
      }
    }
  }

  lemma LineKeepsIncreasing(fs: FileSystem, basedir: string, line: string,
                            init: int, level: int, widths: seq<nat>, fuel: nat)
    requires Increasing(widths)
    ensures var st := Line(fs, basedir, line, init, level, widths, fuel);
      st.Ok? ==> Increasing(st.value.widths)
  {
    var kind := Classify(line);
    if kind.IncludeMark? {
      LineInclude(fs, basedir, line, init, level, widths, fuel);
    } else {
      StepKeepsInvariant(init, kind, level, widths);
      LineStep(fs, basedir, line, init, level, widths, fuel);
    }
  }

  /** An include line keeps the width stack. */
  lemma LineInclude(fs: FileSystem, basedir: string, line: string,
                    init: int, level: int, widths: seq<nat>, fuel: nat)
    requires Classify(line).IncludeMark?
    ensures var st := Line(fs, basedir, line, init, level, widths, fuel);
      st.Ok? ==> st.value.widths == widths && st.value.level == level
  {
  }

  /** Any other line is one step of the indentation tracker. */
  lemma LineStep(fs: FileSystem, basedir: string, line: string,
                 init: int, level: int, widths: seq<nat>, fuel: nat)
    requires !Classify(line).IncludeMark?
    ensures Line(fs, basedir, line, init, level, widths, fuel) == StepLine(init, Classify(line), level, widths)
  {
  }

  /** A successful run of the lines from `j` is a successful first line that
      stays at or above the starting level, then a successful run of the rest,
      which decides the final widths. */
  lemma LinesUnfold(fs: FileSystem, basedir: string, lines: seq<string>, j: nat,
                    init: int, level: int, widths: seq<nat>, fuel: nat)
    requires j < |lines|
    ensures var r := Lines(fs, basedir, lines, j, init, level, widths, fuel);
      var st := Line(fs, basedir, lines[j], init, level, widths, fuel);
      r.Ok? ==>
        && st.Ok? && st.value.level >= init
        && Lines(fs, basedir, lines, j + 1, init, st.value.level, st.value.widths, fuel).Ok?
        && r.value.widths == Lines(fs, basedir, lines, j + 1, init, st.value.level, st.value.widths, fuel).value.widths
  {
  }

  /** A source cut into a single piece is one `write("""…""")` of that
      piece, tags given back, at the starting level. */
  lemma OnePiece(fs: FileSystem, basedir: string, t: Tags, src: string, x: string, init: int, fuel: nat)
    requires ValidTags(t) && SplitTags(Escape(src, t), t) == [x]
    ensures Transpile(fs, basedir, t, src, init, fuel) == Ok([Pad(init), WriteLit(Unescape(x, t))])
  {
    var u := Unescape(x, t);
    PiecesLiteral(fs, basedir, t, [x], 0, init, init, [], fuel);
    assert [] + [Unescape([x][0], t)] == [u];
    FlushOne(u, init);
  }

  lemma FlushOne(u: string, level: int)
    ensures Flush([u], level) == [Pad(level), WriteLit(u)]
  {
    assert [u][1..] == [];
    assert Concat([u]) == u + Concat([]);
    assert u + [] == u;
  }

  /** A template without a backslash and without an open tag is one literal
      piece: a single `write("""…""")` of the whole text, unchanged, at the
      starting level. */
  lemma LiteralOnly(fs: FileSystem, basedir: string, t: Tags, src: string, init: int, fuel: nat)
    requires ValidTags(t) && '\\' !in src && !Occurs(t.open, src)
    ensures Transpile(fs, basedir, t, src, init, fuel) == Ok([Pad(init), WriteLit(src)])
  {
    EscapeWithoutBackslash(src, t);
    SplitTagsNoOpen(src, t);
    UnescapeWithoutBackslash(src, t);
    OnePiece(fs, basedir, t, src, src, init, fuel);
  }

  /** Text that holds none of the characters of the default tags nor a backslash. */
  predicate Plain(s: string)
  {
    '\\' !in s && '<' !in s && '%' !in s && '>' !in s
  }

  /** With the default tags, `\<%` between plain texts opens no embedded piece
      and reaches the output as a bare `<%`. */
  lemma EscapedOpenTag(fs: FileSystem, basedir: string, a: string, b: string, init: int, fuel: nat)
    requires Plain(a) && Plain(b)
    ensures Transpile(fs, basedir, DefaultTags, a + "\\<%" + b, init, fuel)
         == Ok([Pad(init), WriteLit(a + "<%" + b)])
  {
    var e := a + "<\\%" + b;
    HideEscapedOpen(a, b);
    AbsentChar(e, "%>", 1);
    UnclosedIsLiteral(e, DefaultTags);
    RestoreEscapedOpen(a, b);
    OnePiece(fs, basedir, DefaultTags, a + "\\<%" + b, e, init, fuel);
  }

  lemma HideEscapedOpen(a: string, b: string)
    requires Plain(a) && Plain(b)
    ensures Escape(a + "\\<%" + b, DefaultTags) == a + "<\\%" + b
  {
    var t := DefaultTags;
    assert Interleave("<%") == "<\\%" && Interleave("%>") == "%\\>";
    assert ['\\'] + t.open == "\\<%" && ['\\'] + t.close == "\\%>";
    AbsentChar(b, "\\<%", 0);
    ReplaceOnce(a, "\\<%", b, "<\\%");
    var e := a + "<\\%" + b;
    AbsentChar(e, "\\%>", 2);
    ReplaceAbsent(e, "\\%>", "%\\>");
  }

  lemma RestoreEscapedOpen(a: string, b: string)
    requires Plain(a) && Plain(b)
    ensures Unescape(a + "<\\%" + b, DefaultTags) == a + "<%" + b
  {
    assert Interleave("<%") == "<\\%" && Interleave("%>") == "%\\>";
    AbsentChar(b, "<\\%", 0);
    ReplaceOnce(a, "<\\%", b, "<%");
    var u := a + "<%" + b;
    AbsentChar(u, "%\\>", 1);
    ReplaceAbsent(u, "%\\>", "%>");
  }

  /** With the default tags, `\%>` between plain texts closes no embedded
      piece and reaches the output as a bare `%>`. */
  lemma EscapedCloseTag(fs: FileSystem, basedir: string, a: string, b: string, init: int, fuel: nat)
    requires Plain(a) && Plain(b)
    ensures Transpile(fs, basedir, DefaultTags, a + "\\%>" + b, init, fuel)
         == Ok([Pad(init), WriteLit(a + "%>" + b)])
  {
    var e := a + "%\\>" + b;
    HideEscapedClose(a, b);
    AbsentChar(e, "<%", 0);
    SplitTagsNoOpen(e, DefaultTags);
    RestoreEscapedClose(a, b);
    OnePiece(fs, basedir, DefaultTags, a + "\\%>" + b, e, init, fuel);
  }

  lemma HideEscapedClose(a: string, b: string)
    requires Plain(a) && Plain(b)
    ensures Escape(a + "\\%>" + b, DefaultTags) == a + "%\\>" + b
  {
    var t := DefaultTags;
    var src := a + "\\%>" + b;
    assert Interleave("<%") == "<\\%" && Interleave("%>") == "%\\>";
    assert ['\\'] + t.open == "\\<%" && ['\\'] + t.close == "\\%>";
    AbsentChar(src, "\\<%", 1);
    ReplaceAbsent(src, "\\<%", "<\\%");
    AbsentChar(b, "\\%>", 0);
    ReplaceOnce(a, "\\%>", b, "%\\>");
  }

  lemma RestoreEscapedClose(a: string, b: string)
    requires Plain(a) && Plain(b)
    ensures Unescape(a + "%\\>" + b, DefaultTags) == a + "%>" + b
  {
    var e := a + "%\\>" + b;
    assert Interleave("<%") == "<\\%" && Interleave("%>") == "%\\>";
    AbsentChar(e, "<\\%", 0);
    ReplaceAbsent(e, "<\\%", "<%");
    AbsentChar(b, "%\\>", 0);
    ReplaceOnce(a, "%\\>", b, "%>");
  }

  /** A pattern whose first character stands in `u + [x] + v` only at `x`,
      and which mismatches there at offset `m`, does not occur. */
  lemma LoneMismatch(u: string, x: char, v: string, pat: string, m: nat)
    requires 0 < m < |pat| && pat[0] !in u && pat[0] !in v
    requires m - 1 < |v| ==> v[m - 1] != pat[m]
    ensures !Occurs(pat, u + [x] + v)
  {
    var s := u + [x] + v;
    forall i | 0 <= i <= |s| - |pat| ensures !OccursAt(s, pat, i) {
      if i < |u| {
        assert s[i] == u[i] && u[i] in u;
        MismatchAt(s, pat, i, 0);
      } else if i == |u| {
        assert s[i + m] == v[m - 1];
        MismatchAt(s, pat, i, m);
      } else {
        assert s[i] == v[i - |u| - 1] && v[i - |u| - 1] in v;
        MismatchAt(s, pat, i, 0);
      }
    }
  }

  /** With the default tags, `\<%` between plain texts stays literal even when
      a close tag follows it: no piece is opened, and the output holds the
      bare `<%` and the close tag as they stand. */
  lemma EscapedOpenBeforeClose(fs: FileSystem, basedir: string, a: string, b: string, c: string,
                               init: int, fuel: nat)
    requires Plain(a) && Plain(b) && Plain(c)
    ensures Transpile(fs, basedir, DefaultTags, a + "\\<%" + b + "%>" + c, init, fuel)
         == Ok([Pad(init), WriteLit(a + "<%" + b + "%>" + c)])
  {
    var r := b + "%>" + c;
    var e := a + "<\\%" + r;
    assert a + "\\<%" + b + "%>" + c == a + "\\<%" + r;
    HideOpenBeforeClose(a, r);
    assert e == a + ['<'] + ("\\%" + r);
    LoneMismatch(a, '<', "\\%" + r, "<%", 1);
    SplitTagsNoOpen(e, DefaultTags);
    RestoreOpenBeforeClose(a, r);
    assert a + "<%" + r == a + "<%" + b + "%>" + c;
    OnePiece(fs, basedir, DefaultTags, a + "\\<%" + r, e, init, fuel);
  }

  lemma HideOpenBeforeClose(a: string, r: string)
    requires Plain(a) && '\\' !in r && '<' !in r && (r == [] || r[0] != '>')
    ensures Escape(a + "\\<%" + r, DefaultTags) == a + "<\\%" + r
  {
    var t := DefaultTags;
    var e := a + "<\\%" + r;
    assert Interleave("<%") == "<\\%" && Interleave("%>") == "%\\>";
    assert ['\\'] + t.open == "\\<%" && ['\\'] + t.close == "\\%>";
    HideBefore(a, "\\<%", r, "<\\%", a + "\\<%" + r, e);
    assert e == (a + "<") + ['\\'] + ("%" + r);
    LoneMismatch(a + "<", '\\', "%" + r, "\\%>", 2);
    ReplaceAbsent(e, "\\%>", "%\\>");
  }

  lemma RestoreOpenBeforeClose(a: string, r: string)
    requires Plain(a) && '\\' !in r
    ensures Unescape(a + "<\\%" + r, DefaultTags) == a + "<%" + r
  {
    assert Interleave("<%") == "<\\%" && Interleave("%>") == "%\\>";
    AbsentChar(r, "<\\%", 1);
    ReplaceOnce(a, "<\\%", r, "<%");
    var u := a + "<%" + r;
    AbsentChar(u, "%\\>", 1);
    ReplaceAbsent(u, "%\\>", "%>");
  }

  /** With the default tags, `\%>` inside an embedded piece does not end it:
      the piece runs to the next close tag, and there the escaped close tag
      is given back as a bare `%>`. */
  lemma EscapedCloseInside(a: string, b: string, c: string)
    requires Plain(a) && Plain(b) && Plain(c)
    ensures SplitTags(Escape("<%" + a + "\\%>" + b + "%>" + c, DefaultTags), DefaultTags)
         == ["", a + "%\\>" + b, c]
    ensures Unescape(a + "%\\>" + b, DefaultTags) == a + "%>" + b
  {
    HideCloseInside(a, b, c);
    CutCloseInside(a, b, c);
    RestoreEscapedClose(a, b);
  }

  lemma HideCloseInside(a: string, b: string, c: string)
    requires Plain(a) && Plain(b) && Plain(c)
    ensures Escape("<%" + a + "\\%>" + b + "%>" + c, DefaultTags) == "<%" + a + "%\\>" + b + "%>" + c
  {
    var t := DefaultTags;
    var u := "<%" + a;
    var v := b + "%>" + c;
    var src := u + "\\%>" + v;
    assert "<%" + a + "\\%>" + b + "%>" + c == src;
    assert Interleave("<%") == "<\\%" && Interleave("%>") == "%\\>";
    assert ['\\'] + t.open == "\\<%" && ['\\'] + t.close == "\\%>";
    assert src == u + ['\\'] + ("%>" + v);
    LoneMismatch(u, '\\', "%>" + v, "\\<%", 1);
    ReplaceAbsent(src, "\\<%", "<\\%");
    HideBefore(u, "\\%>", v, "%\\>", src, u + "%\\>" + v);
    assert u + "%\\>" + v == "<%" + a + "%\\>" + b + "%>" + c;
  }

  /** `<%` a `%\>` b `%>` c is cut at its open tag and at the close tag after b. */
  lemma CutCloseInside(a: string, b: string, c: string)
    requires Plain(a) && Plain(b) && Plain(c)
    ensures SplitTags("<%" + a + "%\\>" + b + "%>" + c, DefaultTags) == ["", a + "%\\>" + b, c]
  {
    var mid := a + "%\\>" + b;
    assert "<%" + a + "%\\>" + b + "%>" + c == "<%" + mid + "%>" + c;
    NoCloseInside(a, b);
    AbsentChar(c, "<%", 0);
    CutWhole(mid, c);
  }

  /** In a `%\>` b `%`, the only `>` follows a backslash: no close tag. */
  lemma NoCloseInside(a: string, b: string)
    requires Plain(a) && Plain(b)
    ensures !Occurs("%>", a + "%\\>" + b + "%")
  {
    var s := a + "%\\>" + b + "%";
    assert s == (a + "%\\") + ['>'] + (b + "%");
    forall i | 0 <= i <= |s| - 2 ensures !OccursAt(s, "%>", i) {
      if i == |a| + 1 {
        assert s[i] == '\\';
        MismatchAt(s, "%>", i, 0);
      } else {
        CharElsewhere(a + "%\\", '>', b + "%", '>', i + 1);
        MismatchAt(s, "%>", i, 1);
      }
    }
  }

  /** A text that opens with the open tag, holds no close tag before the one
      after `mid`, and no open tag in `c`, is cut into one embedded piece. */
  lemma CutWhole(mid: string, c: string)
    requires !Occurs("%>", mid + "%") && !Occurs("<%", c)
    ensures SplitTags("<%" + mid + "%>" + c, DefaultTags) == ["", mid, c]
  {
    var t := DefaultTags;
    var e := "<%" + mid + "%>" + c;
    var q := |mid| + 2;
    assert e[2..q] == mid;
    assert e[2..q + 1] == mid + "%";
    forall j | 2 <= j < q ensures !OccursAt(e, "%>", j) {
      assert !OccursAt(mid + "%", "%>", j - 2);
      assert e[j..j + 2] == (mid + "%")[j - 2..j];
    }
    assert OccursAt(e, t.open, 0) by {
      assert e[0..2] == "<%";
    }
    assert OccursAt(e, t.close, q) by {
      assert e[q..q + 2] == "%>";
    }
    SplitTagsAt(e, t, 0, q);
    assert e[q + 2..] == c;
    SplitTagsNoOpen(c, t);
  }

  /** A character absent from `u` and `v` stands in `u + [x] + v` only at `x`. */
  lemma CharElsewhere(u: string, x: char, v: string, ch: char, i: nat)
    requires ch !in u && ch !in v && i < |u| + 1 + |v| && i != |u|
    ensures (u + [x] + v)[i] != ch
  {
    if i < |u| {
      assert u[i] in u;
    } else {
      assert v[i - |u| - 1] in v;
    }
  }

  /** Hiding the escaped tags of `\<%>` x `%>`: the escaped open tag becomes
      `<\%`; the hidden open tag and the `>` after it then hold `\%>`, an
      escaped close tag, which is hidden as `%\>`, and a bare `<%` is left. */
  lemma EscapeBeforeGreater(x: string)
    requires Plain(x)
    ensures Escape("\\<%>" + x + "%>", DefaultTags) == "<%\\>" + x + "%>"
  {
    var t := DefaultTags;
    assert Interleave("<%") == "<\\%" && Interleave("%>") == "%\\>";
    assert ['\\'] + t.open == "\\<%" && ['\\'] + t.close == "\\%>";
    HideOpenOfGreater(x);
    HideCloseOfGreater(x);
  }

  lemma HideOpenOfGreater(x: string)
    requires Plain(x)
    ensures Replace("\\<%>" + x + "%>", "\\<%", "<\\%") == "<\\%>" + x + "%>"
  {
    HideBefore("", "\\<%", ">" + x + "%>", "<\\%", "\\<%>" + x + "%>", "<\\%>" + x + "%>");
  }

  lemma HideCloseOfGreater(x: string)
    requires Plain(x)
    ensures Replace("<\\%>" + x + "%>", "\\%>", "%\\>") == "<%\\>" + x + "%>"
  {
    HideBefore("<", "\\%>", x + "%>", "%\\>", "<\\%>" + x + "%>", "<%\\>" + x + "%>");
  }

  /** One escaped tag `pat` in `whole`, with no backslash anywhere else, is
      replaced where it stands and nowhere else. */
  lemma HideBefore(a: string, pat: string, b: string, rep: string, whole: string, result: string)
    requires pat != [] && pat[0] == '\\' && '\\' !in a && '\\' !in b
    requires whole == a + pat + b && result == a + rep + b
    ensures Replace(whole, pat, rep) == result
  {
    AbsentChar(b, pat, 0);
    ReplaceOnce(a, pat, b, rep);
  }

  /** `<%\>` x `%>` is cut at its open tag and at the close tag at its end. */
  lemma CutBeforeGreater(x: string)
    requires Plain(x)
    ensures SplitTags("<%\\>" + x + "%>", DefaultTags) == ["", "\\>" + x, ""]
  {
    var t := DefaultTags;
    var e := "<%\\>" + x + "%>";
    var q := |x| + 4;
    assert e[2..q] == "\\>" + x;
    forall j | 2 <= j < q ensures !OccursAt(e, "%>", j) {
      assert e[j] == e[2..q][j - 2] && e[2..q][j - 2] in "\\>" + x;
      MismatchAt(e, "%>", j, 0);
    }
    assert OccursAt(e, t.open, 0) by {
      assert e[0..2] == "<%";
    }
    assert OccursAt(e, t.close, q) by {
      assert e[q..q + 2] == "%>";
    }
    SplitTagsAt(e, t, 0, q);
    assert e[q + 2..] == "";
    assert SplitTags("", t) == [""];
  }

  /** An escaped open tag directly followed by `>` is not kept literal: it
      opens an embedded piece, which runs to the next close tag. */
  lemma EscapedOpenBeforeGreater(x: string)
    requires Plain(x)
    ensures SplitTags(Escape("\\<%>" + x + "%>", DefaultTags), DefaultTags) == ["", "\\>" + x, ""]
    ensures Unescape("\\>" + x, DefaultTags) == "\\>" + x
  {
    EscapeBeforeGreater(x);
    CutBeforeGreater(x);
    UnescapeBeforeGreater(x);
  }

  lemma UnescapeBeforeGreater(x: string)
    requires Plain(x)
    ensures Unescape("\\>" + x, DefaultTags) == "\\>" + x
  {
    var u := "\\>" + x;
    assert Interleave("<%") == "<\\%" && Interleave("%>") == "%\\>";
    assert '<' !in u && '%' !in u;
    AbsentChar(u, "<\\%", 0);
    ReplaceAbsent(u, "<\\%", "<%");
    AbsentChar(u, "%\\>", 0);
    ReplaceAbsent(u, "%\\>", "%>");
  }

  /** An error in an included file stops the include line when every name
      before it is empty or parses: that error is the line's error, and the
      names after it are not read. */
  lemma {:induction false} IncludeFails(fs: FileSystem, basedir: string, files: seq<string>, i: nat, k: nat,
                                        level: int, fuel: nat)
    requires i <= k < |files| && files[k] != ""
    requires forall j :: i <= j < k ==> files[j] == "" || ParseFile(fs, Join(basedir, files[j]), level, fuel).Ok?
    requires ParseFile(fs, Join(basedir, files[k]), level, fuel).Err?
    ensures Includes(fs, basedir, files, i, level, fuel) == ParseFile(fs, Join(basedir, files[k]), level, fuel)
    decreases k - i
  {
    if i < k {
      IncludeFails(fs, basedir, files, i + 1, k, level, fuel);
    }
  }

  /** An error on the first line stops the piece. */
  lemma FirstLineFails(fs: FileSystem, basedir: string, lines: seq<string>, init: int, level: int,
                       widths: seq<nat>, fuel: nat)
    requires |lines| > 0 && Line(fs, basedir, lines[0], init, level, widths, fuel).Err?
    ensures Lines(fs, basedir, lines, 0, init, level, widths, fuel) == Line(fs, basedir, lines[0], init, level, widths, fuel)
  {
  }

  /** An error on a line of an embedded piece is the piece's error. */
  lemma EmbedFails(fs: FileSystem, basedir: string, snip: string, init: int, level: int,
                   stack: seq<string>, fuel: nat)
    requires Lines(fs, basedir, Split(snip, '\n'), 0, init, level, [], fuel).Err?
    ensures Embed(fs, basedir, snip, init, level, stack, fuel)
         == Err(Lines(fs, basedir, Split(snip, '\n'), 0, init, level, [], fuel).error)
  {
  }

  /** A piece whose lines succeed emits the buffer and the lines' code, and
      leaves the level the lines reach, bumped after a last line ending in `:`. */
  lemma EmbedOk(fs: FileSystem, basedir: string, snip: string, init: int, level: int,
                stack: seq<string>, fuel: nat)
    requires Lines(fs, basedir, Split(snip, '\n'), 0, init, level, [], fuel).Ok?
    ensures var s := Lines(fs, basedir, Split(snip, '\n'), 0, init, level, [], fuel).value;
      Embed(fs, basedir, snip, init, level, stack, fuel)
      == Ok((Flush(stack, level) + s.code, Bump(Split(snip, '\n'), s.level)))
  {
  }

  /** An error in the first embedded piece stops the parse, whatever follows. */
  lemma FirstPieceFails(fs: FileSystem, basedir: string, t: Tags, pieces: seq<string>, init: int, fuel: nat)
    requires ValidTags(t) && |pieces| >= 2
    requires Embed(fs, basedir, Unescape(pieces[1], t), init, init, [Unescape(pieces[0], t)], fuel).Err?
    ensures Pieces(fs, basedir, t, pieces, 0, init, init, [], fuel)
         == Err(Embed(fs, basedir, Unescape(pieces[1], t), init, init, [Unescape(pieces[0], t)], fuel).error)
  {
    PiecesLiteral(fs, basedir, t, pieces, 0, init, init, [], fuel);
    assert [] + [Unescape(pieces[0], t)] == [Unescape(pieces[0], t)];
    PiecesEmbedded(fs, basedir, t, pieces, 1, init, init, [Unescape(pieces[0], t)], fuel);
  }

  /** A name that an include line carries as one file of the current
      directory. */
  predicate PlainName(p: string)
  {
    && p != [] && !IsSpace(p[|p| - 1])
    && '/' !in p && '%' !in p && '\\' !in p && '\n' !in p && ' ' !in p
  }

  /** The file `p` holds nothing but an include line naming itself. */
  predicate SelfIncluding(fs: FileSystem, p: string)
  {
    PlainName(p) && p in fs && fs[p].content == "<%#include " + p + "%>"
  }

  /** How a file holding only `<%#include p%>` is cut: one embedded piece
      holding the include line. */
  lemma SelfIncludeCut(p: string)
    requires PlainName(p)
    ensures var line := "#include " + p;
      SplitTags("<%" + line + "%>", DefaultTags) == ["", line, ""]
  {
    var t := DefaultTags;
    var line := "#include " + p;
    var src := "<%" + line + "%>";
    var q := 2 + |line|;
    assert src[2..q] == line;
    forall j | 2 <= j < q ensures !OccursAt(src, t.close, j) {
      assert src[j] == line[j - 2] && line[j - 2] in line;
      MismatchAt(src, t.close, j, 0);
    }
    assert OccursAt(src, t.open, 0) by {
      assert src[0..2] == "<%";
    }
    assert OccursAt(src, t.close, q) by {
      assert src[q..q + 2] == "%>";
    }
    SplitTagsAt(src, t, 0, q);
    assert src[q + 2..] == "";
  }

  lemma SelfIncludePieces(p: string)
    requires PlainName(p)
    ensures var line := "#include " + p;
      SplitTags(Escape("<%" + line + "%>", DefaultTags), DefaultTags) == ["", line, ""]
  {
    var line := "#include " + p;
    assert '\\' !in line;
    EscapeWithoutBackslash("<%" + line + "%>", DefaultTags);
    SelfIncludeCut(p);
  }

  lemma SelfIncludeUnescape(p: string)
    requires PlainName(p)
    ensures Unescape("#include " + p, DefaultTags) == "#include " + p
    ensures Unescape("", DefaultTags) == ""
  {
    assert '\\' !in "#include " + p;
    UnescapeWithoutBackslash("#include " + p, DefaultTags);
    UnescapeWithoutBackslash("", DefaultTags);
  }

  /** The include line is one line of its piece. */
  lemma SelfIncludeOneLine(p: string)
    requires PlainName(p)
    ensures Split("#include " + p, '\n') == ["#include " + p]
  {
    assert '\n' !in "#include " + p;
    SplitWithoutSep("#include " + p, '\n');
  }

  /** The include line names the file. */
  lemma SelfIncludeLine(p: string)
    requires PlainName(p)
    ensures Classify("#include " + p) == IncludeMark("#include " + p, [p])
  {
    var line := "#include " + p;
    assert LStrip(line) == line;
    assert RStrip(line) == line by {
      assert line[|line| - 1] == p[|p| - 1];
    }
    assert line[..8] == "#include";
    RecogniseInclude(Width(line), line);
    SelfIncludeFiles(p);
  }

  lemma SelfIncludeFiles(p: string)
    requires PlainName(p)
    ensures Split("#include " + p, ' ')[1..] == [p]
  {
    assert "#include " + p == "#include" + [' '] + p;
    SplitAtFirst("#include", ' ', p);
    SplitWithoutSep(p, ' ');
  }

  /** A name without slashes is looked up in the current directory, which is
      also the directory of its own includes. */
  lemma SelfIncludeDir(p: string)
    requires PlainName(p)
    ensures DirName(p) == "" && Join("", p) == p
  {
    assert p[0] in p;
    assert RFind(p, '/') == -1;
  }

  lemma SelfIncludeUnfold(fs: FileSystem, p: string, init: int, fuel: nat)
    requires SelfIncluding(fs, p) && fuel > 0
    ensures ParseFile(fs, p, init, fuel)
         == Pieces(fs, "", DefaultTags, ["", "#include " + p, ""], 0, init, init, [], fuel - 1)
  {
    assert fs[p].content == "<%" + ("#include " + p) + "%>";
    SelfIncludePieces(p);
    SelfIncludeUnescape(p);
    SelfIncludeDir(p);
  }

  lemma SelfIncludeLines(fs: FileSystem, p: string, init: int, f: nat)
    requires PlainName(p) && ParseFile(fs, p, init, f) == Err(IncludeTooDeep)
    ensures Lines(fs, "", ["#include " + p], 0, init, init, [], f) == Err(IncludeTooDeep)
  {
    var line := "#include " + p;
    SelfIncludeLine(p);
    SelfIncludeDir(p);
    IncludeFails(fs, "", [p], 0, 0, init, f);
    FirstLineFails(fs, "", [line], init, init, [], f);
  }

  lemma SelfIncludeBody(fs: FileSystem, p: string, init: int, f: nat)
    requires PlainName(p) && ParseFile(fs, p, init, f) == Err(IncludeTooDeep)
    ensures Pieces(fs, "", DefaultTags, ["", "#include " + p, ""], 0, init, init, [], f) == Err(IncludeTooDeep)
  {
    SelfIncludeUnescape(p);
    SelfIncludeEmbed(fs, p, init, f);
    FirstPieceFails(fs, "", DefaultTags, ["", "#include " + p, ""], init, f);
  }

  lemma SelfIncludeEmbed(fs: FileSystem, p: string, init: int, f: nat)
    requires PlainName(p) && ParseFile(fs, p, init, f) == Err(IncludeTooDeep)
    ensures Embed(fs, "", "#include " + p, init, init, [""], f) == Err(IncludeTooDeep)
  {
    SelfIncludeOneLine(p);
    SelfIncludeLines(fs, p, init, f);
    EmbedFails(fs, "", "#include " + p, init, init, [""], f);
  }

  lemma SelfIncludeStep(fs: FileSystem, p: string, init: int, fuel: nat)
    requires SelfIncluding(fs, p) && fuel > 0
    requires ParseFile(fs, p, init, fuel - 1) == Err(IncludeTooDeep)
    ensures ParseFile(fs, p, init, fuel) == Err(IncludeTooDeep)
  {
    SelfIncludeBody(fs, p, init, fuel - 1);
    SelfIncludeUnfold(fs, p, init, fuel);
  }

  /** A plain-named file of the base directory whose whole content is an
      include of itself recurses until the depth bound is spent, at every
      depth: it never produces code. */
  lemma {:induction false} SelfIncludeNeverEnds(fs: FileSystem, p: string, init: int, fuel: nat)
    requires SelfIncluding(fs, p)
    ensures ParseFile(fs, p, init, fuel) == Err(IncludeTooDeep)
    decreases fuel
  {
    if fuel > 0 {
      SelfIncludeNeverEnds(fs, p, init, fuel - 1);
      SelfIncludeStep(fs, p, init, fuel);
    }
  }
}
