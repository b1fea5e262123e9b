/** The indentation tracker of `Template.__parse`: how one line of an embedded
    piece is recognised, and how it moves the state (the generated indentation
    level and the stack `offset` of leading-whitespace widths) and what it
    emits. Include lines are spliced by the transpiler, not here. */
module Indentation {
  import opened Results
  import opened Text

  /** What a line of an embedded piece is, decided on its left-stripped text
      in the order the source tests it. */
  datatype LineKind =
    | Blank
    | EndMark(text: string)
    | IncludeMark(text: string, files: seq<string>)
    | Comment
    | Print(expr: string)
    | Continuation(text: string)
    | Statement(width: nat, text: string)

  function Classify(line: string): LineKind
  {
    Recognise(Width(line), LStrip(line))
  }

  /** The decision itself, on the left-stripped line `sline` and the width of
      the whitespace that was stripped. */
  function Recognise(width: nat, sline: string): LineKind
  {
    if RStrip(sline) == "" then Blank
    else if sline[0] == '#' then
      if RStrip(sline) == "#end" then EndMark(sline)
      else if StartsWith(sline, "#include") then IncludeMark(sline, Split(RStrip(sline), ' ')[1..])
      else Comment
    else if sline[0] == '=' then Print(sline[1..])
    else if (StartsWith(sline, "else") || StartsWith(sline, "elif")) && EndsWith(RStrip(sline), ":") then
      Continuation(sline)
    else Statement(width, sline)
  }

  /** The state after one line and the generated code it appends to `rawcode`. */
  datatype Step = Step(level: int, widths: seq<nat>, code: seq<string>)

  /** One line that is not an include: the branches of the loop body of
      `__parse` before the final "indentation too low" check. */
  function StepLine(init: int, kind: LineKind, level: int, widths: seq<nat>): Result<Step>
    requires !kind.IncludeMark?
  {
    match kind
    case Blank => Ok(Step(level, widths, []))
    case Comment => Ok(Step(level, widths, []))
    case EndMark(_) =>
      if level - 1 > init then
        if widths == [] then Err(PopFromEmpty)
        else Ok(Step(level - 1, widths[..|widths| - 1], []))
      else Ok(Step(level - 1, widths, []))
    case Print(expr) => Ok(Step(level, widths, [Pad(level), "write(" + expr + ")\n"]))
    case Continuation(text) =>
      if level < 1 then Err(UnexpectedElse(text))
      else Ok(Step(level, widths, [Pad(level - 1), text + "\n"]))
    case Statement(width, text) =>
      var (l, w) :=
        if widths == [] then (level, [width])
        else if width > widths[|widths| - 1] then (level + 1, widths + [width])
        else if width < widths[|widths| - 1] then (level - 1, widths[..|widths| - 1])
        else (level, widths);
      Ok(Step(l, w, [Pad(l), text + "\n"]))
  }

  /** The widths on the stack strictly increase from bottom to top. */
  predicate Increasing(widths: seq<nat>)
  {
    forall i, j :: 0 <= i < j < |widths| ==> widths[i] < widths[j]
  }

  /** A line is blank exactly when it holds nothing but whitespace. */
  lemma BlankIffWhitespace(line: string)
    ensures Classify(line).Blank? <==> IsBlank(line)
  {
    RecogniseBlank(Width(line), LStrip(line));
    StripBlank(line);
  }

  lemma RecogniseBlank(width: nat, s: string)
    ensures Recognise(width, s).Blank? <==> RStrip(s) == ""
  {
  }

  /** Whatever the line, the level moves by at most one, and the stack keeps
      its widths in increasing order. */
  lemma StepKeepsInvariant(init: int, kind: LineKind, level: int, widths: seq<nat>)
    requires !kind.IncludeMark?
    requires Increasing(widths)
    ensures var r := StepLine(init, kind, level, widths);
      r.Ok? ==> -1 <= r.value.level - level <= 1 && Increasing(r.value.widths)
  {
  }

  /** A plain statement line, against the stack of widths: the first line of a
      piece records its width; a wider line pushes its width and opens one
      level; a narrower one pops once and closes one level; an equal width
      changes nothing. The line is emitted at the resulting level, and while
      the stack is not empty the level moves exactly as far as the stack
      does. */
  lemma StatementRule(init: int, w: nat, text: string, level: int, widths: seq<nat>)
    ensures var r := StepLine(init, Statement(w, text), level, widths);
      && r.Ok?
      && (widths == [] ==> r.value.level == level && r.value.widths == [w])
      && (widths != [] && w > widths[|widths| - 1] ==>
            r.value.level == level + 1 && r.value.widths == widths + [w])
      && (widths != [] && w < widths[|widths| - 1] ==>
            r.value.level == level - 1 && r.value.widths == widths[..|widths| - 1])
      && (widths != [] && w == widths[|widths| - 1] ==>
            r.value.level == level && r.value.widths == widths)
      && (widths != [] ==> r.value.level - level == |r.value.widths| - |widths|)
      && r.value.code == [Pad(r.value.level), text + "\n"]
  {
  }

  /** A statement line is taken apart into its leading whitespace, whose
      length is the width the stack compares, and the text emitted, which
      starts with a character that is not whitespace. */
  lemma ClassifyStatement(line: string)
    requires Classify(line).Statement?
    ensures var k := Classify(line);
      && line == line[..k.width] + k.text
      && IsBlank(line[..k.width])
      && k.text != [] && !IsSpace(k.text[0])
  {
    var sline := LStrip(line);
    assert line == line[..|line| - |sline|] + sline;
    LStripBlank(line);
  }

  /** A line reading `#end` once stripped is an end mark. */
  lemma ClassifyEnd(line: string)
    requires RStrip(LStrip(line)) == "#end"
    ensures Classify(line) == EndMark(LStrip(line))
  {
    RecogniseEnd(Width(line), LStrip(line));
  }

  /** A stripped line starting with `#include` names the files after it. */
  lemma RecogniseInclude(width: nat, s: string)
    requires RStrip(s) == s && StartsWith(s, "#include")
    ensures Recognise(width, s) == IncludeMark(s, Split(s, ' ')[1..])
  {
    assert s[0] == s[..8][0];
    assert |s| != |"#end"|;
  }

  lemma RecogniseEnd(width: nat, s: string)
    requires RStrip(s) == "#end"
    ensures Recognise(width, s) == EndMark(s)
  {
    assert s[0] == RStrip(s)[0];
  }

  /** `#end` closes one level; it pops the width stack only when the new
      level is still above the starting level, and fails on an empty stack
      then. */
  lemma EndRule(init: int, text: string, level: int, widths: seq<nat>)
    ensures var r := StepLine(init, EndMark(text), level, widths);
      && (r.Err? <==> level - 1 > init && widths == [])
      && (r.Err? ==> r.error == PopFromEmpty)
      && (r.Ok? ==>
            && r.value.level == level - 1 && r.value.code == []
            && r.value.widths == if level - 1 > init then widths[..|widths| - 1] else widths)
  {
  }

  /** A line starting with `else` or `elif` and ending with `:` once stripped
      is a continuation, kept without its leading whitespace. */
  lemma ClassifyContinuation(line: string)
    requires var s := LStrip(line);
      (StartsWith(s, "else") || StartsWith(s, "elif")) && EndsWith(RStrip(s), ":")
    ensures Classify(line) == Continuation(LStrip(line))
  {
    RecogniseContinuation(Width(line), LStrip(line));
  }

  lemma RecogniseContinuation(width: nat, s: string)
    requires (StartsWith(s, "else") || StartsWith(s, "elif")) && EndsWith(RStrip(s), ":")
    ensures Recognise(width, s) == Continuation(s)
  {
    assert s[0] == 'e';
    assert RStrip(s) != "" by {
      assert RStrip(s)[|RStrip(s)| - 1] == ':';
    }
  }

  /** An `else…:` or `elif…:` line is emitted one level shallower than the
      current level and leaves the state alone; at level 0 it is a syntax
      error. */
  lemma ContinuationRule(init: int, text: string, level: int, widths: seq<nat>)
    ensures var r := StepLine(init, Continuation(text), level, widths);
      && (r.Err? <==> level < 1)
      && (r.Err? ==> r.error == UnexpectedElse(text))
      && (r.Ok? ==> r.value == Step(level, widths, [Pad(level - 1), text + "\n"]))
  {
  }

  /** A `=expr` line becomes `write(expr)` at the current level and changes
      nothing else. */
  lemma PrintRule(init: int, line: string, level: int, widths: seq<nat>)
    requires var s := LStrip(line); s != [] && s[0] == '=' && RStrip(s) != ""
    ensures var r := StepLine(init, Classify(line), level, widths);
      r == Ok(Step(level, widths, [Pad(level), "write(" + LStrip(line)[1..] + ")\n"]))
  {
  }

  /** Blank lines and comments other than `#end` and `#include` emit nothing
      and leave the state alone. */
  lemma SilentRule(init: int, line: string, level: int, widths: seq<nat>)
    requires var s := LStrip(line);
      IsBlank(line) || (s != [] && s[0] == '#' && RStrip(s) != "#end" && !StartsWith(s, "#include"))
    ensures var r := StepLine(init, Classify(line), level, widths);
      r == Ok(Step(level, widths, []))
  {
    BlankIffWhitespace(line);
  }
}
