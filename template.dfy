/** The `Template` class: construction and its checks, the class-wide cache
    of compiled code, the parse written as the loops the class runs, and
    rendering into the output buffer through `write` and `echo`. */
module MiniTemple {
  import opened Results
  import opened Text
  import opened Paths
  import opened Scanner
  import opened Indentation
  import opened Transpiler

  /** What the process supplies: its files, its working directory and the
      interpreter's `hash` of strings. */
  datatype Env = Env(fs: FileSystem, cwd: string, hash: string -> int)

  /** The keyword arguments of `Template(...)` that matter here. */
  datatype Options = Options(file: Option<string>, text: Option<string>, caching: bool, tags: Tags)

  /** The options a bare `Template(file=path)` gets, as for an included file. */
  function FileOptions(path: string): Options
  {
    Options(Some(path), None, true, DefaultTags)
  }

  /** Python's truth test on an optional string: present and not empty. */
  predicate Truthy(s: Option<string>)
  {
    s.Some? && s.value != ""
  }

  /** Key of the class-wide cache: the file name as given, or the hash of the
      text. */
  datatype Key = PathKey(path: string) | TextKey(hash: int)

  /** A cache entry: the modification time the code was generated against
      (`None` for a text) and the generated code. */
  datatype Entry = Entry(mtime: Option<int>, code: string)

  /** What `__init__` derives from the options: the directory includes are
      resolved against, the cache key, the modification time and, for a text
      template, the source. */
  datatype Setup = Setup(basedir: string, key: Key, mtime: Option<int>, src: Option<string>)

  /** `__init__`: the tag checks, then a file template (its directory, its
      name as key, its modification time; the text is read later) or else a
      text template (the working directory, the hash of the text as key, no
      modification time, the text as source). */
  function Configure(env: Env, o: Options): (r: Result<Setup>)
    ensures r.Ok? <==>
      ValidTags(o.tags) && (Truthy(o.file) || Truthy(o.text))
      && (Truthy(o.file) ==> o.file.value in env.fs)
    ensures r.Err? ==>
      && (r.error.InitTypeError? <==> !ValidTags(o.tags))
      && (r.error == NoSource <==> ValidTags(o.tags) && !Truthy(o.file) && !Truthy(o.text))
      && (r.error.FileNotFound? <==> ValidTags(o.tags) && Truthy(o.file) && o.file.value !in env.fs)
      && (r.error.FileNotFound? ==> r.error.path == o.file.value)
    ensures r.Ok? && Truthy(o.file) ==>
      var f := o.file.value;
      r.value == Setup(DirName(f), PathKey(f), Some(env.fs[f].mtime), None)
    ensures r.Ok? && !Truthy(o.file) ==>
      r.value == Setup(env.cwd, TextKey(env.hash(o.text.value)), None, o.text)
  {
    if |o.tags.open| < 2 || |o.tags.close| < 2 then
      Err(InitTypeError("Both tags must be at least to characters long."))
    else if '\\' in o.tags.open + o.tags.close then
      Err(InitTypeError("\\ is forbidden in tags."))
    else if Truthy(o.file) then
      var f := o.file.value;
      if f !in env.fs then Err(FileNotFound(f))
      else Ok(Setup(DirName(f), PathKey(f), Some(env.fs[f].mtime), None))
    else if Truthy(o.text) then
      Ok(Setup(env.cwd, TextKey(env.hash(o.text.value)), None, o.text))
    else Err(NoSource)
  }

  /** The code `compile()` takes from the cache, if any. */
  function Hit(caching: bool, key: Key, mtime: Option<int>, entries: map<Key, Entry>): Option<string>
  {
    if caching && key in entries && entries[key].mtime == mtime then Some(entries[key].code)
    else None
  }

  /** The code a compile that misses the cache generates: a file template's
      file is read afresh, the source is parsed from level 0 and the lines are
      joined. */
  function Generate(fs: FileSystem, file: Option<string>, src: Option<string>,
                    basedir: string, tags: Tags): Result<string>
    requires ValidTags(tags) && (Truthy(file) || src.Some?)
  {
    if Truthy(file) && file.value !in fs then Err(FileNotFound(file.value))
    else
      var text := if Truthy(file) then fs[file.value].content else src.value;
      match Transpile(fs, basedir, tags, text, 0, MaxDepth)
      case Err(e) => Err(e)
      case Ok(raw) => Ok(Concat(raw))
  }

  /** The code generated for lines `j..` of a piece, behind what the earlier
      lines emitted. */
  function After(code: seq<string>, r: Result<Step>): Result<Step>
  {
    match r
    case Err(e) => Err(e)
    case Ok(s) => Ok(Step(s.level, s.widths, code + s.code))
  }

  lemma AfterNil(r: Result<Step>)
    ensures After([], r) == r
  {
    if r.Ok? {
      assert [] + r.value.code == r.value.code;
    }
  }

  lemma AfterAfter(a: seq<string>, b: seq<string>, r: Result<Step>)
    ensures After(a, After(b, r)) == After(a + b, r)
  {
    if r.Ok? {
      assert a + (b + r.value.code) == (a + b) + r.value.code;
    }
  }

  /** A call the compiled code makes while it runs: `write(s)` or
      `echo(*args)`, the arguments already turned into strings. */
  datatype Call = Write(value: string) | Echo(args: seq<string>)

  /** The strings the calls append to the output buffer. */
  function Effects(calls: seq<Call>): seq<string>
  {
    if calls == [] then []
    else
      var first := match calls[0]
        case Write(s) => [s]
        case Echo(args) => [JoinWith(" ", args), "\n"];
      first + Effects(calls[1..])
  }

  /** The output of a run is what its calls produce one after the other. */
  lemma {:induction false} EffectsAppend(a: seq<Call>, b: seq<Call>)
    ensures Effects(a + b) == Effects(a) + Effects(b)
    ensures Concat(Effects(a + b)) == Concat(Effects(a)) + Concat(Effects(b))
  {
    if a != [] {
      assert (a + b)[1..] == a[1..] + b;
      EffectsAppend(a[1..], b);
    } else {
      assert a + b == b;
    }
    ConcatAppend(Effects(a), Effects(b));
  }

  /** Echo puts a single space between its arguments and ends the line. */
  lemma EchoLine(args: seq<string>)
    requires forall k :: 0 <= k < |args| ==> '\n' !in args[k]
    ensures var out := Concat(Effects([Echo(args)]));
      out != [] && out[|out| - 1] == '\n' && '\n' !in out[..|out| - 1]
  {
    var line := JoinWith(" ", args);
    JoinWithout(args, '\n');
    assert Effects([Echo(args)]) == [line, "\n"];
    assert [line, "\n"][1..] == ["\n"] && ["\n"][1..] == [];
    assert (line + "\n")[..|line|] == line;
  }

  /** Joining pieces none of which holds `ch` with spaces gives a string
      without `ch`, when `ch` is not a space. */
  lemma {:induction false} JoinWithout(parts: seq<string>, ch: char)
    requires ch != ' '
    requires forall k :: 0 <= k < |parts| ==> ch !in parts[k]
    ensures ch !in JoinWith(" ", parts)
  {
    if |parts| > 1 {
      JoinWithout(parts[1..], ch);
    }
  }

  /** The cache shared by every template (`Template.__cache`). */
  class Cache {
    var entries: map<Key, Entry>

    constructor ()
      ensures entries == map[]
    {
      entries := map[];
    }
  }

  class Template {
    const file: Option<string>
    const text: Option<string>
    const caching: bool
    const tags: Tags
    const basedir: string
    const key: Key
    const mtime: Option<int>
    /** The class-level cache, shared with every other template. */
    const cache: Cache
    var src: Option<string>
    var code: Option<string>
    var output: seq<string>

    /** The tags passed the checks, and the template has something to parse:
        a file to read or a text. */
    ghost predicate Valid()
      reads this
    {
      ValidTags(tags) && (Truthy(file) || src.Some?)
    }

    constructor (o: Options, s: Setup, cache: Cache)
      ensures file == o.file && text == o.text && caching == o.caching && tags == o.tags
      ensures basedir == s.basedir && key == s.key && mtime == s.mtime && src == s.src
      ensures this.cache == cache && code == None && output == []
    {
      file := o.file;
      text := o.text;
      caching := o.caching;
      tags := o.tags;
      basedir := s.basedir;
      key := s.key;
      mtime := s.mtime;
      this.cache := cache;
      src := s.src;
      code := None;
      output := [];
    }

    /** `Template(**options)`: fails as `__init__` does, or gives a fresh
        template holding what `Configure` derives. */
    static method New(env: Env, o: Options, cache: Cache) returns (r: Result<Template>)
      ensures r.Err? <==> Configure(env, o).Err?
      ensures r.Err? ==> r.error == Configure(env, o).error
      ensures r.Ok? ==>
        var t, s := r.value, Configure(env, o).value;
        && fresh(t) && t.Valid() && t.cache == cache
        && t.file == o.file && t.text == o.text && t.caching == o.caching && t.tags == o.tags
        && t.basedir == s.basedir && t.key == s.key && t.mtime == s.mtime && t.src == s.src
        && t.code == None && t.output == []
    {
      var setup := Configure(env, o);
      if setup.Err? {
        return Err(setup.error);
      }
      var t := new Template(o, setup.value, cache);
      return Ok(t);
    }

    /** `__load_file`: the source becomes the file's content. */
    method LoadFile(fs: FileSystem) returns (r: Result<()>)
      modifies this`src
      ensures !Truthy(file) ==> r == Err(NoFileName) && src == old(src)
      ensures Truthy(file) && file.value !in fs ==> r == Err(FileNotFound(file.value)) && src == old(src)
      ensures Truthy(file) && file.value in fs ==> r == Ok(()) && src == Some(fs[file.value].content)
    {
      if !Truthy(file) {
        return Err(NoFileName);
      }
      if file.value !in fs {
        return Err(FileNotFound(file.value));
      }
      src := Some(fs[file.value].content);
      return Ok(());
    }

    /** `__parse(indent_init)`: hides the escaped tags, cuts the source into
        literal and embedded pieces, and walks them, buffering each literal
        piece until the next embedded one (or the end) writes it out. The
        source itself is left as it was. */
    method Parse(env: Env, init: int, fuel: nat) returns (r: Result<seq<string>>)
      requires ValidTags(tags) && src.Some?
      ensures r == Transpile(env.fs, basedir, tags, src.value, init, fuel)
      decreases fuel, 7
    {
      var pieces := SplitTags(Escape(src.value, tags), tags);
      ghost var spec := Pieces(env.fs, basedir, tags, pieces, 0, init, init, [], fuel);
      var rawcode: seq<string> := [];
      var stack: seq<string> := [];
      var level := init;
      var i := 0;
      PrependNil(spec);
      while i < |pieces|
        invariant 0 <= i <= |pieces|
        invariant spec == Prepend(rawcode, Pieces(env.fs, basedir, tags, pieces, i, init, level, stack, fuel))
      {
        var next := ParsePiece(env, pieces, i, init, level, stack, fuel);
        if next.Err? {
          return Err(next.error);
        }
        var (emitted, level', stack') := next.value;
        PrependPrepend(rawcode, emitted, Pieces(env.fs, basedir, tags, pieces, i + 1, init, level', stack', fuel));
        rawcode, level, stack := rawcode + emitted, level', stack';
        i := i + 1;
      }
      if |stack| > 0 {
        rawcode := rawcode + [Pad(level), WriteLit(Concat(stack))];
      } else {
        assert rawcode + Flush(stack, level) == rawcode;
      }
      return Ok(rawcode);
    }

    /** The body of the loop over the pieces for the `i`-th piece: a literal
        piece is buffered; an embedded piece writes out the buffer and its
        lines. The result is the code emitted, the new level and the new
        buffer, or the error that stops the parse. */
    method ParsePiece(env: Env, pieces: seq<string>, i: nat, init: int, level: int, stack: seq<string>, fuel: nat)
      returns (r: Result<(seq<string>, int, seq<string>)>)
      requires ValidTags(tags) && i < |pieces|
      ensures var p := Pieces(env.fs, basedir, tags, pieces, i, init, level, stack, fuel);
        && (r.Err? ==> p == Err(r.error))
        && (r.Ok? ==> p == Prepend(r.value.0, Pieces(env.fs, basedir, tags, pieces, i + 1, init, r.value.1, r.value.2, fuel)))
      decreases fuel, 6
    {
      var snip := Unescape(pieces[i], tags);
      if i % 2 == 1 {
        PiecesEmbedded(env.fs, basedir, tags, pieces, i, init, level, stack, fuel);
        var e := Embedded(env, snip, init, level, stack, fuel);
        if e.Err? {
          return Err(e.error);
        }
        return Ok((e.value.0, e.value.1, []));
      }
      PiecesLiteral(env.fs, basedir, tags, pieces, i, init, level, stack, fuel);
      PrependNil(Pieces(env.fs, basedir, tags, pieces, i + 1, init, level, stack + [snip], fuel));
      return Ok(([], level, stack + [snip]));
    }

    /** One embedded piece of the parse loop: the buffered literal pieces are
        written out, then the piece's lines are parsed from the current level,
        and the level goes one deeper when its last line ends with `:`. The
        result is the code emitted and the new level, or the error that stops
        the parse. */
    method Embedded(env: Env, snip: string, init: int, level0: int, stack: seq<string>, fuel: nat)
      returns (r: Result<(seq<string>, int)>)
      ensures r == Embed(env.fs, basedir, snip, init, level0, stack, fuel)
      decreases fuel, 5
    {
      var emitted := if |stack| > 0 then [Pad(level0), WriteLit(Concat(stack))] else [];
      var codelines := Split(snip, '\n');
      var s := ParseLines(env, codelines, init, level0, fuel);
      if s.Err? {
        EmbedFails(env.fs, basedir, snip, init, level0, stack, fuel);
        return Err(s.error);
      }
      EmbedOk(env.fs, basedir, snip, init, level0, stack, fuel);
      var last := codelines[|codelines| - 1];
      var level := if EndsWith(RStrip(LStrip(last)), ":") then s.value.level + 1 else s.value.level;
      return Ok((emitted + s.value.code, level));
    }

    /** The loop over the lines of one embedded piece, with its own stack
        `offset` of widths, starting at `level0`; a line that leaves the level
        below `init` stops it. */
    method ParseLines(env: Env, codelines: seq<string>, init: int, level0: int, fuel: nat)
      returns (r: Result<Step>)
      ensures r == Lines(env.fs, basedir, codelines, 0, init, level0, [], fuel)
      decreases fuel, 4
    {
      var code: seq<string> := [];
      var offset: seq<nat> := [];
      var level := level0;
      var j := 0;
      AfterNil(Lines(env.fs, basedir, codelines, 0, init, level0, [], fuel));
      while j < |codelines|
        invariant 0 <= j <= |codelines|
        invariant Lines(env.fs, basedir, codelines, 0, init, level0, [], fuel)
               == After(code, Lines(env.fs, basedir, codelines, j, init, level, offset, fuel))
      {
        var st := ParseLine(env, codelines[j], init, level, offset, fuel);
        if st.Err? {
          return Err(st.error);
        }
        if st.value.level < init {
          return Err(IndentationTooLow(LStrip(codelines[j])));
        }
        AfterAfter(code, st.value.code, Lines(env.fs, basedir, codelines, j + 1, init, st.value.level, st.value.widths, fuel));
        code := code + st.value.code;
        level := st.value.level;
        offset := st.value.widths;
        j := j + 1;
      }
      assert code + [] == code;
      return Ok(Step(level, offset, code));
    }

    /** The body of the line loop for one line: an include line splices the
        included files' code after a newline; any other line is a step of the
        indentation tracker. */
    method ParseLine(env: Env, line: string, init: int, level0: int, offset0: seq<nat>, fuel: nat)
      returns (r: Result<Step>)
      ensures r == Line(env.fs, basedir, line, init, level0, offset0, fuel)
      decreases fuel, 3
    {
      var kind := Classify(line);
      if kind.IncludeMark? {
        var included := ParseIncludes(env, kind.files, level0, fuel);
        if included.Err? {
          return Err(included.error);
        }
        return Ok(Step(level0, offset0, ["\n"] + included.value));
      }
      r := Track(init, kind, level0, offset0);
    }

    /** What a line of any kind but an include does to the level and the
        width stack `offset`, and the code it emits. */
    static method Track(init: int, kind: LineKind, level0: int, offset0: seq<nat>) returns (r: Result<Step>)
      requires !kind.IncludeMark?
      ensures r == StepLine(init, kind, level0, offset0)
    {
      var level, offset := level0, offset0;
      var emitted: seq<string> := [];
      match kind {
        case Blank =>
        case Comment =>
        case EndMark(_) =>
          level := level - 1;
          if level > init {
            if offset == [] {
              return Err(PopFromEmpty);
            }
            offset := offset[..|offset| - 1];
          }
        case Print(expr) =>
          emitted := [Pad(level), "write(" + expr + ")\n"];
        case Continuation(text) =>
          if level < 1 {
            return Err(UnexpectedElse(text));
          }
          emitted := [Pad(level - 1), text + "\n"];
        case Statement(width, text) =>
          if offset == [] {
            offset := [width];
          } else if width > offset[|offset| - 1] {
            offset := offset + [width];
            level := level + 1;
          } else if width < offset[|offset| - 1] {
            offset := offset[..|offset| - 1];
            level := level - 1;
          }
          emitted := [Pad(level), text + "\n"];
      }
      return Ok(Step(level, offset, emitted));
    }

    /** The files of one include line: each non-empty name is parsed in turn,
        its code followed by a newline. */
    method ParseIncludes(env: Env, files: seq<string>, level: int, fuel: nat) returns (r: Result<seq<string>>)
      ensures r == Includes(env.fs, basedir, files, 0, level, fuel)
      decreases fuel, 2
    {
      var code: seq<string> := [];
      var k := 0;
      PrependNil(Includes(env.fs, basedir, files, 0, level, fuel));
      while k < |files|
        invariant 0 <= k <= |files|
        invariant Includes(env.fs, basedir, files, 0, level, fuel)
               == Prepend(code, Includes(env.fs, basedir, files, k, level, fuel))
      {
        var sub := IncludeName(env, files, k, level, fuel);
        if sub.Err? {
          return Err(sub.error);
        }
        PrependPrepend(code, sub.value, Includes(env.fs, basedir, files, k + 1, level, fuel));
        code := code + sub.value;
        k := k + 1;
      }
      assert code + [] == code;
      return Ok(code);
    }

    /** The body of the loop over the names of an include line for the `k`-th
        name: an empty name, left by a doubled space, is skipped; any other
        gives the included file's code and a newline. */
    method IncludeName(env: Env, files: seq<string>, k: nat, level: int, fuel: nat) returns (r: Result<seq<string>>)
      requires k < |files|
      ensures var rest := Includes(env.fs, basedir, files, k, level, fuel);
        && (r.Err? ==> rest == Err(r.error))
        && (r.Ok? ==> rest == Prepend(r.value, Includes(env.fs, basedir, files, k + 1, level, fuel)))
      decreases fuel, 1
    {
      if files[k] == "" {
        PrependNil(Includes(env.fs, basedir, files, k + 1, level, fuel));
        return Ok([]);
      }
      var sub := Include(env, files[k], level, fuel);
      if sub.Err? {
        return Err(sub.error);
      }
      return Ok(sub.value + ["\n"]);
    }

    /** One included file: a fresh `Template(file=…)` for the name joined to
        this template's directory, which is loaded and parsed at the current
        level with the default tags. */
    method Include(env: Env, f: string, level: int, fuel: nat) returns (r: Result<seq<string>>)
      requires f != ""
      ensures r == ParseFile(env.fs, Join(basedir, f), level, fuel)
      decreases fuel, 0
    {
      var fpath := Join(basedir, f);
      JoinNonEmpty(basedir, f);
      var made := New(env, FileOptions(fpath), cache);
      if made.Err? {
        return Err(made.error);
      }
      var child := made.value;
      var loaded := child.LoadFile(env.fs);
      if fuel == 0 {
        return Err(IncludeTooDeep);
      }
      r := child.Parse(env, level, fuel - 1);
    }

    /** `compile()`: reuse the cached code when caching is on and the entry
        was generated against the same modification time; otherwise read a
        file template's file, parse, and store the code in the shared cache
        under the key, whether caching is on or not. */
    method Compile(env: Env) returns (r: Result<()>)
      requires Valid()
      modifies this`src, this`code, cache
      ensures Valid()
      ensures Hit(caching, key, mtime, old(cache.entries)).Some? ==>
        && r == Ok(()) && code == Hit(caching, key, mtime, old(cache.entries))
        && src == old(src) && cache.entries == old(cache.entries)
      ensures Hit(caching, key, mtime, old(cache.entries)).None? ==>
        var g := Generate(env.fs, file, old(src), basedir, tags);
        && (g.Ok? ==> r == Ok(()) && code == Some(g.value)
                      && cache.entries == old(cache.entries)[key := Entry(mtime, g.value)])
        && (g.Err? ==> r == Err(g.error) && code == old(code) && cache.entries == old(cache.entries))
        && src == if Truthy(file) && file.value in env.fs then Some(env.fs[file.value].content) else old(src)
    {
      if caching && key in cache.entries && cache.entries[key].mtime == mtime {
        code := Some(cache.entries[key].code);
        return Ok(());
      }
      if Truthy(file) {
        var loaded := LoadFile(env.fs);
        if loaded.Err? {
          return Err(loaded.error);
        }
      }
      var raw := Parse(env, 0, MaxDepth);
      if raw.Err? {
        return Err(raw.error);
      }
      var generated := Concat(raw.value);
      code := Some(generated);
      cache.entries := cache.entries[key := Entry(mtime, generated)];
      return Ok(());
    }

    /** Compiling a text template a second time with the cache off gives the
        outcome and the code of the first compilation: the parse leaves the
        source as it was, so the second parse reads the same text. */
    method CompileTwice(env: Env) returns (first: Result<()>, firstCode: Option<string>, second: Result<()>)
      requires Valid() && !Truthy(file) && !caching
      modifies this`src, this`code, cache
      ensures first == second
      ensures first.Ok? ==> firstCode.Some? && code == firstCode
    {
      first := Compile(env);
      firstCode := code;
      second := Compile(env);
    }

    /** `__write`: append the string to the output buffer. */
    method Write(s: string)
      modifies this`output
      ensures output == old(output) + [s]
    {
      output := output + [s];
    }

    /** `__echo`: append the arguments joined by spaces, then a newline. */
    method Echo(args: seq<string>)
      modifies this`output
      ensures output == old(output) + [JoinWith(" ", args), "\n"]
    {
      output := output + [JoinWith(" ", args), "\n"];
    }

    /** `render(**scope)`: compile when there is no code yet, clear the buffer,
        run the code — whose `write` and `echo` calls are given as `calls` —
        and return the buffer joined. */
    method Render(env: Env, calls: seq<Call>) returns (r: Result<string>)
      requires Valid()
      modifies this`src, this`code, this`output, cache
      ensures Valid()
      ensures old(code).Some? ==> code == old(code) && src == old(src) && cache.entries == old(cache.entries)
      ensures old(code).None? && Hit(caching, key, mtime, old(cache.entries)).Some? ==>
        && code == Hit(caching, key, mtime, old(cache.entries))
        && src == old(src) && cache.entries == old(cache.entries)
      ensures old(code).None? && Hit(caching, key, mtime, old(cache.entries)).None? ==>
        var g := Generate(env.fs, file, old(src), basedir, tags);
        && (g.Ok? ==> code == Some(g.value) && cache.entries == old(cache.entries)[key := Entry(mtime, g.value)])
        && (g.Err? ==> r == Err(g.error) && code == None && cache.entries == old(cache.entries))
        && src == if Truthy(file) && file.value in env.fs then Some(env.fs[file.value].content) else old(src)
      ensures code.None? ==> r.Err? && output == old(output)
      ensures code.Some? ==> r == Ok(Concat(Effects(calls))) && output == Effects(calls)
    {
      if code.None? {
        var compiled := Compile(env);
        if compiled.Err? {
          return Err(compiled.error);
        }
      }
      output := [];
      var i := 0;
      ghost var (src1, code1, entries1) := (src, code, cache.entries);
      while i < |calls|
        invariant 0 <= i <= |calls|
        invariant output == Effects(calls[..i])
        invariant src == src1 && code == code1 && cache.entries == entries1
      {
        match calls[i] {
          case Write(s) => Write(s);
          case Echo(args) => Echo(args);
        }
        EffectsAppend(calls[..i], [calls[i]]);
        assert calls[..i + 1] == calls[..i] + [calls[i]];
        i := i + 1;
      }
      assert calls[..i] == calls;
      return Ok(Concat(output));
    }
  }
}
