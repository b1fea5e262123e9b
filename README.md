# MiniTemple in Dafny

MiniTemple turns a template into Python code. A template is text with embedded
pieces between two tags, `<%` and `%>` by default. Running the generated code
against a scope writes the rendered text into an output buffer.

This project models the `Template` class of `MiniTemple/__init__.py`:

- the constructor's checks;
- reading a file template;
- `compile()` and the class-wide cache of generated code, keyed by file name or
  text hash and checked against the file's modification time;
- the transpiler `__parse`:
  - hiding backslash-escaped tags;
  - the non-greedy split at `open(.*?)close`;
  - buffering literal pieces into `write("""…""")` lines;
  - the indentation tracker over each embedded piece: the stack of
    leading-whitespace widths, `#end`, `else`/`elif`, `=expr`, comments, and
    the "indentation too low" check;
  - the extra level after a piece whose last line ends with `:`;
  - recursive `#include` of other files at the current level;
- the output buffer (`write`, `echo`) and `render`.

Layout:

- `results.dfy`: the errors the class raises, as values.
- `text.dfy`: the Python string operations the source relies on. These are
  `lstrip`/`rstrip` over `isspace`, the leftmost non-overlapping
  `str.replace`, `split` on one character, `join`, and `n * '    '`.
- `paths.dfy`: the file system, `posixpath.join` and `posixpath.dirname`.
- `scanner.dfy`: escaping and the split at the tags.
- `indentation.dfy`: how one line is classified, and what it does to the level
  and the width stack.
- `transpiler.dfy`: what `__parse` returns, written as functions, with the
  lemmas about it.
- `template.dfy`: the `Template` class with the loops of `__parse`,
  `compile()` and `render()`, each method proved to compute the function
  that specifies it. It also holds the `Cache` class shared by all templates.
- `reescape.dfy`: the parse as written, which stores the escaped source back
  into the template (see Findings).

Some behaviours of the code are easy to misread; the model follows the code:

- An open tag with no close tag after it is literal text, not an error.
- A literal piece is put between triple quotes as it is. The two `replace`
  calls on it throw their results away, so quotes and backslashes are not
  escaped.
- Every literal piece, the empty one included, is buffered. An embedded piece
  at the very start of a template is therefore preceded by `write("""""")`.
- The extra level after a piece is decided by its last line, even a blank
  one, not by its last non-blank line.
- Invalid tags make `__init__` return a `ValueError` instead of raising it.
  Python then raises a `TypeError` (`InitTypeError`).
- An included file is always parsed with the default tags, and its includes
  are resolved against its own directory.

## Model

| member | source | states |
|---|---|---|
| MiniTemple.Configure | MiniTemple/__init__.py:38-62 | construction succeeds iff both tags have two or more characters and no backslash, and there is a non-empty file name (of an existing file) or a non-empty text; each error names its cause; a file template gets its directory, its name as key and its mtime; a text template gets the working directory, the hash of the text as key, no mtime, and the text as source |
| MiniTemple.Template.New | MiniTemple/__init__.py:16-62 | fails exactly when `Configure` fails, with its error; otherwise a fresh valid template holding the options and the derived setup, with no code and an empty buffer |
| MiniTemple.Template.LoadFile | MiniTemple/__init__.py:64-72 | no file name gives `NoFileName`; a missing file gives `FileNotFound`; otherwise the source becomes the file's content; on error the source is unchanged |
| MiniTemple.Template.Compile | MiniTemple/__init__.py:75-102 | a cache hit (caching on, key present, same mtime) takes the cached code and changes nothing else; otherwise a file template is re-read and parsed from level 0, the code is the joined lines, and the cache entry for the key is overwritten even when caching is off; errors leave code and cache unchanged |
| MiniTemple.Template.CompileTwice | MiniTemple/__init__.py:89-98 | with caching off, compiling a text template twice gives the same outcome and the same code both times |
| MiniTemple.Template.Parse | MiniTemple/__init__.py:104-197 | the loop over the pieces returns exactly `Transpile` of the source, tags, base directory and starting level |
| MiniTemple.Template.ParsePiece | MiniTemple/__init__.py:122-191 | one iteration over the pieces: a literal piece is buffered and emits nothing; an embedded piece emits the buffer and its lines and empties the buffer; an error ends the parse with that error |
| MiniTemple.Template.Embedded | MiniTemple/__init__.py:125-186 | an embedded piece emits the buffered literal line, then its lines split at newlines, and is one level deeper afterwards when its last line ends with `:` |
| MiniTemple.Template.ParseLines | MiniTemple/__init__.py:131-183 | the loop over the lines of a piece, with a width stack starting empty, equals `Lines`; a line leaving the level below the starting level fails with `IndentationTooLow` |
| MiniTemple.Template.ParseLine | MiniTemple/__init__.py:134-178 | an include line emits a newline and the included code, leaving the level alone; any other line is one step of the tracker |
| MiniTemple.Template.Track | MiniTemple/__init__.py:135-178 | the if-chain over the kinds of a non-include line computes `StepLine` |
| MiniTemple.Template.ParseIncludes | MiniTemple/__init__.py:143-153 | the loop over the names of an include line equals `Includes`: each non-empty name gives its file's code followed by a newline, and the first error stops it |
| MiniTemple.Template.IncludeName | MiniTemple/__init__.py:147-153 | an empty name emits nothing; any other name emits the included file's code and a newline, or fails with that file's error |
| MiniTemple.Template.Include | MiniTemple/__init__.py:148-152 | a fresh file template for the name joined to the base directory is loaded and parsed at the current level, which is `ParseFile` of the joined path; a missing file fails with `FileNotFound` and a spent depth bound with `IncludeTooDeep` |
| MiniTemple.Template.Write | MiniTemple/__init__.py:207-211 | the buffer gains exactly the string |
| MiniTemple.Template.Echo | MiniTemple/__init__.py:199-205 | the buffer gains the arguments joined by single spaces, then a newline |
| MiniTemple.Template.Render | MiniTemple/__init__.py:213-226 | compiles first when there is no code (and fails like the compile); existing code, source and cache are kept; the buffer is cleared, then holds exactly the effects of the calls the code makes, and the result is their concatenation |
| MiniTemple.EffectsAppend | MiniTemple/__init__.py:221-226 | the output of a run is the output of its first calls followed by the output of the rest |
| MiniTemple.EchoLine | MiniTemple/__init__.py:199-205 | an echo of arguments without newlines writes exactly one line, ending with its only newline |
| Scanner.Interleave | MiniTemple/__init__.py:119-120 | the hidden form of a tag has the tag's characters at even positions and backslashes between them |
| Scanner.FindFrom | MiniTemple/__init__.py:112-115 | the result is the leftmost occurrence at or after the start, and none means no occurrence there |
| Scanner.NextTag | MiniTemple/__init__.py:112-115 | the first match is the first open tag and the first close tag after it, with no open tag before it and no close tag inside; none means no open tag is ever closed |
| Scanner.SplitTags | MiniTemple/__init__.py:112-122 | the split has an odd number of pieces, and putting the tags back between them gives the text back |
| Scanner.SplitTagsAt | MiniTemple/__init__.py:112-122 | when the first open tag is at `p` and the first close tag after it at `q`, the split is the text before `p`, the text between, and the split of the rest |
| Scanner.SplitTagsEmbedded | MiniTemple/__init__.py:112-115 | the match is non-greedy: no embedded piece contains the close tag |
| Scanner.SplitTagsLiteral | MiniTemple/__init__.py:112-122 | no literal piece but the last contains the open tag |
| Scanner.SplitTagsLastUnterminated | MiniTemple/__init__.py:112-122 | the last literal piece has no open tag followed by a close tag, so it can hold an unclosed open tag |
| Scanner.SplitTagsNoOpen | MiniTemple/__init__.py:112-122 | a text without an open tag is one literal piece |
| Scanner.UnclosedIsLiteral | MiniTemple/__init__.py:112-122 | a text without a close tag is one literal piece, even when it holds open tags |
| Scanner.EscapeWithoutBackslash | MiniTemple/__init__.py:119-120 | hiding changes nothing in a text without a backslash |
| Scanner.UnescapeWithoutBackslash | MiniTemple/__init__.py:123-124 | restoring changes nothing in a piece without a backslash |
| Indentation.BlankIffWhitespace | MiniTemple/__init__.py:135-137 | a line is classified blank exactly when it holds only whitespace |
| Indentation.ClassifyStatement | MiniTemple/__init__.py:167-178 | a statement line is its leading whitespace, whose length is the width compared, followed by the emitted text, which starts with a non-space |
| Indentation.StatementRule | MiniTemple/__init__.py:167-178 | a statement line never fails: the first line records its width; a wider line pushes and opens a level; a narrower one pops once and closes a level; an equal width changes nothing; the line is emitted at the new level; with a non-empty stack the level moves as the stack does |
| Indentation.StepKeepsInvariant | MiniTemple/__init__.py:135-178 | one line moves the level by at most one and keeps the widths strictly increasing |
| Indentation.ClassifyEnd | MiniTemple/__init__.py:139 | a line reading `#end` once stripped is an end mark |
| Indentation.EndRule | MiniTemple/__init__.py:139-142 | `#end` closes a level and emits nothing; it pops only while the new level is above the starting one, and fails exactly when that pop meets an empty stack |
| Indentation.RecogniseInclude | MiniTemple/__init__.py:143-145 | a stripped line starting with `#include` is an include line naming the words after the first space |
| Indentation.PrintRule | MiniTemple/__init__.py:154-156 | `=expr` emits `write(expr)` at the current level and changes nothing else |
| Indentation.ClassifyContinuation | MiniTemple/__init__.py:158-159 | a line starting with `else` or `elif` whose stripped text ends with `:` is a continuation |
| Indentation.ContinuationRule | MiniTemple/__init__.py:158-165 | a continuation is emitted one level shallower and keeps the state; it fails exactly at a level below 1 |
| Indentation.SilentRule | MiniTemple/__init__.py:136-143 | blank lines and comments other than `#end` and `#include` emit nothing and keep the state |
| Transpiler.PiecesLiteral | MiniTemple/__init__.py:188-191 | a literal piece, tags given back, joins the buffer |
| Transpiler.PiecesEmbedded | MiniTemple/__init__.py:125-186 | an embedded piece emits the buffer and its lines, then the parse goes on from the new level with an empty buffer; its error is the parse's error |
| Transpiler.LinesFloor | MiniTemple/__init__.py:180-183 | once a piece's lines succeed, the level is never below the starting level |
| Transpiler.TooLow | MiniTemple/__init__.py:180-183 | the first line that leaves the level below the starting level stops the piece with `IndentationTooLow` naming that line, left-stripped |
| Transpiler.LinesKeepIncreasing | MiniTemple/__init__.py:167-175 | the width stack of a piece always holds strictly increasing widths |
| Transpiler.BumpAfterNewline | MiniTemple/__init__.py:185-186 | a piece ending with a newline never raises the level, whatever its last statement ends with |
| Transpiler.FlushOne | MiniTemple/__init__.py:193-195 | one buffered piece is written as one `write("""…""")` of that piece |
| Transpiler.OnePiece | MiniTemple/__init__.py:188-197 | a text cut into one piece gives one `write("""…""")` of it, tags given back, at the starting level |
| Transpiler.LiteralOnly | MiniTemple/__init__.py:104-197 | a template with no backslash and no open tag gives exactly one `write("""…""")` of the whole text, unchanged |
| Transpiler.EscapedOpenTag | MiniTemple/__init__.py:119-124 | with the default tags and no close tag after it, `\<%` between plain texts is written out as `<%`: the backslash is removed |
| Transpiler.EscapedOpenBeforeClose | MiniTemple/__init__.py:119-124 | with the default tags, `\<%` followed later by a close tag opens no embedded piece: a `\<%` b `%>` c, for plain a, b, c, is written out whole as a `<%` b `%>` c |
| Transpiler.EscapedCloseTag | MiniTemple/__init__.py:119-124 | with the default tags and no open tag before it, `\%>` between plain texts is written out as `%>`: the backslash is removed |
| Transpiler.EscapedCloseInside | MiniTemple/__init__.py:119-124 | with the default tags, `\%>` inside an embedded piece does not end it: `<%` a `\%>` b `%>` c, for plain a, b, c, is cut into the embedded piece a `%\>` b and the literal c, and the piece's text given back is a `%>` b |
| Transpiler.EscapedOpenBeforeGreater | MiniTemple/__init__.py:119-124 | an escaped open tag followed by `>` does open an embedded piece: for any text `x` without backslashes or tag characters, `\<%>` x `%>` is cut as the embedded piece `\>` x, which keeps its backslash |
| Transpiler.IncludeFails | MiniTemple/__init__.py:147-152 | when every earlier name on the include line is empty or parses, an error in the file of any later name is the include line's error |
| Transpiler.FirstLineFails | MiniTemple/__init__.py:134-183 | an error on a piece's first line is the piece's error |
| Transpiler.EmbedFails | MiniTemple/__init__.py:131-183 | an error on a line of a piece stops the piece with that error |
| Transpiler.FirstPieceFails | MiniTemple/__init__.py:122-183 | for any split with at least one embedded piece, an error in the first embedded piece is the parse's error, whatever follows it |
| Transpiler.SelfIncludeNeverEnds | MiniTemple/__init__.py:143-152 | a file in the base directory, with a plain name, whose whole content is an include of itself fails with `IncludeTooDeep` at every depth |
| Paths.IncludedFileDirectory | MiniTemple/__init__.py:149-150 | a name without a slash joined to a directory lies in that directory, so an included file resolves its own includes where its includer does |
| Paths.JoinNonEmpty | MiniTemple/__init__.py:148-150 | joining a non-empty name never gives an empty path, so the included template always has a file name |
| Text.LStrip | MiniTemple/__init__.py:135 | the result is a suffix of the line and starts with a non-space |
| Text.RStrip | MiniTemple/__init__.py:136 | the result is a prefix of the text and ends with a non-space |
| Text.StripBlank | MiniTemple/__init__.py:136 | stripping both sides gives the empty string exactly when the line is whitespace only |
| Text.SplitJoin | MiniTemple/__init__.py:131 | the lines of a piece hold no newline, and joining them with newlines gives the piece back |
| Text.ReplaceOnce | MiniTemple/__init__.py:119-124 | a pattern whose only occurrence is the one between `a` and `b` is replaced there and nowhere else |
| Text.ConcatAppend | MiniTemple/__init__.py:96 | joining two lists of lines is joining each and concatenating |
| Text.Pad | MiniTemple/__init__.py:127 | the indentation is four spaces per level, and nothing at a level of zero or below |
| Reescape.ParseTwiceDiffers | MiniTemple/__init__.py:119-120 | as written, the parse stores the escaped text back. Parsing `\<\%>` gives `write("""\<%>""")`; parsing the stored text again gives `write("""<%>""")`, which is different |

## Left out

- Running the generated code (`compile(…, 'exec')` and `exec`) is not
  modelled. The code is the generated string, so a `SyntaxError` in it is not
  modelled either.
- MiniTemple.Template.Render: the `write` and `echo` calls the code makes are
  taken as a parameter, with their arguments already turned into strings by
  `str()`; scope injection is not modelled.
- MiniTemple.Configure: `os.getcwd()` and `hash()` come from the environment,
  and the file's modification time comes from the file record. `os.path.abspath`
  is not modelled, so a file is read under the path as given.
- MiniTemple.Template.Include: Python's recursion limit is a depth bound
  (`MaxDepth`, about 1000 nested includes), reported as `IncludeTooDeep`. Templates nested
  deeper than the bound allows are not modelled.
- The debug printing to standard error, the `debug` option, the module-level
  `compile_file`, `render_file`, `compile_text` and `render_text` helpers and the command-line entry point are
  not modelled: they only print or forward to the class.
- Scanner.Escape: an escaped open tag followed by the close tag's last
  character can form an unescaped open tag (`Transpiler.EscapedOpenBeforeGreater`).
  The model keeps this as the source does. The escaping lemmas are therefore
  proved for texts whose parts between the tags hold no tag characters: an
  escaped tag alone, an escaped open tag before a close tag
  (`Transpiler.EscapedOpenBeforeClose`) and an escaped close tag inside an
  embedded piece (`Transpiler.EscapedCloseInside`).
- MiniTemple.Template.Compile: the parse as written stores the escaped text
  back into the template's source (MiniTemple/__init__.py:119). `Compile` and
  `Parse` leave the source as it was, also after a parse error; the as-written
  behaviour is modelled separately by `Reescape.ParseAsWritten` (see Findings).
- Transpiler.SelfIncludeNeverEnds: only a plain-named file in the base
  directory whose whole content is `<%#include name%>` is covered. Cycles
  through several files, or self-includes among other text, are not proved.
- Reescape.ParseAsWritten has no contract of its own. It exists only to
  exhibit the write-back, which `Reescape.ParseTwiceDiffers` states.

## Findings

| source | as written | input that shows it | evidently intended | confidence | as-written member | corrected member |
|---|---|---|---|---|---|---|
| MiniTemple/__init__.py:119-120 | `__parse` assigns the escaped text back to the template's source, so every compile that misses the cache escapes the source once more | the text template `\<\%>` with caching off, compiled twice: the first code writes `\<%>`, the second writes `<%>` | the parse leaves the source alone, so recompiling gives the same code | not executed | Reescape.ParseTwiceDiffers | MiniTemple.Template.CompileTwice |
