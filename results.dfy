/** Failure values of the template engine, one constructor per exception the
    Python implementation raises (or lets escape) on the paths modelled here. */
module Results {

  datatype Option<+T> = None | Some(value: T)

  datatype Error =
      /** `__init__` returned (instead of raising) a ValueError about the tags;
          Python then fails the construction with a TypeError. The field holds
          the ValueError's message. */
    | InitTypeError(message: string)
      /** Neither a truthy `file` nor a truthy `text` option (AttributeError). */
    | NoSource
      /** `__load_file` on a template without a file name (ValueError). */
    | NoFileName
      /** `os.path.getmtime` or `open` on a path that does not exist (OSError). */
    | FileNotFound(path: string)
      /** A line left the level below the piece's starting level (IndentationError). */
    | IndentationTooLow(snippet: string)
      /** `else`/`elif` with no enclosing block (SyntaxError). */
    | UnexpectedElse(snippet: string)
      /** `#end` popped the empty width stack (IndexError). */
    | PopFromEmpty
      /** Includes nested deeper than the interpreter's recursion limit (RecursionError). */
    | IncludeTooDeep

  datatype Result<+T> = Ok(value: T) | Err(error: Error)
}
