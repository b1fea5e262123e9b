/** The two `os.path` operations (POSIX flavour) that decide where an included
    template is looked up: `join` and `dirname`. */
module Paths {
  import opened Text

  /** A file as the engine sees it: its text and its modification time. */
  datatype File = File(content: string, mtime: int)

  /** The file system, from path to file; a path absent from the map does not
      exist. */
  type FileSystem = map<string, File>

  /** Index of the last `ch` in `s`, or -1 (`str.rfind`). */
  function RFind(s: string, ch: char): (r: int)
    ensures -1 <= r < |s|
    ensures r >= 0 ==> s[r] == ch
    ensures forall k :: r < k < |s| ==> s[k] != ch
  {
    if s == [] then -1
    else if s[|s| - 1] == ch then |s| - 1
    else RFind(s[..|s| - 1], ch)
  }

  /** `s.rstrip(ch)` for one character. */
  function RStripChar(s: string, ch: char): (r: string)
    ensures |r| <= |s| && r == s[..|r|]
    ensures forall k :: |r| <= k < |s| ==> s[k] == ch
    ensures r != [] ==> r[|r| - 1] != ch
  {
    if s != [] && s[|s| - 1] == ch then RStripChar(s[..|s| - 1], ch) else s
  }

  predicate AllSlashes(s: string)
  {
    forall k :: 0 <= k < |s| ==> s[k] == '/'
  }

  /** `posixpath.join(a, b)` */
  function Join(a: string, b: string): string
  {
    if StartsWith(b, "/") then b
    else if a == "" || EndsWith(a, "/") then a + b
    else a + "/" + b
  }

  /** Joining a non-empty name never gives the empty path. */
  lemma JoinNonEmpty(a: string, b: string)
    requires b != ""
    ensures Join(a, b) != "" && |Join(a, b)| >= |b|
  {
  }

  /** `posixpath.dirname(p)`: everything before the last slash, without
      trailing slashes unless it consists of slashes only. */
  function DirName(p: string): string
  {
    var head := p[..RFind(p, '/') + 1];
    if head != "" && !AllSlashes(head) then RStripChar(head, '/') else head
  }

  /** A file named without any slash, looked up in a directory given without a
      trailing slash, lives in that very directory: the directory its own
      includes are resolved against is the includer's. */
  lemma IncludedFileDirectory(dir: string, name: string)
    requires name != [] && '/' !in name
    requires dir == "" || dir[|dir| - 1] != '/'
    ensures DirName(Join(dir, name)) == dir
  {
    var p := Join(dir, name);
    assert !StartsWith(name, "/") by {
      assert name[0] in name;
    }
    if dir == "" {
      assert p == name;
      assert RFind(p, '/') == -1;
    } else {
      assert p == dir + "/" + name;
      var i := RFind(p, '/');
      assert p[|dir|] == '/';
      assert forall k :: |dir| < k < |p| ==> p[k] == name[k - |dir| - 1];
      assert i == |dir|;
      var head := p[..|dir| + 1];
      assert head == dir + "/";
      assert !AllSlashes(head) by {
        assert head[|dir| - 1] != '/';
      }
      var r := RStripChar(head, '/');
      assert head[|dir|] == '/' && head[|dir| - 1] != '/';
      assert r == head[..|dir|] == dir;
    }
  }
}
