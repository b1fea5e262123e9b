/** `__parse` stores the escaped source back into the template before it cuts
    it (MiniTemple/__init__.py:119-120), so a second parse of the same
    template starts from text that is escaped already. A text template is
    parsed again whenever it is compiled again without a cache hit, which is
    every time when caching is off. Escaping is not idempotent, so the second
    code can differ from the first. `MiniTemple.Template.Parse` leaves the
    source as it was; this module shows what writing it back does. */
module Reescape {
  import opened Results
  import opened Text
  import opened Paths
  import opened Scanner
  import opened Transpiler

  /** `__parse` as written: the code it returns, and the source the template
      holds afterwards, which is the escaped one whatever the outcome. */
  function ParseAsWritten(fs: FileSystem, basedir: string, t: Tags, src: string, init: int, fuel: nat)
    : (r: (Result<seq<string>>, string))
    requires ValidTags(t)
  {
    (Transpile(fs, basedir, t, src, init, fuel), Escape(src, t))
  }

  /** The text `\<\%>`: an escaped open tag with an escaped close tag that
      shares its `%`. */
  const Sample: string := "\\<\\%>"

  /** The first parse prints `\<%>`, the second `<%>`: two compilations of one
      template give two different programs. */
  lemma ParseTwiceDiffers(fs: FileSystem, basedir: string, init: int, fuel: nat)
    ensures var first := ParseAsWritten(fs, basedir, DefaultTags, Sample, init, fuel);
      var second := ParseAsWritten(fs, basedir, DefaultTags, first.1, init, fuel);
      && first.0 == Ok([Pad(init), WriteLit("\\<%>")])
      && second.0 == Ok([Pad(init), WriteLit("<%>")])
      && first.0 != second.0
  {
    FirstParse(fs, basedir, init, fuel);
    SecondParse(fs, basedir, init, fuel);
    assert |WriteLit("\\<%>")| != |WriteLit("<%>")|;
  }

  lemma FirstParse(fs: FileSystem, basedir: string, init: int, fuel: nat)
    ensures ParseAsWritten(fs, basedir, DefaultTags, Sample, init, fuel)
         == (Ok([Pad(init), WriteLit("\\<%>")]), "\\<%\\>")
  {
    EscapeFirst();
    UnclosedFirst();
    UnescapeFirst();
    OnePiece(fs, basedir, DefaultTags, Sample, "\\<%\\>", init, fuel);
  }

  lemma SecondParse(fs: FileSystem, basedir: string, init: int, fuel: nat)
    ensures ParseAsWritten(fs, basedir, DefaultTags, "\\<%\\>", init, fuel).0
         == Ok([Pad(init), WriteLit("<%>")])
  {
    EscapeSecond();
    NoOpenSecond();
    SplitTagsNoOpen("<\\%\\>", DefaultTags);
    UnescapeSecond();
    OnePiece(fs, basedir, DefaultTags, "\\<%\\>", "<\\%\\>", init, fuel);
  }

  lemma DefaultPatterns()
    ensures Interleave("<%") == "<\\%" && Interleave("%>") == "%\\>"
    ensures ['\\'] + DefaultTags.open == "\\<%" && ['\\'] + DefaultTags.close == "\\%>"
  {
  }

  /** First escape: no `\<%` in the sample, and its `\%>` is hidden. */
  lemma EscapeFirst()
    ensures Escape(Sample, DefaultTags) == "\\<%\\>"
  {
    DefaultPatterns();
    KeepOpenFirst();
    HideCloseFirst();
  }

  lemma KeepOpenFirst()
    ensures Replace("\\<\\%>", "\\<%", "<\\%") == "\\<\\%>"
  {
    var s := "\\<\\%>";
    MismatchAt(s, "\\<%", 0, 2);
    MismatchAt(s, "\\<%", 1, 0);
    MismatchAt(s, "\\<%", 2, 1);
    ReplaceAbsent(s, "\\<%", "<\\%");
  }

  lemma HideCloseFirst()
    ensures Replace("\\<\\%>", "\\%>", "%\\>") == "\\<%\\>"
  {
    SkipFirst();
    HideOnlyClose();
    assert "\\<" + "%\\>" == "\\<%\\>";
  }

  /** No escaped close tag starts in the first two characters of the sample. */
  lemma SkipFirst()
    ensures Replace("\\<\\%>", "\\%>", "%\\>") == "\\<" + Replace("\\%>", "\\%>", "%\\>")
  {
    var s := "\\<\\%>";
    assert s == "\\<" + "\\%>";
    MismatchAt(s, "\\%>", 0, 1);
    MismatchAt(s, "\\%>", 1, 0);
    ReplaceSkipsPrefix("\\<", "\\%>", "\\%>", "%\\>");
  }

  lemma HideOnlyClose()
    ensures Replace("\\%>", "\\%>", "%\\>") == "%\\>"
  {
    ReplaceOnce("", "\\%>", "", "%\\>");
    assert "" + "\\%>" + "" == "\\%>";
    assert "" + "%\\>" + "" == "%\\>";
  }

  /** The escaped sample holds an open tag but no close tag after it. */
  lemma UnclosedFirst()
    ensures SplitTags("\\<%\\>", DefaultTags) == ["\\<%\\>"]
  {
    var e := "\\<%\\>";
    MismatchAt(e, "%>", 0, 0);
    MismatchAt(e, "%>", 1, 0);
    MismatchAt(e, "%>", 2, 1);
    MismatchAt(e, "%>", 3, 0);
    UnclosedIsLiteral(e, DefaultTags);
  }

  lemma UnescapeFirst()
    ensures Unescape("\\<%\\>", DefaultTags) == "\\<%>"
  {
    DefaultPatterns();
    NoHiddenOpenFirst();
    ReplaceOnce("\\<", "%\\>", "", "%>");
    assert "\\<" + "%\\>" + "" == "\\<%\\>";
    assert "\\<" + "%>" + "" == "\\<%>";
  }

  lemma NoHiddenOpenFirst()
    ensures Replace("\\<%\\>", "<\\%", "<%") == "\\<%\\>"
  {
    var e := "\\<%\\>";
    MismatchAt(e, "<\\%", 0, 0);
    MismatchAt(e, "<\\%", 1, 1);
    MismatchAt(e, "<\\%", 2, 0);
    ReplaceAbsent(e, "<\\%", "<%");
  }

  /** Second escape: the stored text now starts with `\<%`, which is hidden. */
  lemma EscapeSecond()
    ensures Escape("\\<%\\>", DefaultTags) == "<\\%\\>"
  {
    DefaultPatterns();
    AbsentChar("\\>", "\\<%", 1);
    ReplaceOnce("", "\\<%", "\\>", "<\\%");
    assert "" + "\\<%" + "\\>" == "\\<%\\>";
    assert "" + "<\\%" + "\\>" == "<\\%\\>";
    var e := "<\\%\\>";
    MismatchAt(e, "\\%>", 0, 0);
    MismatchAt(e, "\\%>", 1, 2);
    MismatchAt(e, "\\%>", 2, 0);
    ReplaceAbsent(e, "\\%>", "%\\>");
  }

  lemma NoOpenSecond()
    ensures !Occurs("<%", "<\\%\\>")
  {
    var e := "<\\%\\>";
    MismatchAt(e, "<%", 0, 1);
    MismatchAt(e, "<%", 1, 0);
    MismatchAt(e, "<%", 2, 0);
    MismatchAt(e, "<%", 3, 0);
  }

  lemma UnescapeSecond()
    ensures Unescape("<\\%\\>", DefaultTags) == "<%>"
  {
    DefaultPatterns();
    AbsentChar("\\>", "<\\%", 0);
    ReplaceOnce("", "<\\%", "\\>", "<%");
    assert "" + "<\\%" + "\\>" == "<\\%\\>";
    assert "" + "<%" + "\\>" == "<%\\>";
    ReplaceOnce("<", "%\\>", "", "%>");
    assert "<" + "%\\>" + "" == "<%\\>";
    assert "<" + "%>" + "" == "<%>";
  }
}
