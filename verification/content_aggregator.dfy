/** Reading the selected files and rendering the concatenated report. */
module ContentAggregator {
  import opened Wrappers
  import opened Sequences
  import opened Environment

  /** Width of the dash line that closes every block. */
  const SEPARATOR_WIDTH: nat := 50

  /** The dash line that closes every block. */
  const SEPARATOR: string := Repeat('-', SEPARATOR_WIDTH)

  /** What precedes the path in a block. */
  const HEADER: string := "File: "

  /** What follows the contents in a block: a blank line, the dash line and a newline. */
  const FOOTER: string := "\n\n" + SEPARATOR + "\n"

  /** A file's path text and contents, as recovered from a block. */
  datatype Block = Block(path: string, contents: string)

  /** `format_file_contents`: header line naming the path, blank line, contents, blank line, dash line. */
  function FormatBlock(path: string, contents: string): (r: string)
    ensures |r| == |path| + |contents| + 61
    ensures r[..|HEADER|] == HEADER
    ensures r[|r| - 53..|r| - 51] == "\n\n"
    ensures forall i :: |r| - 51 <= i < |r| - 1 ==> r[i] == '-'
    ensures r[|r| - 1] == '\n'
  {
    HEADER + path + "\n\n" + contents + FOOTER
  }

  /** First position at which two newlines follow each other, if any. */
  function FindBlankLine(s: string): (r: Option<nat>)
    ensures r.Some? ==> r.value + 2 <= |s| && s[r.value] == '\n' && s[r.value + 1] == '\n'
    ensures r.Some? ==> forall j :: 0 <= j < r.value ==> !(s[j] == '\n' && s[j + 1] == '\n')
    ensures r.None? ==> forall j :: 0 <= j < |s| - 1 ==> !(s[j] == '\n' && s[j + 1] == '\n')
  {
    if |s| < 2 then None
    else if s[0] == '\n' && s[1] == '\n' then Some(0)
    else
      match FindBlankLine(s[1..])
      case None => None
      case Some(i) => Some(i + 1)
  }

  /** Splits a block back into path and contents: the path ends at the first blank line after the header. */
  function ParseBlock(b: string): (r: Option<Block>)
    ensures r.Some? ==> FormatBlock(r.value.path, r.value.contents) == b
  {
    if |b| < |HEADER| + |FOOTER| || b[..|HEADER|] != HEADER || b[|b| - |FOOTER|..] != FOOTER then None
    else
      var body := b[|HEADER|..|b| - |FOOTER|];
      match FindBlankLine(body)
      case None => None
      case Some(i) =>
        assert body == body[..i] + "\n\n" + body[i + 2..];
        assert b == HEADER + body + FOOTER;
        Some(Block(body[..i], body[i + 2..]))
  }

  /** In a path without newlines followed by a blank line, the first blank line is the one right after the path. */
  lemma BlankLineAfterPath(path: string, rest: string)
    requires '\n' !in path
    ensures FindBlankLine(path + "\n\n" + rest) == Some(|path|)
  {
    var s := path + "\n\n" + rest;
    assert s[|path|] == '\n' && s[|path| + 1] == '\n';
    assert forall j :: 0 <= j < |path| ==> s[j] == path[j];
  }

  /** Round trip: a block made from a newline-free path gives back that path and the exact contents. */
  lemma ParseFormat(path: string, contents: string)
    requires '\n' !in path
    ensures ParseBlock(FormatBlock(path, contents)) == Some(Block(path, contents))
  {
    var b := FormatBlock(path, contents);
    assert |FOOTER| == 53;
    assert b[..|HEADER|] == HEADER;
    assert b[|b| - |FOOTER|..] == FOOTER;
    var body := b[|HEADER|..|b| - |FOOTER|];
    assert body == path + "\n\n" + contents;
    BlankLineAfterPath(path, contents);
    assert body[..|path|] == path;
    assert body[|path| + 2..] == contents;
  }

  /** A block names the file it was made from, whenever no path component holds a newline. */
  lemma BlockNamesItsFile(p: Path, contents: string)
    requires forall i :: 0 <= i < |p| ==> '\n' !in p[i]
    ensures ParseBlock(FormatBlock(Render(p), contents)) == Some(Block(Render(p), contents))
  {
    RenderAvoidsNewline(p);
    ParseFormat(Render(p), contents);
  }

  /** Whether a read outcome makes it into the report: read failures and empty files are skipped. */
  predicate Included(contents: Option<string>)
  {
    contents.Some? && contents.value != ""
  }

  /** The blocks of the report: one per file whose read produced non-empty text, in the files' order. */
  function Blocks(files: seq<Path>, read: Path -> Option<string>): seq<string>
  {
    if |files| == 0 then []
    else
      (if Included(read(files[0])) then [FormatBlock(Render(files[0]), read(files[0]).value)] else [])
      + Blocks(files[1..], read)
  }

  /** The concatenated report: the blocks joined by single newlines. */
  function Report(files: seq<Path>, read: Path -> Option<string>): string
  {
    Join("\n", Blocks(files, read))
  }

  /** The report of a single file that read as non-empty text is that file's block alone. */
  lemma SingleFileReport(p: Path, read: Path -> Option<string>)
    requires Included(read(p))
    ensures Report([p], read) == FormatBlock(Render(p), read(p).value)
  {
    assert [p][1..] == [];
    assert Blocks([p], read) == [FormatBlock(Render(p), read(p).value)] + Blocks([], read);
  }

  /** Blocks of consecutive runs of files are the blocks of each run, in order. */
  lemma {:induction false} BlocksAppend(a: seq<Path>, b: seq<Path>, read: Path -> Option<string>)
    ensures Blocks(a + b, read) == Blocks(a, read) + Blocks(b, read)
    decreases |a|
  {
    if |a| == 0 {
      assert a + b == b;
    } else {
      assert (a + b)[1..] == a[1..] + b;
      BlocksAppend(a[1..], b, read);
    }
  }

  /** A string is a block of the report exactly when it formats some included file of the list. */
  lemma {:induction false} BlocksMembers(files: seq<Path>, read: Path -> Option<string>)
    ensures forall s :: s in Blocks(files, read) <==>
      exists i :: 0 <= i < |files| && Included(read(files[i]))
                  && s == FormatBlock(Render(files[i]), read(files[i]).value)
    decreases |files|
  {
    if |files| > 0 {
      BlocksMembers(files[1..], read);
      forall s | s in Blocks(files[1..], read)
        ensures exists i :: 0 <= i < |files| && Included(read(files[i]))
                            && s == FormatBlock(Render(files[i]), read(files[i]).value)
      {
        var j :| 0 <= j < |files| - 1 && Included(read(files[1..][j]))
                 && s == FormatBlock(Render(files[1..][j]), read(files[1..][j]).value);
        assert files[1..][j] == files[j + 1];
      }
      forall s | exists i :: 0 <= i < |files| && Included(read(files[i]))
                             && s == FormatBlock(Render(files[i]), read(files[i]).value)
        ensures s in Blocks(files, read)
      {
        var i :| 0 <= i < |files| && Included(read(files[i]))
                 && s == FormatBlock(Render(files[i]), read(files[i]).value);
        if i > 0 {
          assert files[i] == files[1..][i - 1];
        }
      }
    }
  }

  /** No block is produced exactly when no file produced non-empty text. */
  lemma {:induction false} BlocksEmptyIff(files: seq<Path>, read: Path -> Option<string>)
    ensures Blocks(files, read) == [] <==> forall i :: 0 <= i < |files| ==> !Included(read(files[i]))
    decreases |files|
  {
    if |files| > 0 {
      BlocksEmptyIff(files[1..], read);
      assert forall i :: 0 < i < |files| ==> files[i] == files[1..][i - 1];
    }
  }

  /** The report is empty exactly when no file produced non-empty text. */
  lemma ReportEmptyIff(files: seq<Path>, read: Path -> Option<string>)
    ensures Report(files, read) == "" <==> forall i :: 0 <= i < |files| ==> !Included(read(files[i]))
  {
    var blocks := Blocks(files, read);
    BlocksEmptyIff(files, read);
    if |blocks| > 0 {
      BlocksMembers(files, read);
      assert blocks[0] in blocks;
      assert |blocks[0]| >= 61;
      assert blocks[0] <= Join("\n", blocks);
    }
  }

  /**
   * The reading and formatting part of `main`: reads every file into a table keyed by path,
   * then formats, in list order, each file whose read gave non-empty text, and joins the blocks.
   */
  method Aggregate(files: seq<Path>, read: Path -> Option<string>) returns (report: string)
    ensures report == Report(files, read)
  {
    var contents: map<Path, Option<string>> := map[];
    for i := 0 to |files|
      invariant forall k :: 0 <= k < i ==> files[k] in contents
      invariant forall f :: f in contents ==> contents[f] == read(f)
    {
      contents := contents[files[i] := read(files[i])];
    }
    var formatted: seq<string> := [];
    for i := 0 to |files|
      invariant formatted == Blocks(files[..i], read)
    {
      var file := files[i];
      assert files[..i + 1] == files[..i] + [file];
      BlocksAppend(files[..i], [file], read);
      var text := contents[file];
      if Included(text) {
        formatted := formatted + [FormatBlock(Render(file), text.value)];
      }
    }
    assert files[..|files|] == files;
    report := Join("\n", formatted);
  }
}
