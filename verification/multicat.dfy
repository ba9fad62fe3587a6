/** The command's top level: walk, re-check, read, format and deliver the report. */
module Multicat {
  import opened Wrappers
  import opened Sequences
  import opened Environment
  import opened PathFilter
  import opened FileClassifier
  import opened TreeWalker
  import opened ContentAggregator

  /** Where the report goes: standard output, or the clipboard with `--copy`. */
  datatype Sink = Stdout | Clipboard

  /** How a run ends. */
  datatype Outcome =
    | Failed(code: int)                       // the root is missing or not a directory
    | NoTextFiles                             // nothing to report; informational message only
    | Delivered(report: string, sink: Sink)   // the report was handed to the sink

  /** The process exit status of a run. */
  function ExitCode(o: Outcome): int
  {
    if o.Failed? then o.code else 0
  }

  /** The comprehension in `main` that keeps the listed files `is_text_file` still calls text. */
  function TextOnly(host: Host, files: seq<Path>): seq<Path>
  {
    if |files| == 0 then []
    else
      (if Classify(host, files[0]) == Some(true) then [files[0]] else [])
      + TextOnly(host, files[1..])
  }

  /** Re-checking the walker's output with the classifier leaves it unchanged. */
  lemma {:induction false} RefilterIdempotent(root: Path, host: Host, maxDepth: Option<int>, visited: seq<Path>)
    ensures TextOnly(host, Select(root, host, maxDepth, visited)) == Select(root, host, maxDepth, visited)
    decreases |visited|
  {
    if |visited| > 0 {
      var rest := Select(root, host, maxDepth, visited[1..]);
      RefilterIdempotent(root, host, maxDepth, visited[1..]);
      if Accepts(root, host, maxDepth, visited[0]) {
        assert ([visited[0]] + rest)[1..] == rest;
      } else {
        assert Select(root, host, maxDepth, visited) == rest;
      }
    }
  }

  /**
   * `main`: an invalid root ends the run with status 1; an empty file list ends it with
   * status 0 and no report; otherwise the report of the walker's files goes to the sink.
   */
  method Run(t: Tree, host: Host, maxDepth: Option<int>, copy: bool) returns (o: Outcome)
    ensures o.Failed? <==> !t.ValidRoot()
    ensures ExitCode(o) == (if t.ValidRoot() then 0 else 1)
    ensures o.NoTextFiles? <==> t.ValidRoot() && Select(t.root, host, maxDepth, t.walk) == []
    ensures o.Delivered? ==> o.report == Report(Select(t.root, host, maxDepth, t.walk), host.readText)
    ensures o.Delivered? ==> o.sink == (if copy then Clipboard else Stdout)
  {
    var listed := ListTextFiles(t, host, maxDepth);
    if listed.Failure? {
      return Failed(listed.error);
    }
    var textFiles := TextOnly(host, listed.value);
    RefilterIdempotent(t.root, host, maxDepth, t.walk);
    if |textFiles| == 0 {
      return NoTextFiles;
    }
    var report := Aggregate(textFiles, host.readText);
    o := Delivered(report, if copy then Clipboard else Stdout);
  }

  /** When every selected file fails to read or is empty, a run still delivers, and what it delivers is empty. */
  lemma UnreadableFilesGiveEmptyReport(t: Tree, host: Host, maxDepth: Option<int>)
    requires forall p :: p in t.walk ==> !Included(host.readText(p))
    ensures Report(Select(t.root, host, maxDepth, t.walk), host.readText) == ""
  {
    var files := Select(t.root, host, maxDepth, t.walk);
    SelectMembers(t.root, host, maxDepth, t.walk);
    assert forall i :: 0 <= i < |files| ==> files[i] in t.walk;
    ReportEmptyIff(files, host.readText);
  }

  /** An example project directory: one text file, one ignored dependency, one image. */
  function ExampleTree(): Tree
  {
    Tree(["/", "proj"], true, true, [
      ["/", "proj", "a.txt"],
      ["/", "proj", "node_modules"],
      ["/", "proj", "node_modules", "b.txt"],
      ["/", "proj", "img.png"]
    ])
  }

  /** The host of the example project. */
  function ExampleHost(): Host
  {
    Host(
      p => p != ["/", "proj", "node_modules"],
      p => if p == ["/", "proj", "img.png"] then Some("image/png")
           else if |p| == 3 || |p| == 4 then Some("text/plain")
           else None,
      p => if p == ["/", "proj", "a.txt"] then Some("hello")
           else if p == ["/", "proj", "node_modules", "b.txt"] then Some("skip me")
           else None)
  }

  /** Only a.txt is listed (the dependency is ignored, the image is not text), and the report is its single block. */
  lemma ExampleRun()
    ensures Select(ExampleTree().root, ExampleHost(), None, ExampleTree().walk) == [["/", "proj", "a.txt"]]
    ensures Report(Select(ExampleTree().root, ExampleHost(), None, ExampleTree().walk), ExampleHost().readText)
         == FormatBlock("/proj/a.txt", "hello")
  {
    var t := ExampleTree();
    var host := ExampleHost();
    var w := t.walk;
    ExampleVerdicts();
    assert w[3..][1..] == [];
    assert Select(t.root, host, None, w[3..]) == [];
    assert w[2..][1..] == w[3..];
    assert Select(t.root, host, None, w[2..]) == [];
    assert w[1..][1..] == w[2..];
    assert Select(t.root, host, None, w[1..]) == [];
    assert Select(t.root, host, None, w) == [w[0]];
    ExampleRender();
    SingleFileReport(w[0], host.readText);
  }

  /** Why each visited path of the example project is kept or rejected. */
  lemma ExampleReasons()
    ensures !ShouldIgnore(ExampleTree().walk[0]) && Classify(ExampleHost(), ExampleTree().walk[0]) == Some(true)
    ensures ShouldIgnore(ExampleTree().walk[1]) && ShouldIgnore(ExampleTree().walk[2])
    ensures !ShouldIgnore(ExampleTree().walk[3]) && Classify(ExampleHost(), ExampleTree().walk[3]) == Some(false)
  {
    var w := ExampleTree().walk;
    var host := ExampleHost();
    assert "text" <= "text/plain";
    NoOccurrence("image/png", "text");
    assert w[1][2] in IGNORE;
    assert w[2][2] in IGNORE;
    ExampleKeptComponents();
    assert host.guessType(w[0]) == Some("text/plain");
    assert host.guessType(w[3]) == Some("image/png");
  }

  /** None of the components of the example project's kept or non-text paths is an ignored name. */
  lemma ExampleKeptComponents()
    ensures !ShouldIgnore(["/", "proj", "a.txt"]) && !ShouldIgnore(["/", "proj", "img.png"])
  {
    assert "/" !in IGNORE && "proj" !in IGNORE;
    assert "a.txt" !in IGNORE && "img.png" !in IGNORE;
  }

  /** The verdict on each visited path of the example project: only a.txt passes. */
  lemma ExampleVerdicts()
    ensures Accepts(ExampleTree().root, ExampleHost(), None, ExampleTree().walk[0])
    ensures !Accepts(ExampleTree().root, ExampleHost(), None, ExampleTree().walk[1])
    ensures !Accepts(ExampleTree().root, ExampleHost(), None, ExampleTree().walk[2])
    ensures !Accepts(ExampleTree().root, ExampleHost(), None, ExampleTree().walk[3])
  {
    ExampleReasons();
  }

  /** How the example project's text file is named in its block. */
  lemma ExampleRender()
    ensures Render(["/", "proj", "a.txt"]) == "/proj/a.txt"
  {
    var p: Path := ["/", "proj", "a.txt"];
    assert p[1..] == ["proj", "a.txt"];
    assert p[1..][1..] == ["a.txt"];
    assert Join("/", ["a.txt"]) == "a.txt";
    assert Join("/", ["proj", "a.txt"]) == "proj" + "/" + "a.txt";
  }
}
