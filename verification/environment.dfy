/**
 * What the script observes of the machine it runs on. The filesystem queries, the
 * MIME-type table and file reading are not modelled; they enter as functions.
 */
module Environment {
  import opened Wrappers
  import opened Sequences

  /** A filesystem path as its name components (`Path.parts`); an absolute path starts with "/". */
  type Path = seq<string>

  /** The answers the environment gives about a path. */
  datatype Host = Host(
    isFile: Path -> bool,                 // `Path.is_file()`
    guessType: Path -> Option<string>,    // the type half of `mimetypes.guess_type`
    readText: Path -> Option<string>      // `read_file_contents`; None when it fails
  )

  /** The directory named on the command line and every entry a recursive walk of it visits, in visiting order. */
  datatype Tree = Tree(root: Path, rootExists: bool, rootIsDir: bool, walk: seq<Path>)
  {
    /** The walk can start: the root exists and is a directory. */
    predicate ValidRoot()
    {
      rootExists && rootIsDir
    }
  }

  /** Every visited path lies strictly below the root, as a recursive glob guarantees. */
  predicate BelowRoot(root: Path, visited: seq<Path>)
  {
    forall i :: 0 <= i < |visited| ==> |visited[i]| > |root| && visited[i][..|root|] == root
  }

  /** Number of components of `p` below `root` (`len(p.relative_to(root).parts)` when `p` is below `root`). */
  function RelativeDepth(root: Path, p: Path): int
  {
    |p| - |root|
  }

  /**
   * POSIX rendering of a path as text (`str(path)`): "." for no components, otherwise the
   * anchor ("/" or "//", which POSIX keeps distinct) followed by the other components joined by "/".
   */
  function Render(p: Path): string
  {
    if |p| == 0 then "."
    else if p[0] == "/" || p[0] == "//" then p[0] + Join("/", p[1..])
    else Join("/", p)
  }

  /** The three anchor cases: no components, a single-slash root and the distinct double-slash root. */
  lemma RenderAnchors()
    ensures Render([]) == "."
    ensures Render(["/", "proj", "a.txt"]) == "/proj/a.txt"
    ensures Render(["//", "proj"]) == "//proj"
    ensures Render(["proj", "a.txt"]) == "proj/a.txt"
  {
    assert ["/", "proj", "a.txt"][1..] == ["proj", "a.txt"];
    assert ["proj", "a.txt"][1..] == ["a.txt"];
    assert ["//", "proj"][1..] == ["proj"];
    assert Join("/", ["proj", "a.txt"]) == "proj" + "/" + "a.txt";
  }

  /** A path whose components hold no newline renders without one. */
  lemma RenderAvoidsNewline(p: Path)
    requires forall i :: 0 <= i < |p| ==> '\n' !in p[i]
    ensures '\n' !in Render(p)
  {
    if |p| > 0 {
      JoinAvoids("/", p, '\n');
      JoinAvoids("/", p[1..], '\n');
    }
  }
}
