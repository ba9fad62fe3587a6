/** `list_text_files`: the depth-bounded recursive walk that keeps the text files outside ignored directories. */
module TreeWalker {
  import opened Wrappers
  import opened Sequences
  import opened Environment
  import opened PathFilter
  import opened FileClassifier

  /** The depth bound: an absent bound admits every depth. */
  predicate WithinDepth(depth: int, maxDepth: Option<int>)
  {
    maxDepth.None? || depth <= maxDepth.value
  }

  /** The test one visited path must pass to be kept: not ignored, classified as text, within the bound. */
  predicate Accepts(root: Path, host: Host, maxDepth: Option<int>, p: Path)
  {
    && !ShouldIgnore(p)
    && Classify(host, p) == Some(true)
    && WithinDepth(RelativeDepth(root, p), maxDepth)
  }

  /** The visited paths that pass the test, in visiting order. */
  function Select(root: Path, host: Host, maxDepth: Option<int>, visited: seq<Path>): seq<Path>
  {
    if |visited| == 0 then []
    else
      (if Accepts(root, host, maxDepth, visited[0]) then [visited[0]] else [])
      + Select(root, host, maxDepth, visited[1..])
  }

  /** Whether a path is kept depends only on that path: selecting from two runs of a walk selects from each. */
  lemma {:induction false} SelectAppend(root: Path, host: Host, maxDepth: Option<int>, a: seq<Path>, b: seq<Path>)
    ensures Select(root, host, maxDepth, a + b)
         == Select(root, host, maxDepth, a) + Select(root, host, maxDepth, b)
    decreases |a|
  {
    if |a| == 0 {
      assert a + b == b;
    } else {
      assert (a + b)[1..] == a[1..] + b;
      SelectAppend(root, host, maxDepth, a[1..], b);
    }
  }

  /** The selection keeps the visiting order and adds nothing. */
  lemma {:induction false} SelectSubseq(root: Path, host: Host, maxDepth: Option<int>, visited: seq<Path>)
    ensures Subseq(Select(root, host, maxDepth, visited), visited)
    decreases |visited|
  {
    if |visited| > 0 {
      var rest := Select(root, host, maxDepth, visited[1..]);
      SelectSubseq(root, host, maxDepth, visited[1..]);
      assert visited == [visited[0]] + visited[1..];
      if Accepts(root, host, maxDepth, visited[0]) {
        SubseqKeep(visited[0], rest, visited[1..]);
      } else {
        assert Select(root, host, maxDepth, visited) == rest;
        SubseqSkip(rest, visited[0], visited[1..]);
      }
    }
  }

  /** A path is selected exactly when it was visited and passes the test. */
  lemma {:induction false} SelectMembers(root: Path, host: Host, maxDepth: Option<int>, visited: seq<Path>)
    ensures forall p :: p in Select(root, host, maxDepth, visited)
                    <==> p in visited && Accepts(root, host, maxDepth, p)
    decreases |visited|
  {
    if |visited| > 0 {
      SelectMembers(root, host, maxDepth, visited[1..]);
      assert visited == [visited[0]] + visited[1..];
    }
  }

  /** `d1` is at least as strict a depth bound as `d2`. */
  predicate Tighter(d1: Option<int>, d2: Option<int>)
  {
    d2.None? || (d1.Some? && d1.value <= d2.value)
  }

  /** A tighter depth bound selects a subsequence of what a looser (or absent) one selects. */
  lemma {:induction false} SelectMonotone(root: Path, host: Host, d1: Option<int>, d2: Option<int>, visited: seq<Path>)
    requires Tighter(d1, d2)
    ensures Subseq(Select(root, host, d1, visited), Select(root, host, d2, visited))
    decreases |visited|
  {
    if |visited| > 0 {
      var p := visited[0];
      var a := Select(root, host, d1, visited[1..]);
      var b := Select(root, host, d2, visited[1..]);
      SelectMonotone(root, host, d1, d2, visited[1..]);
      if Accepts(root, host, d1, p) {
        SubseqKeep(p, a, b);
      } else if Accepts(root, host, d2, p) {
        assert Select(root, host, d1, visited) == a;
        SubseqSkip(a, p, b);
      } else {
        assert Select(root, host, d1, visited) == a;
        assert Select(root, host, d2, visited) == b;
      }
    }
  }

  /** The result for bound k is contained, in order, in the result for k + 1 and in the unbounded result. */
  lemma DepthBoundNested(root: Path, host: Host, k: int, visited: seq<Path>)
    ensures Subseq(Select(root, host, Some(k), visited), Select(root, host, Some(k + 1), visited))
    ensures Subseq(Select(root, host, Some(k), visited), Select(root, host, None, visited))
  {
    SelectMonotone(root, host, Some(k), Some(k + 1), visited);
    SelectMonotone(root, host, Some(k), None, visited);
  }

  /** Without a bound nothing is dropped for its depth: a path is kept iff it is visited, not ignored and text. */
  lemma {:induction false} UnboundedIgnoresDepth(root: Path, host: Host, visited: seq<Path>)
    ensures forall p :: p in Select(root, host, None, visited)
                    <==> p in visited && !ShouldIgnore(p) && Classify(host, p) == Some(true)
  {
    SelectMembers(root, host, None, visited);
  }

  /** When no visited path is deeper than k, bounding the depth by k changes nothing. */
  lemma {:induction false} ShallowWalkUnaffected(root: Path, host: Host, k: int, visited: seq<Path>)
    requires forall i :: 0 <= i < |visited| ==> RelativeDepth(root, visited[i]) <= k
    ensures Select(root, host, Some(k), visited) == Select(root, host, None, visited)
    decreases |visited|
  {
    if |visited| > 0 {
      ShallowWalkUnaffected(root, host, k, visited[1..]);
    }
  }

  /** With bound k every kept path lies between 1 and k components below the root. */
  lemma {:induction false} DepthRange(root: Path, host: Host, k: int, visited: seq<Path>)
    requires BelowRoot(root, visited)
    ensures forall p :: p in Select(root, host, Some(k), visited) ==> 1 <= RelativeDepth(root, p) <= k
  {
    SelectMembers(root, host, Some(k), visited);
  }

  /** A bound of zero or less keeps nothing, since even the root's children have depth 1. */
  lemma {:induction false} NonPositiveBoundEmpty(root: Path, host: Host, k: int, visited: seq<Path>)
    requires BelowRoot(root, visited) && k <= 0
    ensures Select(root, host, Some(k), visited) == []
    decreases |visited|
  {
    if |visited| > 0 {
      assert !Accepts(root, host, Some(k), visited[0]);
      assert BelowRoot(root, visited[1..]) by {
        forall i | 0 <= i < |visited| - 1 ensures visited[1..][i] == visited[i + 1] { }
      }
      NonPositiveBoundEmpty(root, host, k, visited[1..]);
    }
  }

  /** A root inside an ignored directory hides every visited path, whatever the bound. */
  lemma {:induction false} IgnoredRootHidesAll(root: Path, host: Host, maxDepth: Option<int>, visited: seq<Path>)
    requires BelowRoot(root, visited) && ShouldIgnore(root)
    ensures Select(root, host, maxDepth, visited) == []
    decreases |visited|
  {
    if |visited| > 0 {
      var p := visited[0];
      assert p == root + p[|root|..];
      ShouldIgnoreConcat(root, p[|root|..]);
      assert BelowRoot(root, visited[1..]) by {
        forall i | 0 <= i < |visited| - 1 ensures visited[1..][i] == visited[i + 1] { }
      }
      IgnoredRootHidesAll(root, host, maxDepth, visited[1..]);
    }
  }

  /**
   * `list_text_files`: fails with exit code 1 unless the root exists and is a directory;
   * otherwise visits the walk in order and keeps each path that passes the test.
   */
  method ListTextFiles(t: Tree, host: Host, maxDepth: Option<int>) returns (r: Result<seq<Path>, int>)
    ensures r.Failure? <==> !t.ValidRoot()
    ensures r.Failure? ==> r.error == 1
    ensures r.Success? ==> r.value == Select(t.root, host, maxDepth, t.walk)
    ensures r.Success? ==> Subseq(r.value, t.walk)
    ensures r.Success? ==> forall p :: p in r.value <==> p in t.walk && Accepts(t.root, host, maxDepth, p)
  {
    if !t.rootExists || !t.rootIsDir {
      return Failure(1);
    }
    var textFiles: seq<Path> := [];
    for i := 0 to |t.walk|
      invariant textFiles == Select(t.root, host, maxDepth, t.walk[..i])
    {
      var path := t.walk[i];
      assert t.walk[..i + 1] == t.walk[..i] + [path];
      SelectAppend(t.root, host, maxDepth, t.walk[..i], [path]);
      if ShouldIgnore(path) || Classify(host, path) != Some(true) {
        continue;
      }
      var relativeDepth := RelativeDepth(t.root, path);
      if maxDepth.None? || relativeDepth <= maxDepth.value {
        textFiles := textFiles + [path];
      }
    }
    assert t.walk[..|t.walk|] == t.walk;
    SelectSubseq(t.root, host, maxDepth, t.walk);
    SelectMembers(t.root, host, maxDepth, t.walk);
    return Success(textFiles);
  }
}
