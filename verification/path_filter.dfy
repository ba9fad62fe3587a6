/** The ignore list and the test that drops noise directories (version control, caches, virtualenvs). */
module PathFilter {
  import opened Environment

  /** Component names whose presence anywhere in a path excludes it. */
  const IGNORE: seq<string> := [
    "node_modules", "venv", "env", ".git", ".vscode", ".idea", "__pycache__",
    ".pytest_cache", ".mypy_cache", ".tox", ".eggs", ".venv", ".nox", ".cache",
    ".serverless", ".serverless_plugins"
  ]

  /** `should_ignore`: scans the components in order and stops at the first ignored one. */
  function ShouldIgnore(path: Path): (r: bool)
    ensures r <==> exists i :: 0 <= i < |path| && path[i] in IGNORE
  {
    if |path| == 0 then false
    else if path[0] in IGNORE then true
    else
      assert forall i :: 0 < i < |path| ==> path[i] == path[1..][i - 1];
      ShouldIgnore(path[1..])
  }

  /** A path is ignored exactly when its leading part or its trailing part is. */
  lemma ShouldIgnoreConcat(a: Path, b: Path)
    ensures ShouldIgnore(a + b) <==> ShouldIgnore(a) || ShouldIgnore(b)
  {
    if ShouldIgnore(a) {
      var i :| 0 <= i < |a| && a[i] in IGNORE;
      assert (a + b)[i] == a[i];
    }
    if ShouldIgnore(b) {
      var i :| 0 <= i < |b| && b[i] in IGNORE;
      assert (a + b)[|a| + i] == b[i];
    }
    if ShouldIgnore(a + b) {
      var i :| 0 <= i < |a + b| && (a + b)[i] in IGNORE;
      if i < |a| {
        assert a[i] == (a + b)[i];
      } else {
        assert b[i - |a|] == (a + b)[i];
      }
    }
  }

  /** Matching is on whole components: a name that merely contains or resembles an ignored one is kept. */
  lemma WholeComponentMatching()
    ensures !ShouldIgnore(["proj", "envs", "my.git", "venv2", "node_modules.txt"])
    ensures ShouldIgnore(["proj", "node_modules", "b.txt"])
    ensures ShouldIgnore(["home", ".venv"])
  {
    assert ["proj", "node_modules", "b.txt"][1] in IGNORE;
    assert ["home", ".venv"][1] in IGNORE;
  }
}
