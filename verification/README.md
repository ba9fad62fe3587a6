# multicat, modelled in Dafny

`multicat` walks a directory tree, keeps the text files that are not inside
noise directories (version control, dependency caches, virtualenvs), reads
them, and prints one report: a block per file (`File: <path>`, a blank line,
the contents, a blank line, a line of 50 dashes) joined by newlines, either to
standard output or to the clipboard.

This project models that pipeline as pure functions over sequences and
strings, with the machine abstracted away:

- `Environment` — a path is its list of components (`Path.parts`); a `Tree`
  is the root named on the command line, whether it exists and is a directory,
  and the full paths a recursive glob of it visits, in visiting order; a `Host`
  supplies `is_file`, the MIME guess and the outcome of reading a file as
  uninterpreted functions. `Render` is POSIX `str(path)`, including the
  distinct `//` anchor.
- `PathFilter` — the `IGNORE` list and `should_ignore`.
- `FileClassifier` — the tri-state `is_text_file` (`Option<bool>`).
- `TreeWalker` — `list_text_files` as a loop (`ListTextFiles`) proved equal to
  a reference selection (`Select`), with the depth-bound and order lemmas.
- `ContentAggregator` — `format_file_contents`, a parser that inverts it, and
  the read/format/join steps of `main` (`Aggregate`, specified by `Report`).
- `Multicat` — `main`: the exit status, the re-check with `is_text_file`, the
  "no text files" case and the delivered report; plus an example project with
  `a.txt`, `node_modules/b.txt` and `img.png`.

Points where the code's behaviour is easy to misread:

- A file whose read fails is skipped and the run continues.
  `read_file_contents` raises `typer.Exit(1)`, but that exception derives from
  `RuntimeError`, so the `except Exception` in `main` catches it.
- A file that reads as the empty string is skipped as well, because the
  comprehension tests the contents for truthiness.
- `is_text_file` asks whether "text" occurs anywhere in the MIME label, not
  whether the label starts with it. An empty label counts as unknown, the same
  as no label, because the test is `not _type`.
- A depth bound of 0 (or less) keeps nothing, since the root's children have
  depth 1; the bound is compared with `is None`, so 0 is a real bound.
- The walker returns full paths (root components included), and
  `should_ignore` sees those, so a root that itself lies inside an ignored
  directory yields nothing.
- "No text files" is decided on the list of files. When every listed file
  fails to read or is empty, the run still delivers a report, and that report
  is the empty string.

## Model

| member | source | states |
|---|---|---|
| `PathFilter.ShouldIgnore` | multicat.py:31-36 | a path is ignored iff at least one of its components is an entry of `IGNORE` |
| `PathFilter.ShouldIgnoreConcat` | multicat.py:31-36 | ignoring a path composed of two parts holds iff it holds for either part, so anything below an ignored directory is ignored |
| `PathFilter.WholeComponentMatching` | multicat.py:11-36 | matching is whole-component equality: "envs", "my.git", "venv2" are kept; "node_modules" and ".venv" components are ignored |
| `FileClassifier.IsTextFile` | multicat.py:58-70 | a non-file is never text (Some(false)); the result is unknown (None) iff it is a file with no or an empty label; it is Some(true) iff it is a file whose label contains "text" at some position |
| `FileClassifier.LabelExamples` | multicat.py:63-70 | text/plain and text/x-python are text, image/png and application/json are not, a missing label is unknown, a non-file is not text |
| `TreeWalker.ListTextFiles` | multicat.py:42-55 | fails with exit code 1 iff the root is missing or not a directory; otherwise returns a subsequence of the visiting order holding exactly the visited paths that are not ignored, are text and are within the depth bound |
| `TreeWalker.SelectAppend` | multicat.py:48-55 | whether a path is kept depends on that path alone: the selection from a walk made of two parts is the selection from each part, in order |
| `TreeWalker.SelectSubseq` | multicat.py:49-54 | the selection keeps the visiting order and adds nothing |
| `TreeWalker.SelectMembers` | multicat.py:49-54 | a path is selected iff it was visited, is not ignored, is text and is within the bound |
| `TreeWalker.SelectMonotone` | multicat.py:52-53 | a tighter depth bound selects a subsequence of what a looser or absent bound selects |
| `TreeWalker.DepthBoundNested` | multicat.py:52-53 | the result for bound k is a subsequence of the result for k + 1 and of the unbounded result |
| `TreeWalker.UnboundedIgnoresDepth` | multicat.py:53 | with no bound a path is kept iff it was visited, is not ignored and is text, whatever its depth |
| `TreeWalker.ShallowWalkUnaffected` | multicat.py:52-53 | when no visited path is deeper than k, the bound k selects the same as no bound |
| `TreeWalker.DepthRange` | multicat.py:52-53 | with bound k every kept path lies between 1 and k components below the root |
| `TreeWalker.NonPositiveBoundEmpty` | multicat.py:52-53 | a bound of 0 or less keeps nothing |
| `TreeWalker.IgnoredRootHidesAll` | multicat.py:31-36 | when the root itself has an ignored component, nothing below it is kept, whatever the bound |
| `ContentAggregator.FormatBlock` | multicat.py:83-85 | a block is 61 characters longer than path and contents together, starts with "File: ", and ends with a blank line, exactly 50 dashes and a newline |
| `ContentAggregator.ParseBlock` | multicat.py:83-85 | whatever the parser accepts, formatting its path and contents rebuilds the block exactly |
| `ContentAggregator.ParseFormat` | multicat.py:83-85 | for a path without newlines, splitting the block at the first blank line recovers the path and the exact contents |
| `ContentAggregator.BlockNamesItsFile` | multicat.py:83-85 | the block of a file whose path components hold no newline gives back the rendered path and the contents |
| `ContentAggregator.BlocksAppend` | multicat.py:118-122 | blocks follow the file list's order: the blocks of two consecutive runs of files are the blocks of each run |
| `ContentAggregator.BlocksMembers` | multicat.py:118-122 | a string is a block iff it formats some listed file whose read gave non-empty text |
| `ContentAggregator.BlocksEmptyIff` | multicat.py:118-122 | no block is produced iff every listed file failed to read or is empty |
| `ContentAggregator.ReportEmptyIff` | multicat.py:118-124 | the joined report is the empty string iff every listed file failed to read or is empty |
| `ContentAggregator.Aggregate` | multicat.py:109-124 | reading every file into a table keyed by path, then formatting the files with non-empty text in list order and joining with newlines, gives the report |
| `Sequences.JoinSnoc` | multicat.py:124 | joining one more part appends the separator and that part, or gives the part alone when it is the first |
| `Sequences.ContainsSubstring` | multicat.py:70 | the scan finds "text" iff it occurs in the label at some position |
| `Sequences.Repeat` | multicat.py:85 | `'-' * 50` is 50 characters, each a dash |
| `Multicat.RefilterIdempotent` | multicat.py:101-103 | re-checking the walker's output with `is_text_file` leaves the list unchanged |
| `Multicat.Run` | multicat.py:99-130 | an invalid root ends the run with status 1 and no report; otherwise the status is 0; no report is produced iff the walker selects nothing; the delivered report is the report of the walker's selection, sent to the clipboard iff `--copy` |
| `Multicat.UnreadableFilesGiveEmptyReport` | multicat.py:105-124 | when no visited file reads as non-empty text, the report delivered is the empty string |
| `Multicat.ExampleVerdicts` | multicat.py:50-54 | in the example project a.txt passes the walker's test and the other three visited paths fail it |
| `Multicat.ExampleReasons` | multicat.py:50 | in the example project a.txt is not ignored and is classified text, node_modules and its b.txt are ignored, img.png is not ignored but is classified not-text |
| `Multicat.ExampleRun` | multicat.py:101-124 | in the example project only a.txt is listed and the report is its one block |
| `Environment.RenderAnchors` | multicat.py:85 | a path renders as "." when it has no components, keeps a "/" or a distinct "//" anchor, and joins the rest with "/" |
| `ContentAggregator.SingleFileReport` | multicat.py:118-124 | the report of a single file that read as non-empty text is exactly that file's block, headed by its rendered path |

## Left out

- Filesystem access (`Path.exists`, `is_dir`, `is_file`, `rglob`): the tree and the answers of `is_file` are inputs. The order of the walk is whatever the input sequence says; symlinks and a filesystem that changes during the run are not modelled (`is_file` gives the same answer each time it is asked).
- `mimetypes.guess_type`: its extension table belongs to the Python library; the model takes the label as an uninterpreted function of the path.
- `read_file_contents`: opening, reading and text decoding are I/O; the model takes the outcome (text, or None for any exception) as an uninterpreted function of the path.
- Command-line parsing with Typer, the messages printed with `typer.echo`, and `pyperclip.copy`: the run's result is an `Outcome` recording the exit status and the report with its destination.
- `Render`: only POSIX path rendering is modelled; Windows drive and separator conventions are not.
- `ContentAggregator.ParseFormat`: stated only for paths without a newline, because a path containing a newline followed by a blank line would be split at the wrong place; the block format itself gives no way to tell.
- `RelativeDepth` equals `len(path.relative_to(root).parts)` only for paths below the root; the walk always satisfies this, and the lemmas that depend on it require `BelowRoot`.
