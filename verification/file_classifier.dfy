/** The tri-state text/binary guess made from a path's MIME label. */
module FileClassifier {
  import opened Wrappers
  import opened Sequences
  import opened Environment

  /**
   * `is_text_file` once `is_file` and the MIME lookup have answered: Some(false) for
   * anything that is not a regular file, None when no (or an empty) label is known,
   * and otherwise whether "text" occurs in the label.
   */
  function IsTextFile(isFile: bool, mimeType: Option<string>): (r: Option<bool>)
    ensures r == Some(true) <==> isFile && mimeType.Some? && HasSubstring(mimeType.value, "text")
    ensures r == None <==> isFile && (mimeType.None? || mimeType.value == "")
    ensures !isFile ==> r == Some(false)
  {
    if !isFile then Some(false)
    else if mimeType.None? || mimeType.value == "" then None
    else Some(ContainsSubstring(mimeType.value, "text"))
  }

  /** The classification of a path on a given host. */
  function Classify(host: Host, p: Path): Option<bool>
  {
    IsTextFile(host.isFile(p), host.guessType(p))
  }

  /** Typical labels: text types are accepted, binary and non-"text" application types are not, no label is unknown. */
  lemma LabelExamples()
    ensures IsTextFile(true, Some("text/plain")) == Some(true)
    ensures IsTextFile(true, Some("text/x-python")) == Some(true)
    ensures IsTextFile(true, Some("image/png")) == Some(false)
    ensures IsTextFile(true, Some("application/json")) == Some(false)
    ensures IsTextFile(true, None) == None
    ensures IsTextFile(false, Some("text/plain")) == Some(false)
  {
    assert "text" <= "text/plain";
    assert "text" <= "text/x-python";
    NoOccurrence("image/png", "text");
    NoOccurrence("application/json", "text");
  }

  /** `t` does not occur in `s` when no position of `s` starts with it. */
  lemma NoOccurrence(s: string, t: string)
    requires |t| > 1
    requires forall i :: 0 <= i < |s| - 1 ==> s[i] != t[0] || s[i + 1] != t[1]
    ensures !HasSubstring(s, t)
  {
    forall i | 0 <= i <= |s|
      ensures !(t <= s[i..])
    {
      assert i < |s| - 1 ==> s[i..][0] == s[i] && s[i..][1] == s[i + 1];
    }
  }
}
