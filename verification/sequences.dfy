/** Generic facts about sequences and strings that the pipeline relies on. */
module Sequences {

  /** `a` is `b` with some elements deleted: relative order is kept and nothing is added. */
  predicate Subseq<T(==)>(a: seq<T>, b: seq<T>)
    decreases |b|
  {
    |a| == 0 ||
    (|b| > 0 && ((a[0] == b[0] && Subseq(a[1..], b[1..])) || Subseq(a, b[1..])))
  }

  /** Dropping a leading element of the longer sequence keeps the relation. */
  lemma SubseqSkip<T>(a: seq<T>, x: T, b: seq<T>)
    requires Subseq(a, b)
    ensures Subseq(a, [x] + b)
  {
    assert ([x] + b)[1..] == b;
  }

  /** A common leading element can be kept on both sides. */
  lemma SubseqKeep<T>(x: T, a: seq<T>, b: seq<T>)
    requires Subseq(a, b)
    ensures Subseq([x] + a, [x] + b)
  {
    assert ([x] + a)[1..] == a;
    assert ([x] + b)[1..] == b;
  }

  /** Python's `sep.join(parts)`. */
  function Join(sep: string, parts: seq<string>): string
  {
    if |parts| == 0 then ""
    else if |parts| == 1 then parts[0]
    else parts[0] + sep + Join(sep, parts[1..])
  }

  /** Joining one more part appends the separator and that part (nothing when it is the first). */
  lemma {:induction false} JoinSnoc(sep: string, parts: seq<string>, last: string)
    ensures Join(sep, parts + [last]) == if |parts| == 0 then last else Join(sep, parts) + sep + last
    decreases |parts|
  {
    if |parts| == 0 {
      assert parts + [last] == [last];
    } else if |parts| == 1 {
      assert (parts + [last])[1..] == [last];
    } else {
      assert (parts + [last])[1..] == parts[1..] + [last];
      JoinSnoc(sep, parts[1..], last);
    }
  }

  /** A joined string contains a character only if the separator or one of the parts does. */
  lemma {:induction false} JoinAvoids(sep: string, parts: seq<string>, c: char)
    requires c !in sep
    requires forall i :: 0 <= i < |parts| ==> c !in parts[i]
    ensures c !in Join(sep, parts)
    decreases |parts|
  {
    if |parts| > 1 {
      JoinAvoids(sep, parts[1..], c);
    }
  }

  /** `t` occurs in `s` (Python's `t in s` on strings), stated by a witness position. */
  ghost predicate HasSubstring(s: string, t: string)
  {
    exists i :: 0 <= i <= |s| && t <= s[i..]
  }

  /** Dropping a first character that does not start an occurrence keeps exactly the same occurrences. */
  lemma HasSubstringTail(s: string, t: string)
    requires |s| > 0 && !(t <= s)
    ensures HasSubstring(s, t) <==> HasSubstring(s[1..], t)
  {
    if HasSubstring(s, t) {
      var i :| 0 <= i <= |s| && t <= s[i..];
      assert i != 0 by { assert s[0..] == s; }
      assert s[1..][i - 1..] == s[i..];
    }
    if HasSubstring(s[1..], t) {
      var j :| 0 <= j <= |s[1..]| && t <= s[1..][j..];
      assert s[1..][j..] == s[j + 1..];
    }
  }

  /** Substring search, scanning left to right. */
  function ContainsSubstring(s: string, t: string): (r: bool)
    ensures r <==> HasSubstring(s, t)
    decreases |s|
  {
    if t <= s then
      assert s[0..] == s;
      true
    else if |s| == 0 then
      false
    else
      HasSubstringTail(s, t);
      ContainsSubstring(s[1..], t)
  }

  /** `n` copies of the character `c` (Python's `c * n`). */
  function Repeat(c: char, n: nat): (r: string)
    ensures |r| == n
    ensures forall i :: 0 <= i < n ==> r[i] == c
  {
    if n == 0 then [] else [c] + Repeat(c, n - 1)
  }
}
