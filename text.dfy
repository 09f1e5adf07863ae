/**
 * The few Python string operations the core relies on: `str.lower`, `in` on
 * strings (substring test), `str.startswith` and `str.split(sep)`.
 * Characters are Dafny `char`s; only the ASCII letters change case.
 */
module Text {
  import opened Wrappers

  /** Python's `c.lower()` restricted to ASCII upper-case letters. */
  function LowerChar(c: char): char
  {
    if 'A' <= c <= 'Z' then (c as int + 32) as char else c
  }

  /** `s.lower()`, character by character. */
  function Lower(s: string): (r: string)
    ensures |r| == |s|
    ensures forall i :: 0 <= i < |s| ==> r[i] == LowerChar(s[i])
  {
    seq(|s|, i requires 0 <= i < |s| => LowerChar(s[i]))
  }

  /** No ASCII upper-case letter occurs in `s`. */
  predicate IsLowerCase(s: string)
  {
    forall i :: 0 <= i < |s| ==> !('A' <= s[i] <= 'Z')
  }

  /** Lower-casing yields lower-case text and changes nothing a second time. */
  lemma LowerIsLowerCase(s: string)
    ensures IsLowerCase(Lower(s))
    ensures Lower(Lower(s)) == Lower(s)
  {
  }

  /** `s.startswith(p)`. */
  predicate StartsWith(s: string, p: string)
  {
    |p| <= |s| && s[..|p|] == p
  }

  /** Python's `sub in s`: `sub` occurs somewhere in `s` (the empty string occurs everywhere). */
  predicate Contains(s: string, sub: string)
    decreases |s|
  {
    StartsWith(s, sub) || (|s| > 0 && Contains(s[1..], sub))
  }

  /** `Contains` is the usual "occurs at some index" test. */
  lemma {:induction false} ContainsIff(s: string, sub: string)
    ensures Contains(s, sub) <==> exists i :: 0 <= i <= |s| && StartsWith(s[i..], sub)
    decreases |s|
  {
    assert s[0..] == s;
    if |s| > 0 {
      ContainsIff(s[1..], sub);
      forall i | 1 <= i <= |s| ensures s[i..] == s[1..][i - 1..] { }
    }
  }

  /** An occurrence in a suffix of `s` is an occurrence in `s`. */
  lemma {:induction false} ContainsInSuffix(s: string, k: nat, sub: string)
    requires k <= |s|
    requires Contains(s[k..], sub)
    ensures Contains(s, sub)
    decreases k
  {
    if k > 0 {
      assert s[1..][k - 1..] == s[k..];
      ContainsInSuffix(s[1..], k - 1, sub);
    }
  }

  /** Every text that contains `hotfix` already contains `fix`. */
  lemma {:induction false} HotfixContainsFix(s: string)
    requires Contains(s, "hotfix")
    ensures Contains(s, "fix")
    decreases |s|
  {
    if StartsWith(s, "hotfix") {
      assert s[3..][..3] == s[3..6] == "fix";
      ContainsInSuffix(s, 3, "fix");
    } else {
      HotfixContainsFix(s[1..]);
    }
  }

  /** A text lacking one of the characters of `sub` cannot contain `sub`. */
  lemma {:induction false} MissingCharNotContained(s: string, sub: string, j: nat)
    requires j < |sub|
    requires forall i :: 0 <= i < |s| ==> s[i] != sub[j]
    ensures !Contains(s, sub)
    decreases |s|
  {
    if |sub| <= |s| {
      assert s[..|sub|][j] != sub[j];
    }
    if |s| > 0 {
      MissingCharNotContained(s[1..], sub, j);
    }
  }

  /** The index of the leftmost occurrence of `sep` in `s` (Python's `s.find(sep)`, with `None` for -1). */
  function Find(s: string, sep: string): (r: Option<nat>)
    ensures r.Some? ==> r.value + |sep| <= |s| && s[r.value..r.value + |sep|] == sep
    ensures r.Some? ==> forall j :: 0 <= j < r.value ==> !StartsWith(s[j..], sep)
    ensures r.None? <==> !Contains(s, sep)
    decreases |s|
  {
    if StartsWith(s, sep) then Some(0)
    else if |s| == 0 then None
    else match Find(s[1..], sep)
      case None => None
      case Some(i) =>
        assert forall j :: 1 <= j <= i ==> s[j..] == s[1..][j - 1..];
        Some(i + 1)
  }

  /** Python's `s.split(sep)` for a non-empty separator: the pieces between non-overlapping leftmost occurrences. */
  function Split(s: string, sep: string): (r: seq<string>)
    requires |sep| > 0
    ensures |r| >= 1
    decreases |s|
  {
    match Find(s, sep)
    case None => [s]
    case Some(i) => [s[..i]] + Split(s[i + |sep|..], sep)
  }

  /** `sep.join(pieces)`. */
  function Join(pieces: seq<string>, sep: string): string
  {
    if |pieces| <= 1 then (if pieces == [] then "" else pieces[0])
    else pieces[0] + sep + Join(pieces[1..], sep)
  }

  /** Splitting loses nothing: joining the pieces back gives the text, and no piece holds the separator. */
  lemma {:induction false} JoinSplit(s: string, sep: string)
    requires |sep| > 0
    ensures Join(Split(s, sep), sep) == s
    ensures forall k :: 0 <= k < |Split(s, sep)| ==> !Contains(Split(s, sep)[k], sep)
    decreases |s|
  {
    match Find(s, sep)
    case None =>
    case Some(i) =>
      var rest := s[i + |sep|..];
      JoinSplit(rest, sep);
      FirstPieceHasNoSeparator(s, sep, i);
      assert s == s[..i] + sep + rest;
  }

  /** The text before the leftmost occurrence holds no occurrence. */
  lemma FirstPieceHasNoSeparator(s: string, sep: string, i: nat)
    requires |sep| > 0 && Find(s, sep) == Some(i)
    ensures !Contains(s[..i], sep)
  {
    ContainsIff(s[..i], sep);
    forall j | 0 <= j <= i ensures !StartsWith(s[..i][j..], sep) {
      if j + |sep| <= i {
        assert s[..i][j..][..|sep|] == s[j..][..|sep|];
      }
    }
  }

  /** The text of `s` up to (not including) the first occurrence of `sep`, or all of `s`. */
  function UpTo(s: string, sep: string): (r: string)
    requires |sep| > 0
    ensures StartsWith(s, r)
    ensures !Contains(r, sep)
    ensures r == s || StartsWith(s[|r|..], sep)
  {
    match Find(s, sep)
    case None => s
    case Some(i) => FirstPieceHasNoSeparator(s, sep, i); s[..i]
  }

  /** When `s` starts with `sep`, the second piece of `s.split(sep)` is what follows the prefix, up to the next `sep`. */
  lemma SplitSecondAfterPrefix(s: string, sep: string)
    requires |sep| > 0 && StartsWith(s, sep)
    ensures |Split(s, sep)| >= 2
    ensures Split(s, sep)[1] == UpTo(s[|sep|..], sep)
  {
    assert Find(s, sep) == Some(0);
  }

  /** Nothing comes before the first separator exactly when the text is empty or starts with it. */
  lemma UpToEmptyIff(s: string, sep: string)
    requires |sep| > 0
    ensures UpTo(s, sep) == "" <==> s == "" || StartsWith(s, sep)
  {
    if StartsWith(s, sep) {
      assert Find(s, sep) == Some(0);
    }
  }

  /** The first piece of a split is the text up to the first separator. */
  lemma SplitFirstIsUpTo(s: string, sep: string)
    requires |sep| > 0
    ensures Split(s, sep)[0] == UpTo(s, sep)
  {
  }

  /** A `sep`-free `w` followed by the one-character `sep`: the text up to the first `sep` is `w`. */
  lemma UpToOfWordThenSep(s: string, w: string, sep: string)
    requires |sep| == 1 && !Contains(w, sep)
    requires StartsWith(s, w + sep)
    ensures UpTo(s, sep) == w
  {
    assert s[..|w + sep|] == w + sep;
    assert s[|w|..][..|sep|] == s[..|w + sep|][|w|..] == (w + sep)[|w|..] == sep;
    assert StartsWith(s[|w|..], sep);
    ContainsIff(w, sep);
    forall j | 0 <= j < |w| ensures !StartsWith(s[j..], sep) {
      assert s[j] == s[..|w + sep|][j] == (w + sep)[j] == w[j];
      assert s[j..][..1] == [s[j]] && w[j..][..1] == [w[j]];
    }
    FindAtMost(s, sep, |w|);
    var i := Find(s, sep).value;
    assert s[i..][..|sep|] == s[i..i + |sep|];
    assert StartsWith(s[i..], sep);
    assert i == |w|;
    assert s[..|w|] == (w + sep)[..|w|] == w;
  }

  /** An occurrence of `sep` at `k` means the leftmost one is found at or before `k`. */
  lemma {:induction false} FindAtMost(s: string, sep: string, k: nat)
    requires k <= |s| && StartsWith(s[k..], sep)
    ensures Find(s, sep).Some? && Find(s, sep).value <= k
    decreases k
  {
    if !StartsWith(s, sep) {
      assert k > 0;
      assert s[1..][k - 1..] == s[k..];
      FindAtMost(s[1..], sep, k - 1);
    }
  }
}
