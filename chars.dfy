/**
 * ASCII character classes and the leading-run scan that stands in for the
 * regular expressions of the downloader (`\w`, `\d`, `[\w\.]`).
 */
module Chars {

  /** `\d`, restricted to ASCII. */
  predicate IsDigit(ch: char) {
    '0' <= ch <= '9'
  }

  /** `\w`, restricted to ASCII: letters, digits and the underscore. */
  predicate IsWordChar(ch: char) {
    IsDigit(ch) || ('a' <= ch <= 'z') || ('A' <= ch <= 'Z') || ch == '_'
  }

  /** The class `[\w\.]` that a host name in a comic URL is made of. */
  predicate IsHostChar(ch: char) {
    IsWordChar(ch) || ch == '.'
  }

  /** `s` begins with `prefix`. */
  predicate StartsWith(s: string, prefix: string) {
    |prefix| <= |s| && s[..|prefix|] == prefix
  }

  /**
   * The end of the longest run of characters satisfying `p` that starts at
   * index `i` of `s` (just `i` when `s[i]` fails `p` or `i` is past the end).
   */
  function RunEnd(s: string, i: nat, p: char -> bool): (e: nat)
    requires i <= |s|
    ensures i <= e <= |s|
    ensures forall k :: i <= k < e ==> p(s[k])
    ensures e < |s| ==> !p(s[e])
    decreases |s| - i
  {
    if i == |s| || !p(s[i]) then i else RunEnd(s, i + 1, p)
  }

  /** The three conditions in RunEnd's contract determine its value. */
  lemma {:induction false} RunEndUnique(s: string, i: nat, p: char -> bool, e: nat)
    requires i <= e <= |s|
    requires forall k :: i <= k < e ==> p(s[k])
    requires e < |s| ==> !p(s[e])
    ensures RunEnd(s, i, p) == e
    decreases |s| - i
  {
    if i < e {
      RunEndUnique(s, i + 1, p, e);
    }
  }

  /** A prefix of a prefix of `s` is a prefix of `s`. */
  lemma TakeOfPrefix(s: string, k: nat, j: nat)
    requires j <= k <= |s|
    ensures s[..k][..j] == s[..j]
  {
    assert forall x :: 0 <= x < j ==> s[..k][..j][x] == s[x];
  }

  /** A slice of a prefix of `s` is the same slice of `s`. */
  lemma SliceOfPrefix(s: string, k: nat, i: nat, j: nat)
    requires i <= j <= k <= |s|
    ensures s[..k][i..j] == s[i..j]
  {
    assert forall x :: 0 <= x < j - i ==> s[..k][i..j][x] == s[i + x];
  }

  /** A text is its first `n` characters followed by the rest. */
  lemma TakeDrop(s: string, n: nat)
    requires n <= |s|
    ensures s[..n] + s[n..] == s
  {
    assert forall x :: 0 <= x < |s| ==> (s[..n] + s[n..])[x] == s[x];
  }

  /** A slice inside `p` is the same in `p + t`. */
  lemma SliceOfConcat(p: string, t: string, i: nat, j: nat)
    requires i <= j <= |p|
    ensures (p + t)[i..j] == p[i..j]
  {
    assert forall x :: 0 <= x < j - i ==> (p + t)[i..j][x] == p[i + x];
  }

  /** A prefix inside `p` is the same in `p + t`. */
  lemma TakeOfConcat(p: string, t: string, n: nat)
    requires n <= |p|
    ensures (p + t)[..n] == p[..n]
  {
    assert forall x :: 0 <= x < n ==> (p + t)[..n][x] == p[x];
  }

  /** Dropping a part of `p` from `p + t` leaves the rest of `p` followed by `t`. */
  lemma DropOfConcat(p: string, t: string, n: nat)
    requires n <= |p|
    ensures (p + t)[n..] == p[n..] + t
  {
    assert forall x :: 0 <= x < |p| + |t| - n ==> (p + t)[n..][x] == (p[n..] + t)[x];
  }
}
