/**
 * The `\b\w+\b` replacement of `unpack_packed`: every maximal run of word
 * characters is looked up in the dictionary and replaced by its value, or kept
 * when the dictionary has no entry for it; every other character is copied.
 */
module Words {
  import opened Chars

  /** `dmap.get(key).cloned().unwrap_or_else(|| key.to_string())`. */
  function Lookup(dict: map<string, string>, word: string): (r: string)
    ensures word in dict ==> r == dict[word]
    ensures word !in dict ==> r == word
  {
    if word in dict then dict[word] else word
  }

  /**
   * The end of the word run that starts at index `i` of `s` (just `i` when
   * `s[i]` is not a word character): `RunEnd` for the class `\w`, written out
   * so that the scan below does not carry a function value (WordEndIsRunEnd).
   */
  function WordEnd(s: string, i: nat): (e: nat)
    requires i <= |s|
    ensures i <= e <= |s|
    ensures i < |s| && IsWordChar(s[i]) ==> e > i
    decreases |s| - i
  {
    if i == |s| || !IsWordChar(s[i]) then i else WordEnd(s, i + 1)
  }

  /** The run from `i` to WordEnd is made of word characters and is followed by none. */
  lemma {:induction false} WordEndSpec(s: string, i: nat)
    requires i <= |s|
    ensures forall k :: i <= k < WordEnd(s, i) ==> IsWordChar(s[k])
    ensures WordEnd(s, i) < |s| ==> !IsWordChar(s[WordEnd(s, i)])
    decreases |s| - i
  {
    if i < |s| && IsWordChar(s[i]) {
      WordEndSpec(s, i + 1);
    }
  }

  /** The two conditions of WordEndSpec determine the end of the run. */
  lemma {:induction false} WordEndUnique(s: string, i: nat, e: nat)
    requires i <= e <= |s|
    requires forall k :: i <= k < e ==> IsWordChar(s[k])
    requires e < |s| ==> !IsWordChar(s[e])
    ensures WordEnd(s, i) == e
    decreases |s| - i
  {
    if i < e {
      WordEndUnique(s, i + 1, e);
    }
  }

  /** WordEnd is the longest-run scan of Chars for the class `\w`. */
  lemma WordEndIsRunEnd(s: string, i: nat)
    requires i <= |s|
    ensures WordEnd(s, i) == RunEnd(s, i, IsWordChar)
  {
    WordEndSpec(s, i);
    RunEndUnique(s, i, IsWordChar, WordEnd(s, i));
  }

  /** Where the first token of a non-empty `s` ends: after the whole word run, or after the single other character. */
  function TokenEnd(s: string): (e: nat)
    requires s != []
    ensures 0 < e <= |s|
  {
    if IsWordChar(s[0]) then WordEnd(s, 0) else 1
  }

  /** What the first token becomes: a word run is looked up, any other character is copied. */
  function Replacement(dict: map<string, string>, s: string): string
    requires s != []
  {
    if IsWordChar(s[0]) then Lookup(dict, s[..TokenEnd(s)]) else [s[0]]
  }

  /** `re_word.replace_all(frame, ...)`: the replacement of each token in turn, from the left. */
  function Substitute(dict: map<string, string>, s: string): string
    decreases |s|
  {
    if s == [] then [] else Replacement(dict, s) + Substitute(dict, s[TokenEnd(s)..])
  }

  /** A word run that ends inside `p`, or right before a non-word character, is not lengthened by what follows. */
  lemma WordEndAppend(p: string, t: string)
    requires p != [] && IsWordChar(p[0])
    requires WordEnd(p, 0) < |p| || t == [] || !IsWordChar(t[0])
    ensures WordEnd(p + t, 0) == WordEnd(p, 0)
  {
    var e := WordEnd(p, 0);
    WordEndSpec(p, 0);
    assert forall k :: 0 <= k < e ==> (p + t)[k] == p[k];
    if e < |p| {
      assert (p + t)[e] == p[e];
    } else if t != [] {
      assert (p + t)[e] == t[0];
    }
    WordEndUnique(p + t, 0, e);
  }

  /** The first token of `p + ([c] + q)` is the first token of `p` when `c` is not a word character. */
  lemma TokenAppend(dict: map<string, string>, p: string, c: char, q: string)
    requires p != [] && !IsWordChar(c)
    ensures TokenEnd(p + ([c] + q)) == TokenEnd(p)
    ensures Replacement(dict, p + ([c] + q)) == Replacement(dict, p)
    ensures (p + ([c] + q))[TokenEnd(p)..] == p[TokenEnd(p)..] + ([c] + q)
  {
    var s := p + ([c] + q);
    assert s[0] == p[0];
    if IsWordChar(p[0]) {
      WordEndAppend(p, [c] + q);
    }
    TakeOfConcat(p, [c] + q, TokenEnd(p));
    DropOfConcat(p, [c] + q, TokenEnd(p));
  }

  /** A scan of a non-empty text: the first token's replacement, then the scan of the rest. */
  lemma Step(dict: map<string, string>, s: string, t: string, w: string)
    requires s != [] && t != [] && Replacement(dict, s) == Replacement(dict, t)
    requires Substitute(dict, s[TokenEnd(s)..]) == Substitute(dict, t[TokenEnd(t)..]) + w
    ensures Substitute(dict, s) == Substitute(dict, t) + w
  {
  }

  /** A single maximal word run is replaced by its dictionary value, or kept. */
  lemma SubstituteWord(dict: map<string, string>, w: string)
    requires w != [] && forall k :: 0 <= k < |w| ==> IsWordChar(w[k])
    ensures Substitute(dict, w) == Lookup(dict, w)
  {
    WordEndUnique(w, 0, |w|);
    assert w[..|w|] == w;
    assert w[|w|..] == [];
  }

  /**
   * A non-word character splits the text: it stays in place, and the text on
   * each side of it is substituted on its own.
   */
  lemma {:induction false} SubstituteSplit(dict: map<string, string>, p: string, c: char, q: string)
    requires !IsWordChar(c)
    ensures Substitute(dict, p + ([c] + q)) == Substitute(dict, p) + ([c] + Substitute(dict, q))
    decreases |p|
  {
    if p == [] {
      assert p + ([c] + q) == [c] + q;
      assert ([c] + q)[1..] == q;
    } else {
      var e := TokenEnd(p);
      TokenAppend(dict, p, c, q);
      SubstituteSplit(dict, p[e..], c, q);
      Step(dict, p + ([c] + q), p, [c] + Substitute(dict, q));
    }
  }

  /** With an identity dictionary the first token is replaced by itself. */
  lemma IdentityToken(dict: map<string, string>, s: string)
    requires forall k :: k in dict ==> dict[k] == k
    requires s != []
    ensures Replacement(dict, s) == s[..TokenEnd(s)]
  {
    if !IsWordChar(s[0]) {
      assert s[..1] == [s[0]];
    }
  }

  /** A scan whose first token stays as it is and whose rest stays as it is leaves the text as it is. */
  lemma KeptStep(dict: map<string, string>, s: string)
    requires s != [] && Replacement(dict, s) == s[..TokenEnd(s)]
    requires Substitute(dict, s[TokenEnd(s)..]) == s[TokenEnd(s)..]
    ensures Substitute(dict, s) == s
  {
    TakeDrop(s, TokenEnd(s));
  }

  /** A dictionary that maps every key to itself (the empty one included) changes nothing. */
  lemma {:induction false} SubstituteIdentity(dict: map<string, string>, s: string)
    requires forall k :: k in dict ==> dict[k] == k
    ensures Substitute(dict, s) == s
    decreases |s|
  {
    if s != [] {
      SubstituteIdentity(dict, s[TokenEnd(s)..]);
      IdentityToken(dict, s);
      KeptStep(dict, s);
    }
  }

  /** Text without word characters is copied unchanged. */
  lemma {:induction false} SubstituteNoWords(dict: map<string, string>, s: string)
    requires forall k :: 0 <= k < |s| ==> !IsWordChar(s[k])
    ensures Substitute(dict, s) == s
    decreases |s|
  {
    if s != [] {
      assert forall k :: 0 <= k < |s[1..]| ==> s[1..][k] == s[k + 1];
      SubstituteNoWords(dict, s[1..]);
      assert s == [s[0]] + s[1..];
    }
  }
}
