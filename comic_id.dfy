/**
 * `parse_id`: the pattern `^(?:https?://(?:[\w\.]+\.)?manhuagui\.com/comic/)?(\d+)`
 * written as a hand parser, followed by `str::parse::<usize>()` on the digits.
 */
module ComicId {
  import opened Wrappers
  import opened Chars
  import opened Numerals

  /** `usize::MAX` on a 64-bit target; `parse` fails (giving None) above it. */
  const UsizeMax: nat := 0xFFFF_FFFF_FFFF_FFFF

  const SiteHost: string := "manhuagui.com"
  const ComicDir: string := "/comic/"

  /** The optional group `(?:[\w\.]+\.)?`: empty, or at least one host character followed by a dot. */
  predicate IsSubdomain(sub: string) {
    sub == [] || (|sub| >= 2 && sub[|sub| - 1] == '.' && forall k :: 0 <= k < |sub| ==> IsHostChar(sub[k]))
  }

  /** `p` is `scheme`, then a subdomain, then "manhuagui.com", then "/comic/". */
  predicate IsComicUrlWith(p: string, scheme: string) {
    && |p| >= |scheme| + |SiteHost| + |ComicDir|
    && p[..|scheme|] == scheme
    && IsSubdomain(p[|scheme|..|p| - |ComicDir| - |SiteHost|])
    && p[|p| - |ComicDir| - |SiteHost|..|p| - |ComicDir|] == SiteHost
    && p[|p| - |ComicDir|..] == ComicDir
  }

  /** Reference definition: `p` is a whole match of `https?://(?:[\w\.]+\.)?manhuagui\.com/comic/`. */
  predicate IsComicUrlPrefix(p: string) {
    IsComicUrlWith(p, "http://") || IsComicUrlWith(p, "https://")
  }

  /** No text starts with both "http://" and "https://": their fifth characters differ. */
  lemma SchemesExclusive(s: string)
    requires StartsWith(s, "http://")
    ensures !StartsWith(s, "https://")
  {
    assert s[4] == s[..7][4] == ':';
    if |s| >= 8 {
      assert s[..8][4] == s[4];
    }
  }

  /** The length of the `https?://` at the start of `s`, or 0 when there is none. */
  function SchemeLength(s: string): (n: nat)
    ensures n == 0 || n == 7 || n == 8
    ensures n == 7 <==> StartsWith(s, "http://")
    ensures n == 8 <==> StartsWith(s, "https://")
  {
    if StartsWith(s, "http://") then
      SchemesExclusive(s);
      7
    else if StartsWith(s, "https://") then 8
    else 0
  }

  /**
   * The host run that ends at `h` (and starts at `sch`) is "manhuagui.com",
   * alone or after a subdomain of at least two characters.
   */
  predicate HostMatches(s: string, sch: nat, h: nat) {
    && sch + |SiteHost| <= h <= |s|
    && s[h - |SiteHost|..h] == SiteHost
    && (h == sch + |SiteHost| || (h >= sch + |SiteHost| + 2 && s[h - |SiteHost| - 1] == '.'))
  }

  /**
   * The parser for the optional URL prefix: the host is the longest run of
   * `[\w\.]` after the scheme (it has to stop at the '/' of "/comic/"), and it
   * must be "manhuagui.com" or a subdomain followed by it.
   */
  function UrlPrefixLength(s: string): (r: Option<nat>)
    ensures r.Some? ==> r.value <= |s| && IsComicUrlPrefix(s[..r.value])
  {
    var sch := SchemeLength(s);
    if sch == 0 then None
    else
      var h := RunEnd(s, sch, IsHostChar);
      if HostMatches(s, sch, h) && StartsWith(s[h..], ComicDir) then
        PrefixSound(s, sch, h);
        Some(h + |ComicDir|)
      else None
  }

  /** What UrlPrefixLength checks is what the reference definition asks for. */
  lemma PrefixSound(s: string, sch: nat, h: nat)
    requires sch == SchemeLength(s) && sch > 0
    requires h == RunEnd(s, sch, IsHostChar)
    requires HostMatches(s, sch, h) && StartsWith(s[h..], ComicDir)
    ensures h + |ComicDir| <= |s|
    ensures IsComicUrlPrefix(s[..h + |ComicDir|])
  {
    var scheme := if sch == 8 then "https://" else "http://";
    SubdomainOfHostRun(s, sch, h);
    PrefixSoundWith(s, scheme, h);
  }

  /** PrefixSound for one scheme. */
  lemma PrefixSoundWith(s: string, scheme: string, h: nat)
    requires StartsWith(s, scheme)
    requires HostMatches(s, |scheme|, h) && IsSubdomain(s[|scheme|..h - |SiteHost|])
    requires StartsWith(s[h..], ComicDir)
    ensures h + |ComicDir| <= |s|
    ensures IsComicUrlWith(s[..h + |ComicDir|], scheme)
  {
    var k := h + |ComicDir|;
    var m := h - |SiteHost|;
    SchemeOfCut(s, k, scheme);
    HostOfCut(s, k, |scheme|, h);
    DirOfCut(s, k, h);
    ComicUrlOfParts(s[..k], scheme, m, h);
  }

  /** A cut of `s` past its scheme still starts with the scheme. */
  lemma SchemeOfCut(s: string, k: nat, scheme: string)
    requires StartsWith(s, scheme) && |scheme| <= k <= |s|
    ensures s[..k][..|scheme|] == scheme
  {
    TakeOfPrefix(s, k, |scheme|);
  }

  /** A cut of `s` past a matching host run keeps the subdomain and "manhuagui.com". */
  lemma HostOfCut(s: string, k: nat, sch: nat, h: nat)
    requires HostMatches(s, sch, h) && IsSubdomain(s[sch..h - |SiteHost|]) && h <= k <= |s|
    ensures IsSubdomain(s[..k][sch..h - |SiteHost|])
    ensures s[..k][h - |SiteHost|..h] == SiteHost
  {
    SliceOfPrefix(s, k, h - |SiteHost|, h);
    SliceOfPrefix(s, k, sch, h - |SiteHost|);
  }

  /** A cut of `s` right after "/comic/" ends with "/comic/". */
  lemma DirOfCut(s: string, k: nat, h: nat)
    requires h <= |s| && StartsWith(s[h..], ComicDir) && k == h + |ComicDir|
    ensures s[..k][h..] == ComicDir
  {
    assert s[..k][h..] == s[h..][..|ComicDir|];
  }

  /** The pieces of a comic URL prefix, with their boundaries named. */
  lemma ComicUrlOfParts(p: string, scheme: string, m: nat, h: nat)
    requires |p| == h + |ComicDir| && |scheme| <= m && m + |SiteHost| == h
    requires p[..|scheme|] == scheme && IsSubdomain(p[|scheme|..m])
    requires p[m..h] == SiteHost && p[h..] == ComicDir
    ensures IsComicUrlWith(p, scheme)
  {
  }

  /** The part of a matching host run in front of "manhuagui.com" is a subdomain. */
  lemma SubdomainOfHostRun(s: string, sch: nat, h: nat)
    requires sch <= |s| && h == RunEnd(s, sch, IsHostChar)
    requires HostMatches(s, sch, h)
    ensures IsSubdomain(s[sch..h - |SiteHost|])
  {
    var sub := s[sch..h - |SiteHost|];
    assert forall j :: 0 <= j < |sub| ==> sub[j] == s[sch + j];
  }

  /** The scheme of a comic URL prefix is recognised in front of any text. */
  lemma SchemeOfPrefix(p: string, scheme: string, t: string)
    requires scheme == "http://" || scheme == "https://"
    requires IsComicUrlWith(p, scheme)
    ensures SchemeLength(p + t) == |scheme|
  {
    var s := p + t;
    assert s[..|scheme|] == scheme;
    if scheme == "http://" {
      assert s[4] == ':';
      assert !StartsWith(s, "https://") by {
        if |s| >= 8 {
          assert s[..8][4] == s[4];
        }
      }
    }
  }

  /** The characters of "manhuagui.com" are host characters, and "/comic/" starts with one that is not. */
  lemma TailChars()
    ensures forall j :: 0 <= j < |SiteHost| ==> IsHostChar(SiteHost[j])
    ensures ComicDir[0] == '/' && !IsHostChar(ComicDir[0])
  {
  }

  /** Text equal to "manhuagui.com" consists of host characters. */
  lemma SiteHostChars(host: string)
    requires host == SiteHost
    ensures forall j :: 0 <= j < |host| ==> IsHostChar(host[j])
  {
    TailChars();
  }

  /** In a comic URL prefix, the host characters run from the scheme to the '/' of "/comic/". */
  lemma HostCharsOfPrefix(p: string, scheme: string)
    requires IsComicUrlWith(p, scheme)
    ensures forall k :: |scheme| <= k < |p| - |ComicDir| ==> IsHostChar(p[k])
    ensures !IsHostChar(p[|p| - |ComicDir|])
  {
    var h := |p| - |ComicDir|;
    var m := h - |SiteHost|;
    var sub := p[|scheme|..m];
    var host := p[m..h];
    TailChars();
    SiteHostChars(host);
    forall k | |scheme| <= k < h
      ensures IsHostChar(p[k])
    {
      if k < m {
        assert p[k] == sub[k - |scheme|];
      } else {
        assert p[k] == host[k - m];
      }
    }
    assert p[h] == p[h..][0];
  }

  /** In a comic URL prefix followed by anything, the host run ends right before "/comic/". */
  lemma HostRunOfPrefix(p: string, scheme: string, t: string)
    requires IsComicUrlWith(p, scheme)
    ensures RunEnd(p + t, |scheme|, IsHostChar) == |p| - |ComicDir|
  {
    var s := p + t;
    HostCharsOfPrefix(p, scheme);
    assert forall k :: 0 <= k < |p| ==> s[k] == p[k];
    RunEndUnique(s, |scheme|, IsHostChar, |p| - |ComicDir|);
  }

  /** Every match of the URL prefix is found by the parser, whatever follows it. */
  lemma PrefixComplete(p: string, t: string)
    requires IsComicUrlPrefix(p)
    ensures UrlPrefixLength(p + t) == Some(|p|)
  {
    var s := p + t;
    var scheme := if IsComicUrlWith(p, "https://") then "https://" else "http://";
    SchemeOfPrefix(p, scheme, t);
    HostRunOfPrefix(p, scheme, t);
    var h := |p| - |ComicDir|;
    SliceOfConcat(p, t, h - |SiteHost|, h);
    var sub := p[|scheme|..h - |SiteHost|];
    if sub != [] {
      assert s[h - |SiteHost| - 1] == sub[|sub| - 1];
    }
    assert HostMatches(s, |scheme|, h);
    assert s[h..][..|ComicDir|] == p[h..];
  }

  /** The digits of a match start at `k` and end at `e`, as far as they go. */
  predicate DigitsAt(s: string, k: nat, e: nat) {
    && k < e <= |s|
    && (forall j :: k <= j < e ==> IsDigit(s[j]))
    && (e == |s| || !IsDigit(s[e]))
  }

  /** Where the capture group `(\d+)` is tried: after the URL prefix when a digit follows it, else at 0. */
  function IdStart(s: string): (k: nat)
    ensures k <= |s|
    ensures k == 0 || IsComicUrlPrefix(s[..k])
  {
    match UrlPrefixLength(s)
    case Some(k) => if k < |s| && IsDigit(s[k]) then k else 0
    case None => 0
  }

  /** `parse_id`: the leading digits (after an optional comic URL), as a `usize`. */
  function ParseId(s: string): (r: Option<nat>)
    ensures r.Some? ==> r.value <= UsizeMax
  {
    var k := IdStart(s);
    var e := RunEnd(s, k, IsDigit);
    if e == k then None
    else
      var v := ValueOf(s[k..e], 10);
      if v <= UsizeMax then Some(v) else None
  }

  /** Text that does not start with 'h' has no scheme. */
  lemma NoScheme(s: string)
    requires s != [] && s[0] != 'h'
    ensures SchemeLength(s) == 0
  {
    if |s| >= 7 {
      assert s[..7][0] != "http://"[0];
    }
    if |s| >= 8 {
      assert s[..8][0] != "https://"[0];
    }
  }

  /** The value that `parse::<usize>` gives for a run of decimal digits. */
  function UsizeOf(d: string): (r: Option<nat>)
    requires forall j :: 0 <= j < |d| ==> IsDigit(d[j])
    ensures r.Some? <==> ValueOf(d, 10) <= UsizeMax
    ensures r.Some? ==> r.value == ValueOf(d, 10)
  {
    var v := ValueOf(d, 10);
    if v <= UsizeMax then Some(v) else None
  }

  /** Digits `d` at index `k` of `s`, not followed by a digit, are what ParseId reads there. */
  lemma DigitsRead(s: string, k: nat, d: string, t: string)
    requires d != [] && forall j :: 0 <= j < |d| ==> IsDigit(d[j])
    requires t == [] || !IsDigit(t[0])
    requires k <= |s| && s[k..] == d + t
    ensures RunEnd(s, k, IsDigit) == k + |d| && s[k..k + |d|] == d
  {
    forall j | k <= j < k + |d|
      ensures IsDigit(s[j])
    {
      assert s[j] == s[k..][j - k];
    }
    if t != [] {
      assert s[k + |d|] == s[k..][|d|];
    }
    RunEndUnique(s, k, IsDigit, k + |d|);
    assert s[k..k + |d|] == s[k..][..|d|];
  }

  /** Bare leading digits are the id; whatever follows them is ignored. */
  lemma ParseIdDigits(d: string, t: string)
    requires d != [] && forall j :: 0 <= j < |d| ==> IsDigit(d[j])
    requires t == [] || !IsDigit(t[0])
    ensures ParseId(d + t) == UsizeOf(d)
  {
    var s := d + t;
    assert s[0] == d[0];
    NoScheme(s);
    assert s[0..] == s;
    DigitsRead(s, 0, d, t);
  }

  /** A comic URL followed by digits gives those digits; a trailing slash or other text is ignored. */
  lemma ParseIdUrl(p: string, d: string, t: string)
    requires IsComicUrlPrefix(p)
    requires d != [] && forall j :: 0 <= j < |d| ==> IsDigit(d[j])
    requires t == [] || !IsDigit(t[0])
    ensures ParseId(p + d + t) == UsizeOf(d)
  {
    var s := p + (d + t);
    assert p + d + t == s;
    PrefixComplete(p, d + t);
    assert s[|p|..] == d + t;
    assert s[|p|] == d[0];
    ParseIdAt(s, |p|, d, t);
  }

  /** When the capture starts at `k` and digits `d` are there, not followed by a digit, they are the id. */
  lemma ParseIdAt(s: string, k: nat, d: string, t: string)
    requires k <= |s| && IdStart(s) == k && s[k..] == d + t
    requires d != [] && forall j :: 0 <= j < |d| ==> IsDigit(d[j])
    requires t == [] || !IsDigit(t[0])
    ensures ParseId(s) == UsizeOf(d)
  {
    DigitsRead(s, k, d, t);
  }

  /**
   * Whatever `parse_id` accepts is a run of digits at the very start, or right
   * after a comic URL prefix; its value is the id.
   */
  lemma ParseIdSound(s: string)
    ensures ParseId(s).Some? ==>
      exists k: nat, e: nat :: DigitsAt(s, k, e) && (k == 0 || IsComicUrlPrefix(s[..k])) && ParseId(s).value == ValueOf(s[k..e], 10)
  {
    if ParseId(s).Some? {
      var k := IdStart(s);
      var e := RunEnd(s, k, IsDigit);
      assert DigitsAt(s, k, e);
    }
  }

  /** Text that starts with neither a digit nor a comic URL prefix is rejected. */
  lemma ParseIdRejects(s: string)
    requires s == [] || !IsDigit(s[0])
    requires forall k :: 0 < k <= |s| ==> !IsComicUrlPrefix(s[..k])
    ensures ParseId(s) == None
  {
    ParseIdSound(s);
  }
}
