/**
 * The cases of the unit test of `parse_id`. The accepted URLs are written as
 * the concatenation of their parts, so that "https://" + "www." + SiteHost +
 * ComicDir + "12345" is "https://www.manhuagui.com/comic/12345".
 */
module ComicIdExamples {
  import opened Wrappers
  import opened Chars
  import opened ComicId

  /** "12345" is read as the number 12345, which fits a `usize`. */
  lemma DigitsValue()
    ensures UsizeOf("12345") == Some(12345)
  {
    var d := "12345";
    assert d[..4] == "1234" && "1234"[..3] == "123" && "123"[..2] == "12" && "12"[..1] == "1" && "1"[..0] == "";
  }

  /** A scheme and a subdomain in front of "manhuagui.com/comic/" form a comic URL prefix. */
  lemma ComicUrl(scheme: string, sub: string)
    requires scheme == "http://" || scheme == "https://"
    requires IsSubdomain(sub)
    ensures IsComicUrlPrefix(scheme + sub + SiteHost + ComicDir)
  {
    var p := scheme + sub + SiteHost + ComicDir;
    assert p[..|scheme|] == scheme;
    assert p[|scheme|..|p| - |ComicDir| - |SiteHost|] == sub;
    assert p[|p| - |ComicDir| - |SiteHost|..|p| - |ComicDir|] == SiteHost;
    assert p[|p| - |ComicDir|..] == ComicDir;
    assert IsComicUrlWith(p, scheme);
  }

  /** The id after the comic URL prefix `scheme + sub + SiteHost + ComicDir` is read, whatever follows a non-digit. */
  lemma UrlId(scheme: string, sub: string, t: string)
    requires scheme == "http://" || scheme == "https://"
    requires IsSubdomain(sub)
    requires t == [] || !IsDigit(t[0])
    ensures ParseId(scheme + sub + SiteHost + ComicDir + "12345" + t) == Some(12345)
  {
    ComicUrl(scheme, sub);
    ParseIdUrl(scheme + sub + SiteHost + ComicDir, "12345", t);
    DigitsValue();
  }

  /** Subdomains of the test URLs. */
  lemma TestSubdomains()
    ensures IsSubdomain("www.") && IsSubdomain("m.") && IsSubdomain("tw.")
  {
  }

  lemma BareId()
    ensures ParseId("12345") == Some(12345)
  {
    ParseIdDigits("12345", "");
    assert "12345" + "" == "12345";
    DigitsValue();
  }

  lemma WebUrls()
    ensures ParseId("https://" + "www." + SiteHost + ComicDir + "12345") == Some(12345)
    ensures ParseId("http://" + "www." + SiteHost + ComicDir + "12345") == Some(12345)
  {
    TestSubdomains();
    UrlId("https://", "www.", "");
    UrlId("http://", "www.", "");
    assert "https://" + "www." + SiteHost + ComicDir + "12345" + "" == "https://" + "www." + SiteHost + ComicDir + "12345";
    assert "http://" + "www." + SiteHost + ComicDir + "12345" + "" == "http://" + "www." + SiteHost + ComicDir + "12345";
  }

  lemma TrailingSlash()
    ensures ParseId("https://" + "www." + SiteHost + ComicDir + "12345" + "/") == Some(12345)
  {
    TestSubdomains();
    UrlId("https://", "www.", "/");
  }

  lemma OtherSubdomains()
    ensures ParseId("https://" + "m." + SiteHost + ComicDir + "12345") == Some(12345)
    ensures ParseId("https://" + "tw." + SiteHost + ComicDir + "12345") == Some(12345)
  {
    TestSubdomains();
    UrlId("https://", "m.", "");
    UrlId("https://", "tw.", "");
    assert "https://" + "m." + SiteHost + ComicDir + "12345" + "" == "https://" + "m." + SiteHost + ComicDir + "12345";
    assert "https://" + "tw." + SiteHost + ComicDir + "12345" + "" == "https://" + "tw." + SiteHost + ComicDir + "12345";
  }

  /** Another host is not a comic URL: its host run "google.com" stops before "manhuagui.com" could fit. */
  lemma OtherHostNoPrefix()
    ensures UrlPrefixLength("https://google.com/comic/12345") == None
  {
    var s := "https://google.com/comic/12345";
    assert s[..8] == "https://";
    assert s[18] == '/';
  }

  /** Without a comic URL prefix, the text does not start with a digit. */
  lemma OtherHostRejected()
    ensures ParseId("https://google.com/comic/12345") == None
  {
    OtherHostNoPrefix();
    RunEndUnique("https://google.com/comic/12345", 0, IsDigit, 0);
  }

  lemma NonDigitsRejected()
    ensures ParseId("abcde") == None
    ensures ParseId("") == None
  {
    NoScheme("abcde");
    RunEndUnique("abcde", 0, IsDigit, 0);
  }
}
