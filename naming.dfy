/**
 * Names and paths of `download_chapter` and the image host of `Comic::new`:
 * the sanitised book and chapter names, the archive path, the staging folder,
 * each image's destination `folder/i_file` and its ".part" sibling.
 */
module Naming {
  import opened Chars
  import opened Numerals

  /** The class `[\/:*?"<>|]`: characters that may not appear in a file name. */
  predicate IsIllegal(ch: char) {
    ch == '/' || ch == ':' || ch == '*' || ch == '?' || ch == '"' || ch == '<' || ch == '>' || ch == '|'
  }

  /** No character of `s` is illegal in a file name. */
  predicate IsClean(s: string) {
    forall k :: 0 <= k < |s| ==> !IsIllegal(s[k])
  }

  /** `illegal.replace_all(s, "_")`: every illegal character becomes '_', everything else is kept. */
  function Sanitize(s: string): (r: string)
    ensures |r| == |s|
    ensures forall k :: 0 <= k < |s| ==> r[k] == if IsIllegal(s[k]) then '_' else s[k]
  {
    if s == [] then []
    else [if IsIllegal(s[0]) then '_' else s[0]] + Sanitize(s[1..])
  }

  /** A sanitised name holds no illegal character. */
  lemma SanitizeClean(s: string)
    ensures IsClean(Sanitize(s))
  {
  }

  /** A name without illegal characters is kept as it is. */
  lemma SanitizeKeepsClean(s: string)
    requires IsClean(s)
    ensures Sanitize(s) == s
  {
  }

  /** Sanitising twice is sanitising once. */
  lemma SanitizeIdempotent(s: string)
    ensures Sanitize(Sanitize(s)) == Sanitize(s)
  {
    SanitizeClean(s);
    SanitizeKeepsClean(Sanitize(s));
  }

  /** `format!("{}/{}/{}", output_dir, book_safe, chap_safe)`: where the images of a chapter are staged. */
  function StagingFolder(outputDir: string, book: string, chapter: string): (folder: string)
    ensures |folder| == |outputDir| + |book| + |chapter| + 2
  {
    outputDir + "/" + Sanitize(book) + "/" + Sanitize(chapter)
  }

  /** `format!("{}/{}/{}.zip", output_dir, book_safe, chap_safe)`: the archive of a chapter. */
  function ArchivePath(outputDir: string, book: string, chapter: string): (zip: string)
    ensures |zip| == |outputDir| + |book| + |chapter| + 6
  {
    outputDir + "/" + Sanitize(book) + "/" + Sanitize(chapter) + ".zip"
  }

  /** The archive is the staging folder's name with ".zip" appended. */
  lemma ArchiveBesideFolder(outputDir: string, book: string, chapter: string)
    ensures ArchivePath(outputDir, book, chapter) == StagingFolder(outputDir, book, chapter) + ".zip"
  {
  }

  /** `format!("{}/{}_{}", folder, i, file)`: the index is written in decimal, not padded. */
  function Destination(folder: string, i: nat, file: string): (dst: string)
    ensures |dst| == |folder| + |Numeral(i, 10)| + |file| + 2
  {
    folder + "/" + Numeral(i, 10) + "_" + file
  }

  /** `format!("{}.part", dst)`: the name an image is written under until it is complete. */
  function PartPath(dst: string): (part: string)
    ensures |part| == |dst| + 5
  {
    dst + ".part"
  }

  /** The decimal numeral of a number is made of digits. */
  lemma DecimalDigits(i: nat)
    ensures forall k :: 0 <= k < |Numeral(i, 10)| ==> IsDigit(Numeral(i, 10)[k])
  {
  }

  /** In a destination, the digits after "folder/" are exactly the index's numeral. */
  lemma DestinationIndexRun(folder: string, i: nat, file: string)
    ensures var dst, start := Destination(folder, i, file), |folder| + 1;
      && RunEnd(dst, start, IsDigit) == start + |Numeral(i, 10)|
      && dst[start..start + |Numeral(i, 10)|] == Numeral(i, 10)
      && dst[start + |Numeral(i, 10)| + 1..] == file
  {
    var n := Numeral(i, 10);
    var dst := Destination(folder, i, file);
    var start := |folder| + 1;
    DecimalDigits(i);
    assert dst == (folder + "/") + n + ("_" + file);
    forall k | start <= k < start + |n|
      ensures IsDigit(dst[k])
    {
      assert dst[k] == n[k - start];
    }
    assert dst[start + |n|] == '_';
    RunEndUnique(dst, start, IsDigit, start + |n|);
  }

  /** Two images of one folder share a destination only when index and file name are the same. */
  lemma DestinationInjective(folder: string, i: nat, fi: string, j: nat, fj: string)
    requires Destination(folder, i, fi) == Destination(folder, j, fj)
    ensures i == j && fi == fj
  {
    DestinationIndexRun(folder, i, fi);
    DestinationIndexRun(folder, j, fj);
    NumeralInjective(i, j, 10);
  }

  /** The ".part" sibling of a destination is itself the destination of the same index with ".part" added to the file name. */
  lemma PartIsDestination(folder: string, i: nat, file: string)
    ensures PartPath(Destination(folder, i, file)) == Destination(folder, i, file + ".part")
  {
  }

  /**
   * The destinations and ".part" siblings of different images never coincide,
   * and no destination is the ".part" sibling of an image with another index
   * or of itself.
   */
  lemma StagingNamesDistinct(folder: string, i: nat, fi: string, j: nat, fj: string)
    ensures i != j ==> Destination(folder, i, fi) != Destination(folder, j, fj)
    ensures i != j ==> PartPath(Destination(folder, i, fi)) != PartPath(Destination(folder, j, fj))
    ensures i != j || fi == fj ==> Destination(folder, i, fi) != PartPath(Destination(folder, j, fj))
  {
    PartIsDestination(folder, i, fi);
    PartIsDestination(folder, j, fj);
    if Destination(folder, i, fi) == Destination(folder, j, fj) {
      DestinationInjective(folder, i, fi, j, fj);
    }
    if PartPath(Destination(folder, i, fi)) == PartPath(Destination(folder, j, fj)) {
      DestinationInjective(folder, i, fi + ".part", j, fj + ".part");
    }
    if Destination(folder, i, fi) == PartPath(Destination(folder, j, fj)) {
      DestinationInjective(folder, i, fi, j, fj + ".part");
    }
  }

  /** The image channels of `Comic::new`. */
  const Channels: seq<string> := ["i", "eu", "us"]

  /** `channels.get(tunnel).unwrap_or(&"i")`: an index past the list falls back to the first channel. */
  function ChannelName(tunnel: nat): (name: string)
    ensures name in Channels
    ensures tunnel < |Channels| ==> name == Channels[tunnel]
  {
    if tunnel < |Channels| then Channels[tunnel] else "i"
  }

  /** `format!("https://{}{}.hamreus.com", tn, "")`: the image host. */
  function TunnelUrl(tunnel: nat): (url: string)
  {
    "https://" + ChannelName(tunnel) + ".hamreus.com"
  }

  /** The three channels give three different hosts, and any other index gives the first channel's host. */
  lemma TunnelUrls(t: nat, u: nat)
    ensures t >= |Channels| ==> TunnelUrl(t) == TunnelUrl(0) == "https://i.hamreus.com"
    ensures t < |Channels| && u < |Channels| && t != u ==> TunnelUrl(t) != TunnelUrl(u)
  {
    if t < |Channels| && u < |Channels| && t != u {
      ChannelOfTunnelUrl(t);
      ChannelOfTunnelUrl(u);
    }
  }

  /** The channel can be read back from the host between "https://" and ".hamreus.com". */
  lemma ChannelOfTunnelUrl(t: nat)
    ensures TunnelUrl(t)[8..|TunnelUrl(t)| - 12] == ChannelName(t)
  {
  }
}
