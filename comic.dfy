/**
 * The `Comic` object: its construction (`Comic::new`), the catalogue it loads
 * (`load_metadata`) and the download of one chapter (`download_chapter`) up to
 * the point where the images are staged in the chapter's folder.
 */
module Comics {
  import opened Wrappers
  import opened Chars
  import opened Numerals
  import opened ComicId
  import opened Naming
  import opened Staging

  /** The site the catalogue pages come from. */
  const SiteRoot: string := "https://" + "tw." + SiteHost

  /** `format!("{}/comic/{}", host, id)`: the catalogue page of a comic. */
  function CatalogUrl(host: string, id: nat): string {
    host + ComicDir + Numeral(id, 10)
  }

  /** The catalogue page of a comic on the site is itself a URL that `parse_id` reads back as the comic's id. */
  lemma CatalogUrlRoundTrip(id: nat)
    requires id <= UsizeMax
    ensures ParseId(CatalogUrl(SiteRoot, id)) == Some(id)
  {
    var p := "https://" + "tw." + SiteHost + ComicDir;
    assert IsSubdomain("tw.");
    assert IsComicUrlPrefix(p) by {
      assert p[..8] == "https://";
      assert p[8..|p| - |ComicDir| - |SiteHost|] == "tw.";
      assert p[|p| - |ComicDir| - |SiteHost|..|p| - |ComicDir|] == SiteHost;
      assert p[|p| - |ComicDir|..] == ComicDir;
      assert IsComicUrlWith(p, "https://");
    }
    DecimalDigits(id);
    NumeralValue(id, 10);
    ParseIdUrl(p, Numeral(id, 10), "");
    assert CatalogUrl(SiteRoot, id) == p + Numeral(id, 10) + "";
  }

  /** A `.chapter-list ul a` element: its `title` and `href` attributes, either of which may be missing. */
  datatype Anchor = Anchor(title: Option<string>, href: Option<string>)

  /** What `load_metadata` takes from the catalogue page: the `.book-title h1` text, if any, and the chapter anchors in page order. */
  datatype CatalogPage = CatalogPage(heading: Option<string>, anchors: seq<Anchor>)

  /** A chapter: its name and the path of its page. */
  datatype ChapterRef = ChapterRef(name: string, href: string)

  /** `attr("title").unwrap_or("")` and `attr("href").unwrap_or("")`. */
  function ChapterOf(a: Anchor): (c: ChapterRef)
    ensures a.title.Some? ==> c.name == a.title.value
    ensures a.title.None? ==> c.name == ""
    ensures a.href.Some? ==> c.href == a.href.value
    ensures a.href.None? ==> c.href == ""
  {
    ChapterRef(a.title.GetOr(""), a.href.GetOr(""))
  }

  /** The chapters of a page, last anchor first (the page lists the newest chapter first). */
  function ChapterList(anchors: seq<Anchor>): (cs: seq<ChapterRef>)
    ensures |cs| == |anchors|
    ensures forall k :: 0 <= k < |cs| ==> cs[k] == ChapterOf(anchors[|anchors| - 1 - k])
  {
    if anchors == [] then [] else ChapterList(anchors[1..]) + [ChapterOf(anchors[0])]
  }

  /** The title: the heading of the page, or the decimal id when the page has none. */
  function TitleOf(page: CatalogPage, id: nat): string {
    match page.heading
    case Some(t) => t
    case None => Numeral(id, 10)
  }

  /** Without a heading, the title is the id in decimal: digits only, reading back as the id. */
  lemma TitleFallback(page: CatalogPage, id: nat)
    requires page.heading.None?
    ensures forall k :: 0 <= k < |TitleOf(page, id)| ==> IsDigit(TitleOf(page, id)[k])
    ensures ValueOf(TitleOf(page, id), 10) == id
  {
    DecimalDigits(id);
    NumeralValue(id, 10);
  }

  /** The paths that exist on disk. */
  class FileSystem {
    var paths: set<string>

    constructor (initial: set<string>)
      ensures paths == initial
    {
      paths := initial;
    }

    /** `File::create`: the path exists afterwards (an existing file is truncated). */
    method Create(p: string)
      modifies this
      ensures paths == old(paths) + {p}
    {
      paths := paths + {p};
    }

    /** `fs::rename`: the old name is gone and the new one exists (replacing whatever had that name). */
    method Rename(from: string, to: string)
      modifies this
      ensures paths == old(paths) - {from} + {to}
    {
      paths := paths - {from} + {to};
    }
  }

  /** The downloader's state for one comic. */
  class Comic {
    const host: string
    const tunnel: string
    const delayMs: nat
    const skip: bool
    const outputDir: string
    var title: string
    var chapters: seq<ChapterRef>

    /** The fields `Comic::new` sets before it loads the catalogue. */
    constructor (tunnelIndex: nat, delayMs: nat, skip: bool, outputDir: string)
      ensures host == SiteRoot && tunnel == TunnelUrl(tunnelIndex)
      ensures this.delayMs == delayMs && this.skip == skip && this.outputDir == outputDir
      ensures title == "" && chapters == []
    {
      host := SiteRoot;
      tunnel := TunnelUrl(tunnelIndex);
      this.delayMs := delayMs;
      this.skip := skip;
      this.outputDir := outputDir;
      title := "";
      chapters := [];
    }

    /**
     * `load_metadata`: `page` is the catalogue page fetched from `url`, or the
     * error of fetching it. The title is set, and the chapters are appended
     * from the last anchor to the first.
     */
    method LoadMetadata(id: nat, page: Result<CatalogPage, AppError>) returns (url: string, r: Result<(), AppError>)
      modifies this
      ensures url == CatalogUrl(host, id)
      ensures page.Err? ==> r == Err(page.error) && title == old(title) && chapters == old(chapters)
      ensures page.Ok? ==> r == Ok(()) && title == TitleOf(page.value, id)
      ensures page.Ok? ==> chapters == old(chapters) + ChapterList(page.value.anchors)
    {
      url := CatalogUrl(host, id);
      if page.Err? {
        return url, Err(page.error);
      }
      var anchors := page.value.anchors;
      title := TitleOf(page.value, id);
      for k := |anchors| downto 0
        invariant chapters == old(chapters) + ChapterList(anchors[k..])
        invariant title == TitleOf(page.value, id)
      {
        assert anchors[k..][1..] == anchors[k + 1..];
        chapters := chapters + [ChapterOf(anchors[k])];
      }
      assert anchors[0..] == anchors;
      r := Ok(());
    }

    /** `Comic::new`: the fields, then the catalogue; a failure to load it is the failure of `new`. */
    static method New(id: nat, tunnelIndex: nat, delayMs: nat, skip: bool, outputDir: string, page: Result<CatalogPage, AppError>)
      returns (r: Result<Comic, AppError>)
      ensures page.Err? <==> r.Err?
      ensures page.Err? ==> r.error == page.error
      ensures r.Ok? ==> fresh(r.value) && r.value.host == SiteRoot && r.value.tunnel == TunnelUrl(tunnelIndex)
      ensures r.Ok? ==> r.value.delayMs == delayMs && r.value.skip == skip && r.value.outputDir == outputDir
      ensures r.Ok? ==> r.value.title == TitleOf(page.value, id) && r.value.chapters == ChapterList(page.value.anchors)
    {
      var c := new Comic(tunnelIndex, delayMs, skip, outputDir);
      var _, loaded := c.LoadMetadata(id, page);
      if loaded.Err? {
        return Err(loaded.error);
      }
      return Ok(c);
    }

    /** The staging folder of chapter `index`. */
    function FolderOf(index: nat): string
      reads this
      requires index < |chapters|
    {
      StagingFolder(outputDir, title, chapters[index].name)
    }

    /** The archive of chapter `index`. */
    function ArchiveOf(index: nat): string
      reads this
      requires index < |chapters|
    {
      ArchivePath(outputDir, title, chapters[index].name)
    }

    /** What the image loop of chapter `index` works on, given the chapter's image list. */
    function JobOf(index: nat, m: Manifest): Job
      reads this
      requires index < |chapters|
    {
      Job(tunnel, FolderOf(index), skip, m)
    }

    /**
     * `download_chapter` up to the archive step. `manifest` is what
     * `get_chapter` gives for the chapter's page, `folderMade` whether
     * `create_dir_all` succeeds, `transfer` how each image transfer ends.
     * Returns the outcome and the image requests sent, in order.
     */
    method DownloadChapter(index: nat, fs: FileSystem, manifest: Result<Manifest, AppError>, folderMade: bool, transfer: nat -> Transfer)
      returns (r: Result<(), AppError>, requests: seq<Request>)
      requires index < |chapters|
      modifies fs
      ensures skip && ArchiveOf(index) in old(fs.paths) ==> r == Ok(()) && requests == [] && fs.paths == old(fs.paths)
      ensures !(skip && ArchiveOf(index) in old(fs.paths)) && manifest.Err? ==>
        r == Err(manifest.error) && requests == [] && fs.paths == old(fs.paths)
      ensures !(skip && ArchiveOf(index) in old(fs.paths)) && manifest.Ok? && !folderMade ==>
        r == Err(Io) && requests == [] && fs.paths == old(fs.paths)
      ensures !(skip && ArchiveOf(index) in old(fs.paths)) && manifest.Ok? && folderMade ==>
        var run := Stage(JobOf(index, manifest.value), transfer, 0, old(fs.paths));
        && fs.paths == run.paths
        && requests == run.requests
        && r == (if run.outcome.Done? then Ok(()) else Err(run.outcome.error))
    {
      requests := [];
      var zip := ArchivePath(outputDir, title, chapters[index].name);
      if skip && zip in fs.paths {
        return Ok(()), requests;
      }
      if manifest.Err? {
        return Err(manifest.error), requests;
      }
      var m := manifest.value;
      var folder := StagingFolder(outputDir, title, chapters[index].name);
      if !folderMade {
        return Err(Io), requests;
      }
      var job := Job(tunnel, folder, skip, m);
      ghost var start := fs.paths;
      var i := 0;
      while i < |m.files|
        invariant i <= |m.files|
        invariant Stage(job, transfer, 0, start) == After(requests, Stage(job, transfer, i, fs.paths))
        decreases |m.files| - i
      {
        var dst := Destination(folder, i, m.files[i]);
        var part := PartPath(dst);
        if skip && dst in fs.paths {
          i := i + 1;
        } else {
          ghost var before := fs.paths;
          var e := QueryE(m.sl.e);
          if e.None? {
            return Err(ContentParsing(BadSlE)), requests;
          }
          var req := Request(i, tunnel + m.path + m.files[i], e.value, m.sl.m);
          ghost var sent := requests;
          requests := requests + [req];
          match transfer(i)
          case SendFails =>
            return Err(Reqwest), requests;
          case CreateFails =>
            return Err(Io), requests;
          case CopyFails =>
            fs.Create(part);
            return Err(Io), requests;
          case RenameFails =>
            fs.Create(part);
            return Err(Io), requests;
          case Completes =>
            fs.Create(part);
            fs.Rename(part, dst);
            assert fs.paths == Advance(job, i, before);
            StageCompletes(job, transfer, i, before, e.value);
            AfterAfter(sent, [req], Stage(job, transfer, i + 1, fs.paths));
            i := i + 1;
        }
      }
      r := Ok(());
    }
  }
}
