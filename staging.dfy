/**
 * The per-image loop of `download_chapter`, as a reference definition: the
 * filesystem is the set of paths that exist, and the transfer of each image
 * (request, `File::create` of the ".part" file, `io::copy`, `fs::rename`) has
 * an outcome given from outside, since it depends on the network and the disk.
 */
module Staging {
  import opened Wrappers
  import opened Naming

  /** The errors of the downloader; the payload of a library error is left out. */
  datatype AppError =
    | InvalidUrl
    | ContentParsing(message: string)
    | Io
    | Reqwest
    | InvalidHeader
    | RangeParse
    | SerdeJson
    | Regex
    | ParseInt
    | Zip

  /** The message of the `sl.e` type check. */
  const BadSlE: string := "sl.e is not a string or number"

  /** The JSON value of `sl.e`; a number keeps the text that `Number::to_string` prints. */
  datatype JsonValue = JString(s: string) | JNumber(text: string) | JOther

  /** `Sl`: the access tokens sent with every image request. */
  datatype Sl = Sl(e: JsonValue, m: string)

  /** `ChapterStruct`: the image list of a chapter, decoded from its page. */
  datatype Manifest = Manifest(sl: Sl, path: string, files: seq<string>)

  /** The `e` query parameter: a string as it is, a number as its text, anything else refused. */
  function QueryE(e: JsonValue): (r: Option<string>)
    ensures r.None? <==> e.JOther?
  {
    match e
    case JString(s) => Some(s)
    case JNumber(text) => Some(text)
    case JOther => None
  }

  /** How the transfer of one image ends. */
  datatype Transfer =
    | SendFails     // the request fails: nothing is written
    | CreateFails   // `File::create` of the ".part" file fails
    | CopyFails     // the ".part" file exists, the body was not fully written
    | RenameFails   // the ".part" file is complete, `fs::rename` fails
    | Completes     // the ".part" file is renamed to the destination

  /** One image request: the image index, its URL and the `e` and `m` query parameters. */
  datatype Request = Request(index: nat, url: string, e: string, m: string)

  /** What the loop works on: the image host, the staging folder, the skip flag and the image list. */
  datatype Job = Job(tunnel: string, folder: string, skip: bool, chap: Manifest)

  /** Where image `k` of the job goes. */
  function Dst(job: Job, k: nat): string
    requires k < |job.chap.files|
  {
    Destination(job.folder, k, job.chap.files[k])
  }

  /** Where image `k` of the job is written until it is complete. */
  function Part(job: Job, k: nat): string
    requires k < |job.chap.files|
  {
    PartPath(Dst(job, k))
  }

  /** `format!("{}{}{}", tunnel, chap.path, file)`. */
  function ImageUrl(job: Job, k: nat): string
    requires k < |job.chap.files|
  {
    job.tunnel + job.chap.path + job.chap.files[k]
  }

  /** Image `k` is skipped when skipping is on and its destination exists. */
  predicate Skipped(job: Job, k: nat, paths: set<string>)
    requires k < |job.chap.files|
  {
    job.skip && Dst(job, k) in paths
  }

  /** The paths after image `k` was written to its ".part" file and renamed. */
  function Advance(job: Job, k: nat, paths: set<string>): (next: set<string>)
    requires k < |job.chap.files|
    ensures Dst(job, k) in next && Part(job, k) !in next
    ensures forall p :: p != Dst(job, k) && p != Part(job, k) ==> (p in next <==> p in paths)
  {
    StagingNamesDistinct(job.folder, k, job.chap.files[k], k, job.chap.files[k]);
    paths - {Part(job, k)} + {Dst(job, k)}
  }

  /** How the loop ended: after the last image, or with an error at image `index`. */
  datatype Outcome = Done | Failed(index: nat, error: AppError)

  /** The paths that exist afterwards, the requests sent in order, and how the loop ended. */
  datatype StageRun = StageRun(paths: set<string>, requests: seq<Request>, outcome: Outcome)

  /** The loop from image `k` on, starting with the paths `paths`. */
  function Stage(job: Job, transfer: nat -> Transfer, k: nat, paths: set<string>): StageRun
    requires k <= |job.chap.files|
    decreases |job.chap.files| - k
  {
    if k == |job.chap.files| then StageRun(paths, [], Done)
    else if Skipped(job, k, paths) then Stage(job, transfer, k + 1, paths)
    else match QueryE(job.chap.sl.e)
      case None => StageRun(paths, [], Failed(k, ContentParsing(BadSlE)))
      case Some(e) =>
        var req := Request(k, ImageUrl(job, k), e, job.chap.sl.m);
        match transfer(k)
        case SendFails => StageRun(paths, [req], Failed(k, Reqwest))
        case CreateFails => StageRun(paths, [req], Failed(k, Io))
        case CopyFails => StageRun(paths + {Part(job, k)}, [req], Failed(k, Io))
        case RenameFails => StageRun(paths + {Part(job, k)}, [req], Failed(k, Io))
        case Completes =>
          var rest := Stage(job, transfer, k + 1, Advance(job, k, paths));
          StageRun(rest.paths, [req] + rest.requests, rest.outcome)
  }

  /** A run of the loop with `earlier` requests already sent before it. */
  function After(earlier: seq<Request>, run: StageRun): StageRun {
    StageRun(run.paths, earlier + run.requests, run.outcome)
  }

  /** Sending `earlier` and then `more` before a run is sending `earlier + more` before it. */
  lemma AfterAfter(earlier: seq<Request>, more: seq<Request>, run: StageRun)
    ensures After(earlier, After(more, run)) == After(earlier + more, run)
  {
    assert earlier + (more + run.requests) == (earlier + more) + run.requests;
  }

  /** An image whose transfer completes is requested, then the loop goes on from the next image with the advanced paths. */
  lemma StageCompletes(job: Job, transfer: nat -> Transfer, k: nat, paths: set<string>, e: string)
    requires k < |job.chap.files| && !Skipped(job, k, paths)
    requires QueryE(job.chap.sl.e) == Some(e) && transfer(k) == Completes
    ensures Stage(job, transfer, k, paths)
      == After([Request(k, ImageUrl(job, k), e, job.chap.sl.m)], Stage(job, transfer, k + 1, Advance(job, k, paths)))
  {
  }

  /** `p` is the destination or the ".part" file of an image from `k` on. */
  predicate Touched(job: Job, k: nat, p: string) {
    exists j :: k <= j < |job.chap.files| && (p == Dst(job, j) || p == Part(job, j))
  }

  /** What image `k` touches is touched by no later image. */
  lemma UntouchedLater(job: Job, k: nat)
    requires k < |job.chap.files|
    ensures !Touched(job, k + 1, Dst(job, k)) && !Touched(job, k + 1, Part(job, k))
  {
    forall j | k + 1 <= j < |job.chap.files|
      ensures Dst(job, k) != Dst(job, j) && Dst(job, k) != Part(job, j)
      ensures Part(job, k) != Dst(job, j) && Part(job, k) != Part(job, j)
    {
      StagingNamesDistinct(job.folder, k, job.chap.files[k], j, job.chap.files[j]);
      StagingNamesDistinct(job.folder, j, job.chap.files[j], k, job.chap.files[k]);
    }
  }

  /** Writing image `k` does not change whether a later image is skipped. */
  lemma SkipUnchanged(job: Job, k: nat, i: nat, paths: set<string>)
    requires k < i < |job.chap.files|
    ensures Skipped(job, i, Advance(job, k, paths)) == Skipped(job, i, paths)
  {
    StagingNamesDistinct(job.folder, i, job.chap.files[i], k, job.chap.files[k]);
  }

  /** The loop changes nothing but the destinations and ".part" files of the images it reaches. */
  lemma {:induction false} StageFrame(job: Job, transfer: nat -> Transfer, k: nat, paths: set<string>, p: string)
    requires k <= |job.chap.files|
    requires !Touched(job, k, p)
    ensures p in Stage(job, transfer, k, paths).paths <==> p in paths
    decreases |job.chap.files| - k
  {
    if k < |job.chap.files| {
      assert p != Dst(job, k) && p != Part(job, k);
      if Skipped(job, k, paths) {
        StageFrame(job, transfer, k + 1, paths, p);
      } else if QueryE(job.chap.sl.e).Some? && transfer(k).Completes? {
        StageFrame(job, transfer, k + 1, Advance(job, k, paths), p);
      }
    }
  }

  /** The paths after image `k`: unchanged when it is skipped, advanced when it is written. */
  function NextPaths(job: Job, k: nat, paths: set<string>): set<string>
    requires k < |job.chap.files|
  {
    if Skipped(job, k, paths) then paths else Advance(job, k, paths)
  }

  /** A run that gets through from image `k` got through from image `k + 1`, with the paths after image `k`. */
  lemma StageDoneStep(job: Job, transfer: nat -> Transfer, k: nat, paths: set<string>)
    requires k < |job.chap.files| && Stage(job, transfer, k, paths).outcome == Done
    ensures Stage(job, transfer, k + 1, NextPaths(job, k, paths)).outcome == Done
    ensures Stage(job, transfer, k, paths).paths == Stage(job, transfer, k + 1, NextPaths(job, k, paths)).paths
  {
  }

  /** When the loop gets through, the destination of every image from `k` on exists. */
  lemma {:induction false} StageDoneDestination(job: Job, transfer: nat -> Transfer, k: nat, paths: set<string>, i: nat)
    requires k <= i < |job.chap.files|
    requires Stage(job, transfer, k, paths).outcome == Done
    ensures Dst(job, i) in Stage(job, transfer, k, paths).paths
    decreases |job.chap.files| - k
  {
    var next := NextPaths(job, k, paths);
    StageDoneStep(job, transfer, k, paths);
    if i == k {
      UntouchedLater(job, k);
      StageFrame(job, transfer, k + 1, next, Dst(job, k));
    } else {
      StageDoneDestination(job, transfer, k + 1, next, i);
    }
  }

  /**
   * When the loop gets through, no ".part" file is left behind, except the
   * one of a skipped image that was there before.
   */
  lemma {:induction false} StageDonePart(job: Job, transfer: nat -> Transfer, k: nat, paths: set<string>, i: nat)
    requires k <= i < |job.chap.files|
    requires Stage(job, transfer, k, paths).outcome == Done
    ensures Part(job, i) in Stage(job, transfer, k, paths).paths <==> Skipped(job, i, paths) && Part(job, i) in paths
    decreases |job.chap.files| - k
  {
    var next := NextPaths(job, k, paths);
    StageDoneStep(job, transfer, k, paths);
    if i == k {
      UntouchedLater(job, k);
      StageFrame(job, transfer, k + 1, next, Part(job, k));
    } else {
      UntouchedLater(job, k);
      if !Skipped(job, k, paths) {
        SkipUnchanged(job, k, i, paths);
      }
      StageDonePart(job, transfer, k + 1, next, i);
    }
  }

  /**
   * The loop stops at the first image whose transfer fails, or at the first
   * image not skipped when `sl.e` is neither a string nor a number; the error
   * is the one of the step that failed.
   */
  lemma {:induction false} StageFailedAt(job: Job, transfer: nat -> Transfer, k: nat, paths: set<string>)
    requires k <= |job.chap.files|
    requires Stage(job, transfer, k, paths).outcome.Failed?
    ensures var out := Stage(job, transfer, k, paths).outcome;
      && k <= out.index < |job.chap.files|
      && !Skipped(job, out.index, paths)
      && (QueryE(job.chap.sl.e).None? ==> out.error == ContentParsing(BadSlE))
      && (QueryE(job.chap.sl.e).Some? ==>
            && !transfer(out.index).Completes?
            && out.error == if transfer(out.index).SendFails? then Reqwest else Io)
    decreases |job.chap.files| - k
  {
    if Skipped(job, k, paths) {
      StageFailedAt(job, transfer, k + 1, paths);
    } else if QueryE(job.chap.sl.e).Some? && transfer(k).Completes? {
      StageFailedAt(job, transfer, k + 1, Advance(job, k, paths));
      SkipUnchanged(job, k, Stage(job, transfer, k, paths).outcome.index, paths);
    }
  }

  /** A run that fails after image `k` went on from image `k + 1`, with the paths after image `k`. */
  lemma StageFailedStep(job: Job, transfer: nat -> Transfer, k: nat, paths: set<string>)
    requires k < |job.chap.files| && Stage(job, transfer, k, paths).outcome.Failed?
    requires k < Stage(job, transfer, k, paths).outcome.index
    ensures Stage(job, transfer, k + 1, NextPaths(job, k, paths)).outcome == Stage(job, transfer, k, paths).outcome
    ensures Stage(job, transfer, k, paths).paths == Stage(job, transfer, k + 1, NextPaths(job, k, paths)).paths
  {
  }

  /** When the loop fails at an image, the destinations of all images before it from `k` on exist. */
  lemma {:induction false} StageFailedDestination(job: Job, transfer: nat -> Transfer, k: nat, paths: set<string>, i: nat)
    requires k <= |job.chap.files|
    requires Stage(job, transfer, k, paths).outcome.Failed?
    requires k <= i < Stage(job, transfer, k, paths).outcome.index
    ensures i < |job.chap.files| && Dst(job, i) in Stage(job, transfer, k, paths).paths
    decreases |job.chap.files| - k
  {
    var next := NextPaths(job, k, paths);
    StageFailedStep(job, transfer, k, paths);
    if i == k {
      UntouchedLater(job, k);
      StageFrame(job, transfer, k + 1, next, Dst(job, k));
    } else {
      StageFailedDestination(job, transfer, k + 1, next, i);
    }
  }

  /** With skipping on and every destination present, nothing is requested or written, whatever `sl.e` is. */
  lemma {:induction false} StageAllPresent(job: Job, transfer: nat -> Transfer, k: nat, paths: set<string>)
    requires k <= |job.chap.files| && job.skip
    requires forall i :: k <= i < |job.chap.files| ==> Dst(job, i) in paths
    ensures Stage(job, transfer, k, paths) == StageRun(paths, [], Done)
    decreases |job.chap.files| - k
  {
    if k < |job.chap.files| {
      StageAllPresent(job, transfer, k + 1, paths);
    }
  }

  /** The images from `k` on that are not skipped, in order: the ones the loop fetches. */
  function Pending(job: Job, k: nat, paths: set<string>): seq<nat>
    requires k <= |job.chap.files|
    decreases |job.chap.files| - k
  {
    if k == |job.chap.files| then []
    else if Skipped(job, k, paths) then Pending(job, k + 1, paths)
    else [k] + Pending(job, k + 1, paths)
  }

  /** Pending lists exactly the images from `k` on that are not skipped, in increasing order. */
  lemma PendingSpec(job: Job, k: nat, paths: set<string>)
    requires k <= |job.chap.files|
    ensures forall j :: 0 <= j < |Pending(job, k, paths)| ==>
      k <= Pending(job, k, paths)[j] < |job.chap.files| && !Skipped(job, Pending(job, k, paths)[j], paths)
    ensures forall i :: k <= i < |job.chap.files| && !Skipped(job, i, paths) ==> i in Pending(job, k, paths)
    ensures forall a, b :: 0 <= a < b < |Pending(job, k, paths)| ==> Pending(job, k, paths)[a] < Pending(job, k, paths)[b]
  {
    PendingSound(job, k, paths);
    PendingComplete(job, k, paths);
    PendingIncreasing(job, k, paths);
  }

  /** Every pending image is one from `k` on that is not skipped. */
  lemma {:induction false} PendingSound(job: Job, k: nat, paths: set<string>)
    requires k <= |job.chap.files|
    ensures forall j :: 0 <= j < |Pending(job, k, paths)| ==>
      k <= Pending(job, k, paths)[j] < |job.chap.files| && !Skipped(job, Pending(job, k, paths)[j], paths)
    decreases |job.chap.files| - k
  {
    if k < |job.chap.files| {
      PendingSound(job, k + 1, paths);
      var rest := Pending(job, k + 1, paths);
      if !Skipped(job, k, paths) {
        var ks := Pending(job, k, paths);
        assert ks == [k] + rest;
        assert forall j :: 1 <= j < |ks| ==> ks[j] == rest[j - 1];
      } else {
        assert Pending(job, k, paths) == rest;
      }
    }
  }

  /** Every image from `k` on that is not skipped is pending. */
  lemma {:induction false} PendingComplete(job: Job, k: nat, paths: set<string>)
    requires k <= |job.chap.files|
    ensures forall i :: k <= i < |job.chap.files| && !Skipped(job, i, paths) ==> i in Pending(job, k, paths)
    decreases |job.chap.files| - k
  {
    if k < |job.chap.files| {
      PendingComplete(job, k + 1, paths);
    }
  }

  /** The pending images are in increasing order. */
  lemma {:induction false} PendingIncreasing(job: Job, k: nat, paths: set<string>)
    requires k <= |job.chap.files|
    ensures forall a, b :: 0 <= a < b < |Pending(job, k, paths)| ==> Pending(job, k, paths)[a] < Pending(job, k, paths)[b]
    decreases |job.chap.files| - k
  {
    if k < |job.chap.files| {
      PendingSound(job, k + 1, paths);
      PendingIncreasing(job, k + 1, paths);
      var rest := Pending(job, k + 1, paths);
      if !Skipped(job, k, paths) {
        var ks := Pending(job, k, paths);
        assert ks == [k] + rest;
        forall a, b | 0 <= a < b < |ks|
          ensures ks[a] < ks[b]
        {
          assert ks[b] == rest[b - 1];
          if a > 0 {
            assert ks[a] == rest[a - 1];
          } else {
            assert ks[a] == k && k < rest[b - 1];
          }
        }
      } else {
        assert Pending(job, k, paths) == rest;
      }
    }
  }

  /** Writing image `k` does not change which later images are pending. */
  lemma {:induction false} PendingUnchanged(job: Job, k: nat, i: nat, paths: set<string>)
    requires k < i <= |job.chap.files|
    ensures Pending(job, i, Advance(job, k, paths)) == Pending(job, i, paths)
    decreases |job.chap.files| - i
  {
    if i < |job.chap.files| {
      SkipUnchanged(job, k, i, paths);
      PendingUnchanged(job, k, i + 1, paths);
    }
  }

  /** The image indices of a list of requests. */
  function Indices(rs: seq<Request>): (ks: seq<nat>)
    ensures |ks| == |rs|
  {
    if rs == [] then [] else [rs[0].index] + Indices(rs[1..])
  }

  /** The indices of a request followed by more requests. */
  lemma IndicesCons(r: Request, rs: seq<Request>)
    ensures Indices([r] + rs) == [r.index] + Indices(rs)
  {
    assert ([r] + rs)[1..] == rs;
  }

  /** Every request asks for its image's URL with the `e` and `m` of the manifest. */
  predicate RequestsFit(job: Job, rs: seq<Request>) {
    forall r :: r in rs ==>
      && r.index < |job.chap.files|
      && r.url == ImageUrl(job, r.index)
      && QueryE(job.chap.sl.e) == Some(r.e)
      && r.m == job.chap.sl.m
  }

  /** Every request asks for its image's URL with the `e` and `m` of the manifest. */
  lemma {:induction false} StageRequestsFit(job: Job, transfer: nat -> Transfer, k: nat, paths: set<string>)
    requires k <= |job.chap.files|
    ensures RequestsFit(job, Stage(job, transfer, k, paths).requests)
    decreases |job.chap.files| - k
  {
    if k < |job.chap.files| {
      if Skipped(job, k, paths) {
        StageRequestsFit(job, transfer, k + 1, paths);
      } else if QueryE(job.chap.sl.e).Some? && transfer(k).Completes? {
        StageRequestsFit(job, transfer, k + 1, Advance(job, k, paths));
      }
    }
  }

  /**
   * The loop requests the images it does not skip, in order, each once:
   * all of them when it gets through, the first few when it fails.
   */
  lemma {:induction false} StageRequestOrder(job: Job, transfer: nat -> Transfer, k: nat, paths: set<string>)
    requires k <= |job.chap.files|
    ensures Indices(Stage(job, transfer, k, paths).requests) <= Pending(job, k, paths)
    ensures Stage(job, transfer, k, paths).outcome == Done ==> Indices(Stage(job, transfer, k, paths).requests) == Pending(job, k, paths)
    decreases |job.chap.files| - k
  {
    if k < |job.chap.files| {
      if Skipped(job, k, paths) {
        StageRequestOrder(job, transfer, k + 1, paths);
      } else if QueryE(job.chap.sl.e).Some? && transfer(k).Completes? {
        var next := Advance(job, k, paths);
        StageRequestOrder(job, transfer, k + 1, next);
        PendingUnchanged(job, k, k + 1, paths);
        var e := QueryE(job.chap.sl.e).value;
        var req := Request(k, ImageUrl(job, k), e, job.chap.sl.m);
        var tail := Stage(job, transfer, k + 1, next);
        StageCompletes(job, transfer, k, paths, e);
        IndicesCons(req, tail.requests);
        assert Pending(job, k, paths) == [k] + Pending(job, k + 1, paths);
      }
    }
  }
}
