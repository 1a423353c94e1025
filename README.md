# mhg_dl_rs in Dafny

A model of the core of `mhg_dl_rs`, a command-line downloader for comics hosted on
manhuagui.com. It covers the parts of `src/main.rs` that compute rather than talk to
the network:

- **Comic id.** `parse_id` takes a bare id or a comic URL and reads the id from it.
- **Catalogue.** `Comic::new` picks the image host ("tunnel"). `load_metadata` builds the
  title and the chapter list from a catalogue page.
- **Unpacking.** `unpack_packed` rebuilds a chapter's script from a "p,a,c,k,e,r"-style
  packed script. It uses `convert_base`, the key numbering `encode`, the dictionary loop
  and the `\b\w+\b` word substitution.
- **Staging.** `download_chapter` sanitises names and builds the archive path, the staging
  folder and each image's destination and ".part" path. Its per-image loop skips images
  that already exist and writes each of the others to a ".part" file before renaming it.

Modules, one per concern:

| module | file | models |
|---|---|---|
| `Wrappers` | wrappers.dfy | `Option`, `Result` |
| `Chars` | chars.dfy | ASCII `\d`, `\w`, `[\w\.]` and the longest-run scan behind `\d+` and `[\w\.]+` |
| `Numerals` | numerals.dfy | numerals over `0-9a-zA-Z`; `convert_base` as a loop |
| `Words` | words.dfy | the `\b\w+\b` replacement as a left-to-right scan, one token (a maximal word run or a single other character) at a time |
| `Packer` | packer.dfy | `encode`, the dictionary (a reference definition and the backward loop), the unpacked script |
| `ComicId` | comic_id.dfy | `parse_id` as a hand parser, proved against a reference definition of the URL pattern |
| `ComicIdExamples` | comic_id_examples.dfy | the cases of the unit test of `parse_id` |
| `Naming` | naming.dfy | sanitisation, archive / folder / destination / ".part" paths, tunnel host |
| `Staging` | staging.dfy | the per-image loop as a reference function over a set of existing paths, and its properties |
| `Comics` | comic.dfy | the `Comic` class (`new`, `load_metadata`, `download_chapter`) and a `FileSystem` class |

The source is imperative in four places, and the model keeps those as methods with loops:

- `convert_base` (`Numerals.ConvertBase`);
- the dictionary loop (`Packer.BuildDictionary`);
- the chapter pushes of `load_metadata` (`Comics.Comic.LoadMetadata`);
- the image loop of `download_chapter` (`Comics.Comic.DownloadChapter`).

Each loop is proved equal to a reference function. The properties are proved about that function.

Assumptions:

- `usize` is 64 bits. `parse::<usize>()` refuses values above 2^64 - 1.
- `\w` and `\d` are ASCII only.
- The outcome of the network and the disk is an input of the model. This covers:
  - the catalogue page, or the error of fetching it;
  - the image list of a chapter, or the error of `get_chapter`;
  - whether `create_dir_all` succeeds;
  - how each image transfer ends (request, `File::create`, `io::copy`, `fs::rename`).

Details of the code that the model keeps:

- When the page has no heading, the title is the decimal id.
- The image index in a destination name is not zero-padded.
- There is no bound check on the radix of `encode`.
- Whatever response arrives is written out as the image, whatever its status or length; no byte count is compared. The image still fails with `Io` when the file cannot be created, the copy fails or the rename fails.

## Model

| member | source | states |
|---|---|---|
| Numerals.Numeral | src/main.rs:164-176 | the numeral of `v` has at least one symbol, every symbol is a digit of the base, and it has no leading '0' when `v > 0` |
| Numerals.NumeralValue | src/main.rs:164-176 | reading the numeral of `v` back in its base gives `v` |
| Numerals.NumeralSingleSymbol | src/main.rs:164-176 | a numeral is one symbol long exactly when the number is below the base |
| Numerals.NumeralInjective | src/main.rs:164-176 | distinct numbers have distinct numerals |
| Numerals.ConvertBase | src/main.rs:164-176 | the remainder loop yields the numeral of `value`: "0" for zero, otherwise no leading '0', digits below the base, reading back as `value` |
| Packer.ExtendedSymbol | src/main.rs:180 | the `(r as u8 + 29) as char` symbol is the alphabet's symbol for 36..61, i.e. 'A'..'Z' |
| Packer.Encode | src/main.rs:177-193 | a key has at least one symbol, and exactly one below the radix |
| Packer.EncodeIsNumeral | src/main.rs:177-193 | for radix 2..62 the key of slot `i` is the base-`a` numeral of `i`, reads back as `i`, and is one symbol long iff `i < a` |
| Packer.EncodeInjective | src/main.rs:177-193 | for radix 2..62 distinct slots get distinct keys |
| Packer.WideRadixKeys | src/main.rs:177-193 | past radix 62 keys wrap around: slots 36 and 292 share key "A" under radix 300, and slot 62 under radix 63 gets "[" |
| Packer.WindowPrepend | src/main.rs:194-203 | inserting the smallest slot last overrides what the larger slots put under its key |
| Packer.DictionaryKeys | src/main.rs:194-203 | the dictionary's keys are exactly the keys of slots 0..c-1 |
| Packer.DictionaryFirstWins | src/main.rs:194-203 | when keys collide, the smallest slot's value is kept (its entry, or the key itself for an empty entry) |
| Packer.DictionaryExact | src/main.rs:194-203 | for radix 2..62 every slot's key maps to that slot's entry, or to the key when the entry is empty |
| Packer.DictionarySize | src/main.rs:194-203 | for radix 2..62 the dictionary has exactly c entries |
| Packer.Dictionary | src/main.rs:194-203 | reference definition: the smallest slot with a key decides its value; its meaning is given by DictionaryKeys, DictionaryFirstWins, DictionaryExact and DictionarySize |
| Packer.SmallRadix | src/main.rs:177-203 | radix 1 still keys slot 0 as "0", and radix 0 with no slots gives the empty dictionary |
| Packer.BuildDictionary | src/main.rs:194-203 | the backward insertion loop builds the dictionary of the reference definition |
| Packer.UnpackScript | src/main.rs:194-211 | the unpacked script is the frame with its word runs substituted through the dictionary |
| Packer.UnpackKey | src/main.rs:194-211 | for radix 2..62 a key standing alone unpacks to its slot's value |
| Words.Substitute | src/main.rs:205-211 | reference definition of `replace_all`, one token after another; its meaning is given by SubstituteWord, SubstituteSplit, SubstituteIdentity and SubstituteNoWords |
| Words.WordEndIsRunEnd | src/main.rs:205 | the end of a word run is the longest-run scan of `\w` |
| Words.SubstituteWord | src/main.rs:205-211 | a maximal word run is replaced by its dictionary value (`Lookup`: `dmap.get(key)`), or kept when the dictionary has no entry for it |
| Words.SubstituteSplit | src/main.rs:205-211 | a non-word character stays in place, and the text on either side of it is substituted independently |
| Words.SubstituteIdentity | src/main.rs:205-211 | an empty or identity dictionary leaves the text unchanged |
| Words.SubstituteNoWords | src/main.rs:205-211 | text without word characters is copied unchanged |
| ComicId.SchemeLength | src/main.rs:71 | 8 exactly when the text starts with `https://`, 7 exactly when it starts with `http://`, 0 otherwise |
| ComicId.UrlPrefixLength | src/main.rs:71 | whatever prefix the parser accepts is a match of `https?://(?:[\w\.]+\.)?manhuagui\.com/comic/` |
| ComicId.PrefixSound | src/main.rs:71 | the checks of the parser (scheme, host run, "manhuagui.com" after an optional dotted subdomain, "/comic/") imply the reference definition |
| ComicId.PrefixComplete | src/main.rs:71 | every match of the URL pattern is found by the parser, whatever text follows it |
| ComicId.IdStart | src/main.rs:71-73 | the capture starts at 0 or right after a comic URL prefix |
| ComicId.ParseId | src/main.rs:70-75 | an accepted id fits a `usize` |
| ComicId.ParseIdDigits | src/main.rs:70-75 | bare leading digits are the id, whatever non-digit text follows, when their value fits in 64 bits; above `usize::MAX` the result is None (`UsizeOf`) |
| ComicId.ParseIdUrl | src/main.rs:70-75 | a comic URL prefix followed by digits gives the `usize` parse of those digits (`UsizeOf`: their value, or None above `usize::MAX`), whatever non-digit text follows |
| ComicId.ParseIdSound | src/main.rs:70-75 | an accepted id is a maximal digit run at index 0 or right after a comic URL prefix, and is its value |
| ComicId.ParseIdRejects | src/main.rs:70-75 | text starting with neither a digit nor a comic URL prefix is rejected |
| ComicIdExamples.BareId | src/tests.rs:6 | "12345" gives 12345 |
| ComicIdExamples.WebUrls | src/tests.rs:9-10 | the https and http "www." comic URLs give 12345 |
| ComicIdExamples.TrailingSlash | src/tests.rs:13 | a trailing slash after the id is ignored |
| ComicIdExamples.OtherSubdomains | src/tests.rs:16-17 | the "m." and "tw." comic URLs give 12345 |
| ComicIdExamples.OtherHostRejected | src/tests.rs:20 | "https://google.com/comic/12345" is rejected |
| ComicIdExamples.NonDigitsRejected | src/tests.rs:21-22 | "abcde" and "" are rejected |
| Naming.Sanitize | src/main.rs:255-257 | the same length, each of `/ : * ? " < > \|` replaced by '_', every other character kept in place |
| Naming.SanitizeClean | src/main.rs:255-257 | a sanitised name holds none of the illegal characters |
| Naming.SanitizeKeepsClean | src/main.rs:255-257 | a name without illegal characters is unchanged |
| Naming.SanitizeIdempotent | src/main.rs:255-257 | sanitising twice equals sanitising once |
| Naming.StagingFolder | src/main.rs:264 | the folder `output_dir/book/chapter` with both names sanitised; the ensures gives only its length, its meaning is carried by ArchiveBesideFolder and StagingNamesDistinct |
| Naming.ArchivePath | src/main.rs:258 | the archive `output_dir/book/chapter.zip` with both names sanitised; the ensures gives only its length, its meaning is carried by ArchiveBesideFolder |
| Naming.ArchiveBesideFolder | src/main.rs:258-264 | the archive path is the staging folder's path followed by ".zip" |
| Naming.Destination | src/main.rs:278 | the destination `folder/i_file` with the index unpadded; the ensures gives only its length, its meaning is carried by DestinationInjective and StagingNamesDistinct |
| Naming.PartPath | src/main.rs:279 | the destination followed by ".part"; the ensures gives only its length, its meaning is carried by StagingNamesDistinct |
| Naming.DestinationInjective | src/main.rs:278 | two destinations in one folder are equal only for the same index and file name |
| Naming.StagingNamesDistinct | src/main.rs:278-279 | destinations and ".part" files of different images never coincide, and no destination is a ".part" file of the loop |
| Naming.ChannelName | src/main.rs:120-121 | the channel is one of "i", "eu", "us", namely the indexed one when the index is in range |
| Naming.TunnelUrl | src/main.rs:122 | the image host `https://<channel>.hamreus.com`; its meaning is given by TunnelUrls |
| Naming.TunnelUrls | src/main.rs:120-122 | an out-of-range index gives "https://i.hamreus.com", the host of index 0; the three channels give three different hosts |
| Staging.ImageUrl | src/main.rs:277 | the image URL `tunnel + path + file`; its meaning is given by StageRequestsFit |
| Staging.Stage | src/main.rs:276-299 | reference definition of the image loop over the set of existing paths; its meaning is given by PendingSpec, StageFrame, StageDoneDestination, StageDonePart, StageFailedAt, StageFailedDestination, StageAllPresent, StageRequestsFit and StageRequestOrder, and DownloadChapter is proved equal to it |
| Staging.QueryE | src/main.rs:284-288 | the `e` parameter is refused exactly when `sl.e` is neither a string nor a number |
| Staging.Advance | src/main.rs:294-296 | after a completed transfer the destination exists, its ".part" file does not, and no other path changed |
| Staging.PendingSpec | src/main.rs:276-283 | the images to fetch are exactly those not skipped, in increasing order |
| Staging.StageFrame | src/main.rs:276-299 | the loop changes no path but the destinations and ".part" files of its images |
| Staging.StageDoneDestination | src/main.rs:276-299 | when the loop gets through, every image's destination exists |
| Staging.StageDonePart | src/main.rs:276-299 | when the loop gets through, an image's ".part" file exists only if the image was skipped and the file was there before |
| Staging.StageFailedAt | src/main.rs:276-299 | the loop fails at an image it did not skip; the error is ContentParsing for a bad `sl.e`, Reqwest for a failed request, Io for a failed create, copy or rename |
| Staging.StageFailedDestination | src/main.rs:276-299 | when the loop fails at image `f`, the destinations of images before `f` exist |
| Staging.StageAllPresent | src/main.rs:280-288 | with skipping on and every destination present, nothing is requested or written and the loop succeeds, whatever `sl.e` is |
| Staging.StageRequestsFit | src/main.rs:277-293 | every request asks for `tunnel + path + file` with the manifest's `e` and `m` |
| Staging.StageRequestOrder | src/main.rs:276-299 | requests go out for the images not skipped, in order, each once: all of them on success, a prefix on failure |
| Comics.CatalogUrl | src/main.rs:138 | the catalogue page `host/comic/id`; its meaning is given by CatalogUrlRoundTrip |
| Comics.CatalogUrlRoundTrip | src/main.rs:138 | the catalogue URL of a comic is read back by `parse_id` as the same id |
| Comics.ChapterList | src/main.rs:147-153 | one chapter per anchor, chapter `k` made from anchor `n-1-k` (`ChapterOf`: a missing `title` or `href` attribute becomes "") |
| Comics.TitleOf | src/main.rs:142-146 | the heading text, or the decimal id when the page has none; its meaning is given by TitleFallback and LoadMetadata |
| Comics.TitleFallback | src/main.rs:142-146 | without a heading the title is the id in decimal, digits only, reading back as the id |
| Comics.FileSystem.Create | src/main.rs:294 | the created path exists afterwards, nothing else changes |
| Comics.FileSystem.Rename | src/main.rs:296 | the old name is gone, the new one exists, nothing else changes |
| Comics.Comic.constructor | src/main.rs:119-132 | the host is the site root, the tunnel the chosen channel's host, title and chapter list empty |
| Comics.Comic.LoadMetadata | src/main.rs:137-155 | the catalogue URL; on a fetch error nothing changes; otherwise the title is set and the page's chapters are appended in reverse order |
| Comics.Comic.New | src/main.rs:102-135 | a fresh comic whose host is the site root, whose tunnel, delay, skip flag and output directory come from the arguments, and whose title and chapters come from the page; or the page's error |
| Comics.Comic.DownloadChapter | src/main.rs:253-299 | an existing archive with skipping on ends at once with nothing requested or written; a `get_chapter` or `create_dir_all` error is returned unchanged; otherwise the paths, requests and result are those of the reference loop |

## Left out

- HTTP: the client, its headers, every request and response body (src/main.rs:103-118, 139, 229, 289-293) are network I/O. The model records the image requests as values and takes every fetched result as an input.
- Comics.Comic.New: a failure to build the HTTP client (src/main.rs:116-118) is left out, because it depends on the TLS library.
- HTML parsing with selectors (src/main.rs:140-148) is library behaviour. A catalogue page is the heading text and a list of anchors with optional attributes.
- `get_chapter` (src/main.rs:227-250) is left out: its regex and the lz-string decompression are a foreign library. The image list of a chapter, or the error, is an input of `DownloadChapter`.
- The JSON extraction of `unpack_packed` (src/main.rs:212-224) is left out. It is a greedy multi-line regex followed by serde deserialisation. `Packer.UnpackScript` ends with the rebuilt script.
- The archive step of `download_chapter` (src/main.rs:300-315) is left out: zip writing, `read_dir` order, file and folder removal. `DownloadChapter` ends after the image loop, with the images still in the staging folder.
- Directories are not tracked in the set of paths. `create_dir_all` is only a success flag, so the ancestors it creates are not modelled.
- `Path::exists` is membership in the set of paths; the model does not tell files and directories apart.
- The random sleep after each image (src/main.rs:297) and the 5-second pause between chapters (src/main.rs:345-347) are timing and randomness. The sleep lies in `[delay/2, delay*3/2]`; the model only keeps `delayMs`.
- The progress bar, argument parsing, the chapter prompt and `range_parser` (src/main.rs:50-68, 266-275, 320-349) are user interface and an external crate. The driver loop in `main` is not modelled.
- Unicode `\w` and `\d` of the regex crate: the model uses ASCII classes. Non-ASCII letters and digits in a frame or URL are therefore not words or digits here.
- Numerals.ConvertBase: requires a base of 2 to 62. Base 0 divides by zero, base 1 never terminates, and a remainder above 61 makes `nth(rem).unwrap()` panic.
- Packer.Encode: requires a radix of at least 2, or a slot below the radix. Radix 0 divides by zero, and radix 1 recurses forever past slot 0.
- Packer.BuildDictionary: requires `c <= |data|`, because `data[i]` panics otherwise, and every slot below `c` encodable (radix at least 2, or `c` at most the radix), because `encode` does not return otherwise.
- Comics.Comic.DownloadChapter: requires a valid chapter index, because `self.chapters[index]` panics otherwise.
- `usize` arithmetic: `convert_base` and `encode` never overflow. The symbol cast `(r as u8 + 29) as char` keeps eight bits and wraps around as a release build does (a debug build would panic past 226).
- `Number::to_string` is not modelled. A JSON number carries the text it prints.
