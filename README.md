# gphotos-upload: file-list curation, album paging and remote-media matching in Dafny

This project models the decision logic of a small Google Photos uploader and of its metadata
probe. It covers four pieces of the scripts:

- **Local file-list curation** (`upload.py`):
  - `clean_file_list` drops excluded extensions and falsy entries;
  - `format_file_list` renders the list as text;
  - `recurse_dirs` extends the caller's list with newly listed files.
- **Album paging and lookup**:
  - the `getAlbums` generator follows `nextPageToken` through `GET /v1/albums`. The same
    loop is `get_albums` in `utils/album_contents.py`.
  - `create_or_retrieve_album` finds the first album whose title matches case-insensitively,
    and creates one only on a miss.
- **Remote media records**: `get_album_contents` (in both `probe_meta.py` and
  `utils/album_contents.py`) and `get_albums` of `probe_meta.py` build `Media` and `Album`
  records from one response. They never raise and keep what they built before an error.
- **The matching cascade** of `probe_meta.py`'s `main`, per remote item:
  - compare the file name;
  - then the MIME type;
  - then the rewritten `creationTime` against the Exif `datetime`.

  The timestamp rewriting strips `Z`, then maps `-` to `:` and `T` to a space. It turns an
  RFC 3339 (section 5.6) Zulu `date-time` written with upper-case `T` and `Z` into the
  TIFF 6.0 DateTime layout (section 8, tag 306) that Exif uses.

Files:

- `wrappers.dfy` — `Option`.
- `text.dfy` — the Python string operations used:
  - `lower` (ASCII);
  - `endswith`;
  - `strip`, with no argument or one character, scanning from both ends as CPython does;
  - single-character `replace`.
- `upload_files.dfy` — `CleanFileList` and `FormatFileList`, as methods with loops, each
  proved against a specification function. `PhotoFileList` is a class whose
  `RecurseDirs` extends its `items` in place.
- `upload_albums.dfy` — `GetAlbums`, `FindAlbum` and `CreateOrRetrieveAlbum`, with these
  as inputs:
  - the server, a total function from request parameters to decoded pages;
  - a fuel bound.
- `album_contents.dfy` — the `Media` record and the single-search record-building loop.
- `probe_meta.dfy` — the timestamp rewriting, the cascade, `get_albums` and the album loop
  of `main`.

Modelling choices:

- A Python `KeyError` is an absent key, written as `Option`.
- The `except`/`finally` pairs end the loop and return the partial list.
  - In `probe_meta.py` and `utils/album_contents.py`, the handlers call `sys.exit` without
    importing `sys`. The resulting `NameError` is discarded by the `return` in `finally`.
- A path's truthiness is modelled as a non-empty `path`.
- Both `get_album_contents` functions issue a single media search and never follow its
  `nextPageToken`; the doc-comment at `utils/album_contents.py:24` leaves page tokens as
  work to do. The model issues the single search.
- MIME types are compared exactly, as at `probe_meta.py:154`: the sniffed type must equal
  the remote `mimeType` character for character.

## Model

| member | source | states |
|---|---|---|
| `Text.Lower` | upload.py:246 | `str.lower` keeps the length and lower-cases every ASCII capital; no capital is left |
| `Text.StripSpec` | upload.py:260 | `strip` returns the slice after the leading run of removed characters; everything after the slice is removed; the result starts and ends with kept characters |
| `Text.StripKeeps` | upload.py:260 | a string whose two ends are kept is unchanged by `strip` |
| `Text.StripAppended` | upload.py:258-260 | one removed character appended to a string with kept ends is undone by `strip` |
| `Text.ReplaceCharSpec` | probe_meta.py:156 | single-character `replace` changes exactly the occurrences of the character, each into the replacement |
| `UploadFiles.CleanFileList` | upload.py:238-253 | the nested-loop filter (flag and `break`) computes `Cleaned`: with no exclusions `filter(None, …)`, otherwise the exclusion pass followed by `filter(None, …)` |
| `UploadFiles.CleanedMembers` | upload.py:238-253 | an entry is in the result iff it is in the input, is truthy, and (when exclusions are given) its lower-cased name ends with no lower-cased exclusion |
| `UploadFiles.DropFalsyMembers` | upload.py:239-240 | with no exclusions, an entry is kept iff it is in the input and truthy |
| `UploadFiles.DropExcludedMembers` | upload.py:242-251 | the exclusion pass keeps an entry iff it is in the input and no exclusion is a case-insensitive suffix of its name |
| `UploadFiles.DropFalsySubsequence` | upload.py:239-240 | dropping falsy entries keeps the input order (the result is a subsequence of the input) |
| `UploadFiles.DropExcludedSubsequence` | upload.py:242-251 | the exclusion pass keeps the input order |
| `UploadFiles.CleanedSubsequence` | upload.py:238-253 | the cleaned list is a subsequence of the input |
| `UploadFiles.DropFalsyConcat` | upload.py:253 | dropping falsy entries decides entry by entry: it distributes over concatenation |
| `UploadFiles.DropExcludedConcat` | upload.py:243-251 | the exclusion pass decides entry by entry: it distributes over concatenation |
| `UploadFiles.CleanedConcat` | upload.py:238-253 | cleaning distributes over concatenation of file lists |
| `UploadFiles.CleanedKeepsAll` | upload.py:238-253 | when every entry is truthy and not excluded, nothing is removed |
| `UploadFiles.CleanedEmptyExtension` | upload.py:246 | an empty exclusion string excludes every entry, since every name ends with `''` |
| `UploadFiles.FormatFileList` | upload.py:255-260 | the accumulated text is each entry followed by a newline, then stripped; `[]` gives `''`; the result has no surrounding whitespace |
| `UploadFiles.JoinedIsLines` | upload.py:256-258 | the accumulated text is the newline-joined entries plus one final newline |
| `UploadFiles.FormatIsJoinLines` | upload.py:255-260 | when the first entry does not start and the last does not end with whitespace, the result is exactly the newline-joined entries |
| `UploadFiles.PhotoFileList.RecurseDirs` | upload.py:262-274 | with `none` the list is unchanged; otherwise the original list stays as a prefix, followed by the listed files not in the original list, in listing order |
| `UploadFiles.NewFilesMembers` | upload.py:271-272 | an entry is appended iff it is listed as a file and not in the original list |
| `UploadFiles.NewFilesKeepDistinct` | upload.py:271-272 | a duplicate-free list stays duplicate-free when the listing names each file once |
| `UploadFiles.NewFilesRepeats` | upload.py:271-272 | deduplication is against the original list only: a file listed twice is appended twice |
| `UploadAlbums.GetAlbums` | upload.py:110-133 | the loop issues exactly the request sequence `Exchanges` and yields the pages' `albums` concatenated in page order |
| `UploadAlbums.ExchangesChain` | upload.py:116-133 | the first request has no `pageToken`; each response is the server's answer; a page is followed by another only when it has both `albums` and `nextPageToken`, and the next request carries that token; the listing ends before the fuel only when the server ends it |
| `UploadAlbums.RequestsKeepFlag` | utils/album_contents.py:48-64 | every request carries `excludeNonAppCreatedData` as first given |
| `UploadAlbums.StopsWithoutAlbums` | utils/album_contents.py:58-69 | a response without `albums` is the last one, even if it has a `nextPageToken` |
| `UploadAlbums.FirstStopSpec` | upload.py:139-140 | `FirstStop` is the index of the first album without a title or whose lower-cased title equals the lower-cased request; every album before it matches neither |
| `UploadAlbums.FirstStopUnique` | upload.py:139-140 | any index with no stop before it and a stop at it (or at the end) is `FirstStop`: the loop's exit point is determined |
| `UploadAlbums.ScanPage` | upload.py:139-143 | scanning one page finds that page's first stop |
| `UploadAlbums.FirstMatch` | upload.py:139-143 | some album matches with an id and no earlier stop iff the first stop has both a title and an id |
| `UploadAlbums.LookupFindsFirstMatch` | upload.py:139-143 | an existing album's id is returned iff some album is the first match; the id is then the first match's |
| `UploadAlbums.LookupCreatesOnlyOnMiss` | upload.py:145-158 | a create request is issued iff the listing ended and every album has a title that does not match; its `id` is returned, or `None` without one |
| `UploadAlbums.FindAlbum` | upload.py:139-143 | the generator is consumed lazily: the stop album, if any, is the first stop of the whole listing; it lies in the pages fetched, and no page before the last fetched one holds a stop; with no stop, every page is fetched |
| `UploadAlbums.CreateOrRetrieveAlbum` | upload.py:135-158 | the outcome is `LookupOutcome` of the full listing; on a hit or a `KeyError` the list requests end exactly at the page holding the stop album (it lies in the pages fetched, none before the last fetched page holds one), otherwise every page is fetched; exactly one create request is issued, and only on a miss |
| `AlbumContents.NewMedia` | utils/album_contents.py:9-12 | a new `Media` carries its MIME type and file name and an empty creation time |
| `AlbumContents.BuiltPrefix` | utils/album_contents.py:32-37 | one `Media` per item in response order, over the prefix of items with `mimeType` and `filename`; the item after the prefix is the one that raised |
| `AlbumContents.BuiltAll` | utils/album_contents.py:33-37 | every item yields a record iff every item has `mimeType` and `filename` |
| `AlbumContents.CreationTimeDefault` | probe_meta.py:76-78 | the creation time is `''` iff `mediaMetadata` or its `creationTime` is absent, or the latter is `''` |
| `AlbumContents.BuiltConcat` | utils/album_contents.py:33-43 | records of a later run of items are kept only when no earlier item raised |
| `AlbumContents.ContentsIgnoreToken` | utils/album_contents.py:24-31 | only the first page of results is used: `nextPageToken` changes nothing |
| `AlbumContents.NoItemsNoContents` | utils/album_contents.py:29-43 | a failed call or a response without `mediaItems` yields `[]` |
| `AlbumContents.SearchAlbum` | probe_meta.py:71-89 | one search for the album id with page size `"100"`; the loop builds `Contents` of the response, stopping at the first item that raises, without raising |
| `AlbumContents.GetAlbumContents` | utils/album_contents.py:23-43 | an album dict without `id` yields `[]` and no request; otherwise exactly one search, for that id with page size `"100"`, and its `Contents` |
| `ProbeMeta.NormalizeShape` | probe_meta.py:156 | the rewritten time is the input minus its leading and trailing runs of `Z`, each other character rewritten; its length is the input's minus those runs |
| `ProbeMeta.RewriteEach` | probe_meta.py:156 | the two replacements map `-` to `:` and `T` to a space, character by character, and leave no `-` or `T` |
| `ProbeMeta.NormalizeClean` | probe_meta.py:156 | the rewritten time contains no `-` or `T` and neither starts nor ends with `Z` |
| `ProbeMeta.NormalizeKeeps` | probe_meta.py:156 | every character other than `Z` reaches the output, rewritten, at its offset past the leading `Z`s |
| `ProbeMeta.NormalizeNoZ` | probe_meta.py:156 | without `Z` at either end, only the replacements act |
| `ProbeMeta.ZuluNormalizes` | probe_meta.py:156 | a Zulu `date-time` normalises to exactly its first nineteen characters, each rewritten |
| `ProbeMeta.NormalizeExample` | probe_meta.py:156 | `2021-06-01T10:00:00Z` becomes `2021:06:01 10:00:00` |
| `ProbeMeta.ZuluBecomesExif` | probe_meta.py:156 | an RFC 3339 Zulu `date-time` with upper-case `T` and `Z` and without fraction becomes the Exif `YYYY:MM:DD HH:MM:SS` layout, each digit in place |
| `ProbeMeta.FractionNeverExif` | probe_meta.py:156 | a time with fractional seconds keeps its `.`, so it never has the Exif layout |
| `ProbeMeta.NormalizeEmpty` | probe_meta.py:156 | the rewritten time is empty iff the input consists of `Z`s only |
| `ProbeMeta.ExifOf` | probe_meta.py:124-125 | `exif_datetime` stays `''` without Exif data or without a `datetime` tag, and is that tag otherwise |
| `ProbeMeta.FullMatchIff` | probe_meta.py:152-157 | a full match holds iff the file name, the MIME type and the rewritten time equal the local ones exactly |
| `ProbeMeta.StagesInOrder` | probe_meta.py:152-162 | the MIME type is compared only after a name match, and the timestamp only after a MIME match |
| `ProbeMeta.NoExifMatch` | probe_meta.py:124-156 | without Exif data, the timestamp stage succeeds only for a creation time of `Z`s only |
| `ProbeMeta.CascadeStages` | probe_meta.py:151-157 | items are compared in order: each scanned item gets its stage, and no more items are scanned than there are |
| `ProbeMeta.CascadeStops` | probe_meta.py:151-165 | only the last scanned item can be a full match, and the scan stops short of the end only at a full match, where the `NameError` at line 157 ends it |
| `ProbeMeta.MatchItems` | probe_meta.py:151-162 | the inner loop stages each item by `StageOf`, which holds the three nested comparisons, and yields exactly `Cascade`: each item's stage in order, the loop left at the first full match |
| `ProbeMeta.CascadeFinds` | probe_meta.py:151-157 | a full match is reported iff some item passes all three comparisons |
| `ProbeMeta.AlbumsOfPrefix` | probe_meta.py:55-58 | one `Album(id, title)` per listed album in order, over the prefix of albums with both keys; the next album lacks one |
| `ProbeMeta.ListingIgnoresToken` | probe_meta.py:54 | only one page is read: `nextPageToken` changes nothing |
| `ProbeMeta.GetAlbums` | probe_meta.py:49-64 | the loop returns `Listing` of the single response: `[]` on a failed call or without `albums`, otherwise the albums built before the first that raises |
| `ProbeMeta.GetAlbumContents` | probe_meta.py:66-73 | the single search uses the `Album`'s id and page size `"100"` |
| `ProbeMeta.ProbeOrder` | probe_meta.py:146-162 | the scanned albums are a prefix of the albums titled exactly `test_album`, in order, and all of them unless the last scan holds a full match |
| `ProbeMeta.ProbeEachScan` | probe_meta.py:146-162 | each scan is of a `test_album` album and holds the cascade over the contents of that album's single search |
| `ProbeMeta.ProbeStopsAtMatch` | probe_meta.py:151-162 | a full match ends the whole lookup: no scan but the last holds one |
| `ProbeMeta.ProbeAlbums` | probe_meta.py:146-162 | the outer loop fetches each `test_album` album's contents, runs the inner loop on them and yields exactly `Probe`, ending at the first full match |
| `ProbeMeta.ProbeSkips` | probe_meta.py:146-147 | albums not titled exactly `test_album` (case-sensitive) are never searched |

## Left out

- OAuth and credential persistence (`upload.py:41-106`, `utils/setup.py`): network and browser flows with token files, and no decision logic.
- Argument parsing (`upload.py:19-38`, `utils/setup.py:10-73`). The `--tz` and `--min` options it documents have no implementation in the code shown.
- Byte upload and `batchCreate` (`upload.py:160-236`): HTTP posts and chunked file reads.
- `main` of `upload.py` (`upload.py:276-359`): the wiring between the modelled functions, timing and the album summary printout.
- Reading Exif data and sniffing MIME types (`exif.Image`, `filetype.guess`). Their results are inputs here: `ProbeMeta.ExifOf` takes `has_exif` and the `datetime` tag.
- `Media.creation_ts` (`utils/album_contents.py:17-21`): it delegates date parsing to the `arrow` library.
- The remaining wiring of `probe_meta.py`'s `main`. `probe_meta.py:141-142` passes `scopes=` to `get_authorized_session`, which takes no such parameter. The resulting `TypeError` is caught at line 164, so run end to end the cascade is never reached. The model takes the cascade as written.
- Logging, `MediaOnDisk.st_ctime` (a constant stub) and elapsed-time reporting.
- Filesystem globbing and `is_file`. A directory is given by its two listings (`*/*` and `**/*`), each entry tagged with whether it is a file.
- Python's mutable default argument in `recurse_dirs` (`upload.py:262`). The list is the state of a `PhotoFileList` object.
- `Text.Lower`: does not model Unicode case mapping. Only ASCII capitals are lowered, so names with non-ASCII capitals may compare differently than in Python.
- `UploadFiles.CleanFileList`: models truthiness as a non-empty path. A `pathlib.Path` is always truthy, so only a non-`Path` entry such as `''` or `None` is falsy. Without exclusions, `filter(None, …)` drops such an entry, as the model does. With exclusions given, Python raises `AttributeError` at `p.name` (upload.py:246) before the final filter is reached, and nothing in upload.py catches it; `Cleaned` and `CleanedMembers` instead drop the entry silently, so the model does not capture that crash.
- `UploadAlbums.GetAlbums`, `UploadAlbums.FindAlbum`, `UploadAlbums.CreateOrRetrieveAlbum`: a `fuel` bound caps the number of list requests. Python would keep looping against a server that always returns a token. `OutOfFuel` is an outcome of the model only.
- An exception from the network or from JSON decoding propagates in Python, both in `getAlbums` (upload.py:118) and in the create request of `create_or_retrieve_album` (upload.py:149). The model has neither failure: the list server always answers with a page, and the `Creator` always answers with a response.
- `Media` is a value, not a mutable object. The creation time set after construction becomes a record update in the loop; no two records are ever shared, so aliasing plays no part.
