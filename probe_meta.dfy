/**
  probe_meta.py: looks for a local photo among the media of the remote albums titled
  `test_album`. An item is compared stage by stage. First its file name must equal the local
  file's name. Then its MIME type must equal the sniffed one. Last, its `creationTime`,
  rewritten into the Exif layout, must equal the photo's Exif `datetime`.

  Reading the Exif data and sniffing the MIME type are done by libraries outside this model;
  their results are inputs here.
*/
module ProbeMeta {
  import opened Wrappers
  import opened Text
  import opened UploadAlbums
  import opened AlbumContents

  // ---------------------------------------------------------------------------------------
  // The timestamp rewriting of line 156

  /** The argument of `strip('Z')`. */
  const ZChars: StripChars := Only('Z')

  /** What the two replacements do to one character: `-` becomes `:` and `T` becomes a space. */
  function Rewritten(c: char): char {
    if c == '-' then ':' else if c == 'T' then ' ' else c
  }

  /** The two replacements, `.replace('-', ':').replace('T', ' ')`. */
  function Rewrite(t: string): string {
    ReplaceChar(ReplaceChar(t, '-', ':'), 'T', ' ')
  }

  /** `creation_time.strip('Z').replace('-', ':').replace('T', ' ')`. */
  function NormalizeRemote(s: string): string {
    Rewrite(Strip(s, ZChars))
  }

  /** The two replacements together act on each character by `Rewritten`, which leaves no `-` or `T`. */
  lemma RewriteEach(t: string)
    ensures |Rewrite(t)| == |t|
    ensures forall k :: 0 <= k < |t| ==> Rewrite(t)[k] == Rewritten(t[k])
    ensures forall k :: 0 <= k < |t| ==> Rewrite(t)[k] != '-' && Rewrite(t)[k] != 'T'
  {
    var u := ReplaceChar(t, '-', ':');
    ReplaceCharSpec(t, '-', ':');
    ReplaceCharSpec(u, 'T', ' ');
    forall k | 0 <= k < |t|
      ensures Rewrite(t)[k] == Rewritten(t[k])
    {
      assert u[k] == if t[k] == '-' then ':' else t[k];
    }
  }

  /**
    The rewritten string is the input with its leading and trailing runs of `Z` removed and
    every other character passed through `Rewritten`: so it is as long as the input less
    those runs.
  */
  lemma NormalizeShape(s: string)
    ensures Leading(s, ZChars) + |NormalizeRemote(s)| <= |s|
    ensures forall k :: 0 <= k < Leading(s, ZChars) ==> s[k] == 'Z'
    ensures forall k :: Leading(s, ZChars) + |NormalizeRemote(s)| <= k < |s| ==> s[k] == 'Z'
    ensures forall k :: 0 <= k < |NormalizeRemote(s)| ==> NormalizeRemote(s)[k] == Rewritten(s[Leading(s, ZChars) + k])
  {
    var t := Strip(s, ZChars);
    var i := Leading(s, ZChars);
    RewriteEach(t);
    StripSpec(s, ZChars);
    forall k | 0 <= k < |t|
      ensures Rewrite(t)[k] == Rewritten(s[i + k])
    {
      assert t[k] == s[i + k];
    }
  }

  /** The rewritten string contains no `-` and no `T`, and neither starts nor ends with `Z`. */
  lemma NormalizeClean(s: string)
    ensures var r := NormalizeRemote(s);
      && (forall k :: 0 <= k < |r| ==> r[k] != '-' && r[k] != 'T')
      && (r != [] ==> r[0] != 'Z' && r[|r| - 1] != 'Z')
  {
    var t := Strip(s, ZChars);
    RewriteEach(t);
    StripSpec(s, ZChars);
    assert t != [] ==> Rewrite(t)[0] == Rewritten(t[0]) && Rewrite(t)[|t| - 1] == Rewritten(t[|t| - 1]);
  }

  /** When neither end of the input is `Z`, nothing is stripped and only the two replacements act. */
  lemma NormalizeNoZ(s: string)
    requires s != [] ==> s[0] != 'Z' && s[|s| - 1] != 'Z'
    ensures NormalizeRemote(s) == ReplaceChar(ReplaceChar(s, '-', ':'), 'T', ' ')
  {
    StripKeeps(s, ZChars);
  }

  /** A Zulu `date-time` normalises to its first nineteen characters, each passed through `Rewritten`. */
  lemma ZuluNormalizes(s: string, e: string)
    requires ZuluDateTime(s)
    requires |e| == 19 && forall k :: 0 <= k < 19 ==> e[k] == Rewritten(s[k])
    ensures NormalizeRemote(s) == e
  {
    NormalizeShape(s);
    ZuluBecomesExif(s);
    assert ZuluChar(0, s[0]);
    assert Leading(s, ZChars) == 0;
  }

  /** Google's `2021-06-01T10:00:00Z` becomes the Exif `2021:06:01 10:00:00`. */
  lemma NormalizeExample()
    ensures NormalizeRemote("2021-06-01T10:00:00Z") == "2021:06:01 10:00:00"
  {
    ZuluNormalizes("2021-06-01T10:00:00Z", "2021:06:01 10:00:00");
  }

  predicate IsDigit(c: char) {
    '0' <= c <= '9'
  }

  /** The positions of the separators in both layouts: after year, month, day, hour and minute. */
  predicate Separator(k: int) {
    k == 4 || k == 7 || k == 10 || k == 13 || k == 16
  }

  /** The character at position `k` of `YYYY-MM-DDTHH:MM:SSZ`. */
  predicate ZuluChar(k: int, c: char) {
    if k == 4 || k == 7 then c == '-'
    else if k == 10 then c == 'T'
    else if k == 13 || k == 16 then c == ':'
    else if k == 19 then c == 'Z'
    else IsDigit(c)
  }

  /** The character at position `k` of `YYYY:MM:DD HH:MM:SS`. */
  predicate ExifChar(k: int, c: char) {
    if k == 4 || k == 7 || k == 13 || k == 16 then c == ':'
    else if k == 10 then c == ' '
    else IsDigit(c)
  }

  /**
    An RFC 3339 (section 5.6) `date-time` in UTC written with upper-case `T` and `Z` and
    without fractional seconds, twenty characters.
  */
  predicate ZuluDateTime(s: string) {
    |s| == 20 && forall k :: 0 <= k < 20 ==> ZuluChar(k, s[k])
  }

  /** The layout of the TIFF 6.0 DateTime tag (section 8, tag 306) that Exif carries, nineteen characters. */
  predicate ExifDateTime(s: string) {
    |s| == 19 && forall k :: 0 <= k < 19 ==> ExifChar(k, s[k])
  }

  /** A Zulu `date-time` is rewritten into the Exif layout, keeping every digit in place. */
  lemma ZuluBecomesExif(s: string)
    requires ZuluDateTime(s)
    ensures ExifDateTime(NormalizeRemote(s))
    ensures forall k :: 0 <= k < 19 && !Separator(k) ==> NormalizeRemote(s)[k] == s[k]
  {
    NormalizeShape(s);
    NormalizeClean(s);
    var r, i := NormalizeRemote(s), Leading(s, ZChars);
    assert ZuluChar(0, s[0]) && ZuluChar(18, s[18]) && ZuluChar(19, s[19]);
    assert i == 0;
    assert |r| == 19;
    forall k | 0 <= k < 19
      ensures ExifChar(k, r[k]) && (!Separator(k) ==> r[k] == s[k])
    {
      assert ZuluChar(k, s[k]);
      assert r[k] == Rewritten(s[k]);
    }
  }

  /**
    A `creationTime` with fractional seconds (`...:00.5Z`) keeps its `.` and so is never in
    the Exif layout: the timestamp stage cannot succeed for it.
  */
  lemma FractionNeverExif(s: string, k: nat)
    requires k < |s| && s[k] == '.'
    ensures !ExifDateTime(NormalizeRemote(s))
  {
    NormalizeKeeps(s, k);
    var r, i := NormalizeRemote(s), Leading(s, ZChars);
    assert r[k - i] == '.';
    assert !ExifChar(k - i, r[k - i]);
  }

  /** A character other than `Z` is never stripped: it reaches the output, rewritten. */
  lemma NormalizeKeeps(s: string, k: nat)
    requires k < |s| && s[k] != 'Z'
    ensures Leading(s, ZChars) <= k < Leading(s, ZChars) + |NormalizeRemote(s)|
    ensures NormalizeRemote(s)[k - Leading(s, ZChars)] == Rewritten(s[k])
  {
    NormalizeShape(s);
    var r, i := NormalizeRemote(s), Leading(s, ZChars);
    assert i <= k < i + |r|;
    assert r[k - i] == Rewritten(s[i + (k - i)]);
  }

  /** The rewritten string is empty exactly when the input is made of `Z`s only. */
  lemma NormalizeEmpty(s: string)
    ensures NormalizeRemote(s) == "" <==> forall k :: 0 <= k < |s| ==> s[k] == 'Z'
  {
    NormalizeShape(s);
    StripSpec(s, ZChars);
    var r, i := NormalizeRemote(s), Leading(s, ZChars);
    assert i < |s| ==> s[i] != 'Z';
  }

  // ---------------------------------------------------------------------------------------
  // The local photo

  /** What `main` knows of the local photo: its file name, sniffed MIME type and Exif `datetime`. */
  datatype Local = Local(name: string, mime: string, exifDateTime: string)

  /** `exif_datetime`: `''` unless the image has Exif data carrying a `datetime` tag. */
  function ExifOf(hasExif: bool, datetimeTag: Option<string>): (e: string)
    ensures !hasExif || datetimeTag.None? ==> e == ""
    ensures hasExif && datetimeTag.Some? ==> e == datetimeTag.value
  {
    if hasExif then datetimeTag.GetOr("") else ""
  }

  // ---------------------------------------------------------------------------------------
  // The matching cascade of lines 151-162

  /** How far one remote item got through the three comparisons. */
  datatype Stage = NoNameMatch | MimeMismatch | TimestampMismatch | FullMatch

  /** The stage one item reaches: each comparison is made only after the one before it succeeded. */
  function StageOf(local: Local, m: Media): Stage {
    if m.filename != local.name then NoNameMatch
    else if local.mime != m.mimetype then MimeMismatch
    else if NormalizeRemote(m.creationTime) != local.exifDateTime then TimestampMismatch
    else FullMatch
  }

  /** A full match needs all three exact equalities, and they suffice. */
  lemma FullMatchIff(local: Local, m: Media)
    ensures StageOf(local, m) == FullMatch <==>
      m.filename == local.name && m.mimetype == local.mime && NormalizeRemote(m.creationTime) == local.exifDateTime
  {
  }

  /**
    The MIME type is looked at only for an item whose name matches, and the timestamp only
    for one whose MIME type matches too.
  */
  lemma StagesInOrder(local: Local, m: Media)
    ensures StageOf(local, m) == NoNameMatch <==> m.filename != local.name
    ensures StageOf(local, m) == MimeMismatch <==> m.filename == local.name && m.mimetype != local.mime
    ensures StageOf(local, m) == TimestampMismatch <==>
      m.filename == local.name && m.mimetype == local.mime && NormalizeRemote(m.creationTime) != local.exifDateTime
  {
  }

  /** Without Exif data the timestamp stage succeeds only for a creation time made of `Z`s only (or empty). */
  lemma NoExifMatch(name: string, mime: string, m: Media)
    ensures var local := Local(name, mime, ExifOf(false, None));
      StageOf(local, m) == FullMatch <==>
        m.filename == name && m.mimetype == mime && forall k :: 0 <= k < |m.creationTime| ==> m.creationTime[k] == 'Z'
  {
    NormalizeEmpty(m.creationTime);
  }

  /**
    The stages of the items the loop looks at. A full match logs a message naming the
    undefined `p`. The `NameError` escapes the loop and is caught by the handler around the
    whole lookup, so the scan ends at the first full match.
  */
  function Cascade(local: Local, items: seq<Media>): seq<Stage> {
    if items == [] then []
    else
      var stage := StageOf(local, items[0]);
      if stage == FullMatch then [stage] else [stage] + Cascade(local, items[1..])
  }

  /** True when a full match was logged. */
  predicate Found(stages: seq<Stage>) {
    stages != [] && stages[|stages| - 1] == FullMatch
  }

  /** One pass of the inner loop over `items[i]`. */
  lemma CascadeStep(local: Local, items: seq<Media>, i: nat)
    requires i < |items|
    ensures Cascade(local, items[i..]) ==
      if StageOf(local, items[i]) == FullMatch then [FullMatch] else [StageOf(local, items[i])] + Cascade(local, items[i + 1..])
  {
    assert items[i..][0] == items[i];
    assert items[i..][1..] == items[i + 1..];
  }

  /**
    The inner loop over one album's media items: the three nested comparisons per item, the
    loop left at the first full match.
  */
  method MatchItems(local: Local, items: seq<Media>) returns (stages: seq<Stage>)
    ensures stages == Cascade(local, items)
  {
    stages := [];
    var i := 0;
    while i < |items|
      invariant 0 <= i <= |items|
      invariant stages + Cascade(local, items[i..]) == Cascade(local, items)
    {
      var mi := items[i];
      CascadeStep(local, items, i);
      var stage := StageOf(local, mi);
      if stage == FullMatch {
        // the log message names the undefined `p`: the NameError leaves the loop
        stages := stages + [FullMatch];
        return;
      }
      stages := stages + [stage];
      i := i + 1;
    }
    assert items[i..] == [];
  }

  /** The loop looks at the items in order, each getting its own stage. */
  lemma {:induction false} CascadeStages(local: Local, items: seq<Media>)
    ensures |Cascade(local, items)| <= |items|
    ensures forall i :: 0 <= i < |Cascade(local, items)| ==> Cascade(local, items)[i] == StageOf(local, items[i])
  {
    if items != [] && StageOf(local, items[0]) != FullMatch {
      var rest := items[1..];
      CascadeStages(local, rest);
      var r, t := Cascade(local, items), Cascade(local, rest);
      assert r == [StageOf(local, items[0])] + t;
      forall i | 1 <= i < |r|
        ensures r[i] == StageOf(local, items[i])
      {
        assert r[i] == t[i - 1] && items[i] == rest[i - 1];
      }
    }
  }

  /**
    The loop goes on to the end unless it reaches a full match, and only the last item it
    looks at can be one.
  */
  lemma {:induction false} CascadeStops(local: Local, items: seq<Media>)
    ensures forall i :: 0 <= i < |Cascade(local, items)| - 1 ==> Cascade(local, items)[i] != FullMatch
    ensures |Cascade(local, items)| < |items| ==> Found(Cascade(local, items))
  {
    if items != [] && StageOf(local, items[0]) != FullMatch {
      var rest := items[1..];
      CascadeStops(local, rest);
      var r, t := Cascade(local, items), Cascade(local, rest);
      assert r == [StageOf(local, items[0])] + t;
      forall i | 1 <= i < |r| - 1
        ensures r[i] != FullMatch
      {
        assert r[i] == t[i - 1];
      }
      assert t != [] ==> r[|r| - 1] == t[|t| - 1];
    }
  }

  /** The lookup reports a find exactly when some item passes all three comparisons. */
  lemma CascadeFinds(local: Local, items: seq<Media>)
    ensures Found(Cascade(local, items)) <==> exists i :: 0 <= i < |items| && StageOf(local, items[i]) == FullMatch
  {
    CascadeStages(local, items);
    CascadeStops(local, items);
    var r := Cascade(local, items);
    if Found(r) {
      assert StageOf(local, items[|r| - 1]) == FullMatch;
    } else {
      assert |r| == |items|;
      forall i | 0 <= i < |items|
        ensures StageOf(local, items[i]) != FullMatch
      {
        assert r[i] == StageOf(local, items[i]);
      }
    }
  }

  // ---------------------------------------------------------------------------------------
  // get_albums and get_album_contents of probe_meta.py

  /** `Album(id, title)`. */
  datatype Album = Album(id: string, title: string)

  /** An album object that has both keys the loop reads; any other raises `KeyError`. */
  predicate Named(a: AlbumJson) {
    a.id.Some? && a.title.Some?
  }

  /** The albums built from a listing, up to the first one that raises. */
  function AlbumsOf(listed: seq<AlbumJson>): seq<Album> {
    if listed == [] || !Named(listed[0]) then []
    else [Album(listed[0].id.value, listed[0].title.value)] + AlbumsOf(listed[1..])
  }

  /** What `get_albums` returns for the single response it asks for. */
  function Listing(response: Option<AlbumPage>): seq<Album> {
    match response
    case None => []
    case Some(page) =>
      match page.albums
      case None => []
      case Some(listed) => AlbumsOf(listed)
  }

  /**
    The albums are built in listing order over a prefix of well-formed entries; when that
    prefix is not the whole listing, the next entry lacks `id` or `title`.
  */
  lemma {:induction false} AlbumsOfPrefix(listed: seq<AlbumJson>)
    ensures |AlbumsOf(listed)| <= |listed|
    ensures forall i :: 0 <= i < |AlbumsOf(listed)| ==>
      Named(listed[i]) && AlbumsOf(listed)[i] == Album(listed[i].id.value, listed[i].title.value)
    ensures |AlbumsOf(listed)| < |listed| ==> !Named(listed[|AlbumsOf(listed)|])
  {
    if listed != [] && Named(listed[0]) {
      AlbumsOfPrefix(listed[1..]);
    }
  }

  /** Only one page is read: the response's `nextPageToken` changes nothing. */
  lemma ListingIgnoresToken(page: AlbumPage, token: Option<string>)
    ensures Listing(Some(page.(nextPageToken := token))) == Listing(Some(page))
  {
  }

  lemma AlbumsOfStep(listed: seq<AlbumJson>, i: nat)
    requires i < |listed|
    ensures AlbumsOf(listed[i..]) == if Named(listed[i]) then [Album(listed[i].id.value, listed[i].title.value)] + AlbumsOf(listed[i + 1..]) else []
  {
    assert listed[i..][0] == listed[i];
    assert listed[i..][1..] == listed[i + 1..];
  }

  /**
    `get_albums(session)`: one `GET /v1/albums`, then an `Album` per listed album. An album
    without `title` or `id` raises, and the `return` in `finally` hands back the albums built
    before it.
  */
  method GetAlbums(response: Option<AlbumPage>) returns (albums: seq<Album>)
    ensures albums == Listing(response)
  {
    albums := [];
    if response.None? || response.value.albums.None? {
      return;
    }
    var listed := response.value.albums.value;
    var i := 0;
    while i < |listed|
      invariant 0 <= i <= |listed|
      invariant albums + AlbumsOf(listed[i..]) == AlbumsOf(listed)
    {
      var ea := listed[i];
      AlbumsOfStep(listed, i);
      if ea.title.None? || ea.id.None? {
        assert albums == AlbumsOf(listed);
        return;
      }
      albums := albums + [Album(ea.id.value, ea.title.value)];
      i := i + 1;
    }
    assert listed[i..] == [];
  }

  /** `get_album_contents(session, album)`: the single search for the album's id. */
  method GetAlbumContents(search: Search, album: Album) returns (media: seq<Media>)
    ensures media == Contents(search(SearchRequest(album.id, PageSize)))
  {
    media := SearchAlbum(search, album.id);
  }

  // ---------------------------------------------------------------------------------------
  // The album loop of main (lines 146-162)

  /** The album the loop looks into: the title must be exactly `test_album`. */
  predicate Probed(a: Album) {
    a.title == "test_album"
  }

  /** The records of an album's contents and the stages its items reached. */
  datatype AlbumScan = AlbumScan(album: Album, stages: seq<Stage>)

  /** The stages reached by the items of one album's contents. */
  function AlbumStages(local: Local, album: Album, search: Search): seq<Stage> {
    Cascade(local, Contents(search(SearchRequest(album.id, PageSize))))
  }

  /**
    The loop of `main` over the albums: every album titled `test_album` has its contents
    fetched and run through the cascade, until a full match ends the whole lookup.
  */
  function Probe(local: Local, albums: seq<Album>, search: Search): seq<AlbumScan> {
    if albums == [] then []
    else if !Probed(albums[0]) then Probe(local, albums[1..], search)
    else
      var stages := AlbumStages(local, albums[0], search);
      [AlbumScan(albums[0], stages)] + if Found(stages) then [] else Probe(local, albums[1..], search)
  }

  /** The albums titled `test_album`, in order. */
  function TestAlbums(albums: seq<Album>): seq<Album> {
    if albums == [] then []
    else (if Probed(albums[0]) then [albums[0]] else []) + TestAlbums(albums[1..])
  }

  /** The albums of a scan. */
  function ScannedAlbums(scans: seq<AlbumScan>): seq<Album> {
    if scans == [] then [] else [scans[0].album] + ScannedAlbums(scans[1..])
  }

  /**
    The scanned albums are the `test_album` ones, in order, and all of them unless the last
    scan found a full match.
  */
  lemma {:induction false} ProbeOrder(local: Local, albums: seq<Album>, search: Search)
    ensures ScannedAlbums(Probe(local, albums, search)) <= TestAlbums(albums)
    ensures ScannedAlbums(Probe(local, albums, search)) != TestAlbums(albums) ==>
      var scans := Probe(local, albums, search); scans != [] && Found(scans[|scans| - 1].stages)
  {
    if albums != [] {
      ProbeOrder(local, albums[1..], search);
      if Probed(albums[0]) {
        var stages := AlbumStages(local, albums[0], search);
        var rest := Probe(local, albums[1..], search);
        var scans := Probe(local, albums, search);
        if !Found(stages) {
          assert scans == [AlbumScan(albums[0], stages)] + rest;
          assert scans[1..] == rest;
          assert rest != [] ==> scans[|scans| - 1] == rest[|rest| - 1];
        }
      }
    }
  }

  /** Each scan is of a `test_album` album and holds the cascade over that album's contents. */
  lemma {:induction false} ProbeEachScan(local: Local, albums: seq<Album>, search: Search)
    ensures forall i :: 0 <= i < |Probe(local, albums, search)| ==>
      var scan := Probe(local, albums, search)[i];
      Probed(scan.album) && scan.stages == AlbumStages(local, scan.album, search)
  {
    if albums != [] {
      ProbeEachScan(local, albums[1..], search);
      if Probed(albums[0]) && !Found(AlbumStages(local, albums[0], search)) {
        var scans := Probe(local, albums, search);
        assert scans[1..] == Probe(local, albums[1..], search);
      }
    }
  }

  /** A full match ends the lookup: no scan but the last found one. */
  lemma {:induction false} ProbeStopsAtMatch(local: Local, albums: seq<Album>, search: Search)
    ensures forall i :: 0 <= i < |Probe(local, albums, search)| - 1 ==> !Found(Probe(local, albums, search)[i].stages)
  {
    if albums != [] {
      ProbeStopsAtMatch(local, albums[1..], search);
      if Probed(albums[0]) && !Found(AlbumStages(local, albums[0], search)) {
        var scans := Probe(local, albums, search);
        assert scans[1..] == Probe(local, albums[1..], search);
      }
    }
  }

  /** One pass of the outer loop over `albums[i]`. */
  lemma ProbeStep(local: Local, albums: seq<Album>, search: Search, i: nat)
    requires i < |albums|
    ensures Probe(local, albums[i..], search) ==
      if !Probed(albums[i]) then Probe(local, albums[i + 1..], search)
      else
        var stages := AlbumStages(local, albums[i], search);
        [AlbumScan(albums[i], stages)] + if Found(stages) then [] else Probe(local, albums[i + 1..], search)
  {
    assert albums[i..][0] == albums[i];
    assert albums[i..][1..] == albums[i + 1..];
  }

  /**
    The loop of `main` over the listed albums: the contents of every `test_album` album are
    fetched and matched item by item; the first full match ends the lookup.
  */
  method ProbeAlbums(local: Local, albums: seq<Album>, search: Search) returns (scans: seq<AlbumScan>)
    ensures scans == Probe(local, albums, search)
  {
    scans := [];
    var i := 0;
    while i < |albums|
      invariant 0 <= i <= |albums|
      invariant scans + Probe(local, albums[i..], search) == Probe(local, albums, search)
    {
      var ea := albums[i];
      ProbeStep(local, albums, search, i);
      if ea.title == "test_album" {
        var mediaItems := GetAlbumContents(search, ea);
        var stages := MatchItems(local, mediaItems);
        scans := scans + [AlbumScan(ea, stages)];
        if Found(stages) {
          assert scans == Probe(local, albums, search);
          return;
        }
      }
      i := i + 1;
    }
    assert albums[i..] == [];
  }

  /** Albums not titled exactly `test_album` (also `Test_Album`) are never looked into. */
  lemma ProbeSkips(local: Local, albums: seq<Album>, search: Search)
    requires forall i :: 0 <= i < |albums| ==> !Probed(albums[i])
    ensures Probe(local, albums, search) == []
  {
  }
}
