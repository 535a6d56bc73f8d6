/**
  Building the records of an album's remote media items: `get_album_contents` of
  utils/album_contents.py and of probe_meta.py, and the `Media` record both construct.

  Both functions issue a single `POST /v1/mediaItems:search` for the album with a page size of
  "100" and never follow a page token. They turn each returned item into a `Media` with `''`
  as the default creation time. Their `except` branches call `sys.exit` without `sys` being
  imported, and the resulting `NameError` is swallowed by the `return` inside `finally`.
  So they never raise: an error ends the loop and leaves what was built so far.
*/
module AlbumContents {
  import opened Wrappers
  import opened UploadAlbums

  /** The `mediaMetadata` object of an item: its `creationTime` key, possibly absent. */
  datatype MediaMetadata = MediaMetadata(creationTime: Option<string>)

  /** One element of `mediaItems`: the keys the functions read, each possibly absent. */
  datatype ItemJson = ItemJson(mimeType: Option<string>, filename: Option<string>, mediaMetadata: Option<MediaMetadata>)

  /** The body of the search request: `albumId` and `pageSize`. */
  datatype SearchRequest = SearchRequest(albumId: string, pageSize: string)

  /** A decoded search response: its `mediaItems` and `nextPageToken` keys, each possibly absent. */
  datatype SearchResponse = SearchResponse(mediaItems: Option<seq<ItemJson>>, nextPageToken: Option<string>)

  /**
    `session.post('.../v1/mediaItems:search', data).json()` as a function of the request;
    `None` when the post or the decoding raises.
  */
  type Search = SearchRequest -> Option<SearchResponse>

  /** The page size both functions ask for. */
  const PageSize: string := "100"

  /** A media item on Google Photos: MIME type, file name and `mediaMetadata.creationTime`. */
  datatype Media = Media(mimetype: string, filename: string, creationTime: string)

  /** `Media(mimetype, filename)`: the creation time starts out as `''`. */
  function NewMedia(mimetype: string, filename: string): (m: Media)
    ensures m.mimetype == mimetype && m.filename == filename && m.creationTime == ""
  {
    Media(mimetype, filename, "")
  }

  /** An item that has both keys `Media(ea['mimeType'], ea['filename'])` reads; any other raises `KeyError`. */
  predicate Complete(item: ItemJson) {
    item.mimeType.Some? && item.filename.Some?
  }

  /** The creation time a complete item's `Media` ends up with. */
  function CreationTime(item: ItemJson): string {
    match item.mediaMetadata
    case None => ""
    case Some(meta) => meta.creationTime.GetOr("")
  }

  /** The `Media` built from a complete item. */
  function ToMedia(item: ItemJson): Media
    requires Complete(item)
  {
    Media(item.mimeType.value, item.filename.value, CreationTime(item))
  }

  /** The records built from `items`: one per item, up to the first item that raises. */
  function Built(items: seq<ItemJson>): seq<Media> {
    if items == [] || !Complete(items[0]) then [] else [ToMedia(items[0])] + Built(items[1..])
  }

  /** What the function returns for a response: nothing without a response or without `mediaItems`. */
  function Contents(response: Option<SearchResponse>): seq<Media> {
    match response
    case None => []
    case Some(r) =>
      match r.mediaItems
      case None => []
      case Some(items) => Built(items)
  }

  /**
    The records are the items' records in order, over a prefix of complete items; when that
    prefix is not all of the items, the item after it is the one that raised.
  */
  lemma {:induction false} BuiltPrefix(items: seq<ItemJson>)
    ensures |Built(items)| <= |items|
    ensures forall i :: 0 <= i < |Built(items)| ==> Complete(items[i]) && Built(items)[i] == ToMedia(items[i])
    ensures |Built(items)| < |items| ==> !Complete(items[|Built(items)|])
  {
    if items != [] && Complete(items[0]) {
      BuiltPrefix(items[1..]);
    }
  }

  /** Every item yields a record exactly when every item has `mimeType` and `filename`. */
  lemma BuiltAll(items: seq<ItemJson>)
    ensures |Built(items)| == |items| <==> forall i :: 0 <= i < |items| ==> Complete(items[i])
  {
    BuiltPrefix(items);
  }

  /** An item's creation time is `''` exactly when it has no `mediaMetadata.creationTime` or it is `''`. */
  lemma CreationTimeDefault(item: ItemJson)
    requires Complete(item)
    ensures ToMedia(item).creationTime == "" <==>
      item.mediaMetadata.None? || item.mediaMetadata.value.creationTime.None? || item.mediaMetadata.value.creationTime == Some("")
  {
  }

  /** The records of two runs of items: the second run counts only when the first raised nowhere. */
  lemma {:induction false} BuiltConcat(a: seq<ItemJson>, b: seq<ItemJson>)
    ensures Built(a + b) == if |Built(a)| == |a| then Built(a) + Built(b) else Built(a)
  {
    if a == [] {
      assert a + b == b;
    } else {
      var ab := a + b;
      assert ab[0] == a[0] && ab[1..] == a[1..] + b;
      if Complete(a[0]) {
        BuiltConcat(a[1..], b);
      }
    }
  }

  /** Only the first page counts: the response's `nextPageToken` changes nothing. */
  lemma ContentsIgnoreToken(r: SearchResponse, token: Option<string>)
    ensures Contents(Some(r.(nextPageToken := token))) == Contents(Some(r))
  {
  }

  /** A response that lacks `mediaItems`, or no response at all, gives no records. */
  lemma NoItemsNoContents(response: Option<SearchResponse>)
    requires response.None? || response.value.mediaItems.None?
    ensures Contents(response) == []
  {
  }

  /** One pass of the loop over `items[i]`: appending its record keeps the prefix in step. */
  lemma BuiltStep(items: seq<ItemJson>, i: nat)
    requires i < |items|
    ensures Built(items[i..]) == if Complete(items[i]) then [ToMedia(items[i])] + Built(items[i + 1..]) else []
  {
    assert items[i..][0] == items[i];
    assert items[i..][1..] == items[i + 1..];
  }

  /**
    The body of both `get_album_contents` functions once the album id is known: one search
    for that album, then one `Media` per item, its creation time set afterwards from
    `mediaMetadata` when present; the first item without `mimeType` or `filename` ends the loop.
  */
  method SearchAlbum(search: Search, albumId: string) returns (media: seq<Media>)
    ensures media == Contents(search(SearchRequest(albumId, PageSize)))
  {
    media := [];
    var response := search(SearchRequest(albumId, PageSize));
    if response.None? || response.value.mediaItems.None? {
      return;
    }
    var items := response.value.mediaItems.value;
    var i := 0;
    while i < |items|
      invariant 0 <= i <= |items|
      invariant media + Built(items[i..]) == Built(items)
    {
      var item := items[i];
      BuiltStep(items, i);
      if item.mimeType.None? || item.filename.None? {
        // KeyError; the handler's NameError is swallowed by `return` in `finally`
        assert media == Built(items);
        return;
      }
      var m := NewMedia(item.mimeType.value, item.filename.value);
      if item.mediaMetadata.Some? {
        m := m.(creationTime := item.mediaMetadata.value.creationTime.GetOr(""));
      }
      media := media + [m];
      i := i + 1;
    }
    assert items[i..] == [];
  }

  /**
    `get_album_contents(session, album)` of utils/album_contents.py, for an album as listed by
    `get_albums`: without an `id` key the request is never built and the result is empty;
    otherwise exactly one search is issued, for that id with page size "100".
  */
  method GetAlbumContents(search: Search, album: AlbumJson) returns (media: seq<Media>, requests: seq<SearchRequest>)
    ensures album.id.None? ==> media == [] && requests == []
    ensures album.id.Some? ==> requests == [SearchRequest(album.id.value, PageSize)]
    ensures album.id.Some? ==> media == Contents(search(SearchRequest(album.id.value, PageSize)))
  {
    if album.id.None? {
      return [], [];
    }
    requests := [SearchRequest(album.id.value, PageSize)];
    media := SearchAlbum(search, album.id.value);
  }
}
