/**
  Album listing and lookup of upload.py: the `getAlbums` generator, which follows
  `nextPageToken` through the pages of `GET /v1/albums` (the same loop is repeated verbatim as
  `get_albums` in utils/album_contents.py), and `create_or_retrieve_album`, which looks an
  album up by title over that stream and creates one only when none matches.

  The server is a total function from the request's query parameters to the decoded
  response; `fuel` bounds the number of requests, since against an arbitrary server the
  loop need not end.
*/
module UploadAlbums {
  import opened Wrappers
  import opened Text

  /** An album as listed: the `id` and `title` keys of its JSON object, either possibly absent. */
  datatype AlbumJson = AlbumJson(id: Option<string>, title: Option<string>)

  /** The `params` dict: `excludeNonAppCreatedData`, and `pageToken` once a page has named a next one. */
  datatype Request = Request(excludeNonAppCreatedData: bool, pageToken: Option<string>)

  /** A decoded response: its `albums` and `nextPageToken` keys, each possibly absent. */
  datatype AlbumPage = AlbumPage(albums: Option<seq<AlbumJson>>, nextPageToken: Option<string>)

  /** `session.get('.../v1/albums', params=params).json()` as a function of `params`. */
  type Server = Request -> AlbumPage

  /** One request of the loop and the response it got. */
  datatype Exchange = Exchange(request: Request, response: AlbumPage)

  /** The parameters of the first request. */
  function FirstRequest(appCreatedOnly: bool): Request {
    Request(appCreatedOnly, None)
  }

  /** The loop asks for another page only after a response that has both `albums` and `nextPageToken`. */
  predicate Continues(page: AlbumPage) {
    page.albums.Some? && page.nextPageToken.Some?
  }

  /** The requests the loop issues, from `request` on, with at most `fuel` of them. */
  function Exchanges(server: Server, request: Request, fuel: nat): seq<Exchange>
    decreases fuel
  {
    if fuel == 0 then []
    else
      var page := server(request);
      if Continues(page) then
        [Exchange(request, page)] + Exchanges(server, request.(pageToken := page.nextPageToken), fuel - 1)
      else
        [Exchange(request, page)]
  }

  /** The listing ended because the server said so, not because the fuel ran out. */
  predicate Finished(xs: seq<Exchange>) {
    xs != [] && !Continues(xs[|xs| - 1].response)
  }

  /** The albums the generator yields for these exchanges: each page's `albums`, in page order. */
  function Yielded(xs: seq<Exchange>): seq<AlbumJson> {
    if xs == [] then [] else xs[0].response.albums.GetOr([]) + Yielded(xs[1..])
  }

  lemma {:induction false} YieldedConcat(a: seq<Exchange>, b: seq<Exchange>)
    ensures Yielded(a + b) == Yielded(a) + Yielded(b)
  {
    if a == [] {
      assert a + b == b;
    } else {
      var ab := a + b;
      assert ab != [] && ab[0] == a[0] && ab[1..] == a[1..] + b;
      YieldedConcat(a[1..], b);
      var head := a[0].response.albums.GetOr([]);
      assert Yielded(ab) == head + Yielded(a[1..] + b);
      assert Yielded(a) == head + Yielded(a[1..]);
    }
  }

  /** Appending one exchange appends that page's albums. */
  lemma YieldedSnoc(xs: seq<Exchange>, x: Exchange)
    ensures Yielded(xs + [x]) == Yielded(xs) + x.response.albums.GetOr([])
  {
    YieldedConcat(xs, [x]);
    assert [x][1..] == [];
  }

  /**
    The shape of every request sequence: it starts with `request`, each response is the
    server's answer to its request, every request but the last got a response with both
    `albums` and `nextPageToken` and is followed by the same parameters with `pageToken` set to
    that token, and the loop stops early only when the server ends it.
  */
  lemma {:induction false} ExchangesChain(server: Server, request: Request, fuel: nat)
    ensures var xs := Exchanges(server, request, fuel);
      && |xs| <= fuel
      && (fuel > 0 ==> xs != [] && xs[0].request == request)
      && (forall i :: 0 <= i < |xs| ==> xs[i].response == server(xs[i].request))
      && (forall i :: 0 <= i < |xs| - 1 ==>
            Continues(xs[i].response)
            && xs[i + 1].request == xs[i].request.(pageToken := xs[i].response.nextPageToken))
      && (|xs| < fuel ==> Finished(xs))
    decreases fuel
  {
    if fuel > 0 {
      var page := server(request);
      if Continues(page) {
        var next := request.(pageToken := page.nextPageToken);
        ExchangesChain(server, next, fuel - 1);
        var rest := Exchanges(server, next, fuel - 1);
        var xs := Exchanges(server, request, fuel);
        assert xs == [Exchange(request, page)] + rest;
        forall i | 0 <= i < |xs| - 1
          ensures Continues(xs[i].response)
          ensures xs[i + 1].request == xs[i].request.(pageToken := xs[i].response.nextPageToken)
        {
          if i > 0 {
            assert xs[i] == rest[i - 1] && xs[i + 1] == rest[i];
          }
        }
      }
    }
  }

  /**
    Every request carries `excludeNonAppCreatedData` as first given; between two requests only
    `pageToken` changes.
  */
  lemma {:induction false} RequestsKeepFlag(server: Server, request: Request, fuel: nat)
    ensures forall x :: x in Exchanges(server, request, fuel) ==>
      x.request.excludeNonAppCreatedData == request.excludeNonAppCreatedData
    decreases fuel
  {
    if fuel > 0 {
      var page := server(request);
      if Continues(page) {
        RequestsKeepFlag(server, request.(pageToken := page.nextPageToken), fuel - 1);
      }
    }
  }

  /** A response without `albums` ends the listing even when it carries a `nextPageToken`. */
  lemma StopsWithoutAlbums(server: Server, request: Request, fuel: nat, i: nat)
    requires var xs := Exchanges(server, request, fuel); i < |xs| && xs[i].response.albums.None?
    ensures i == |Exchanges(server, request, fuel)| - 1
  {
    ExchangesChain(server, request, fuel);
  }

  /** One iteration of the loop, seen from the remaining requests: the page fetched now is the next exchange. */
  lemma SuffixStep(server: Server, full: seq<Exchange>, done: seq<Exchange>, request: Request, fuel: nat)
    requires fuel > 0 && done + Exchanges(server, request, fuel) == full
    ensures var page := server(request);
      if Continues(page) then (done + [Exchange(request, page)]) + Exchanges(server, request.(pageToken := page.nextPageToken), fuel - 1) == full
      else done + [Exchange(request, page)] == full
  {
    ExchangesStep(server, request, fuel);
  }

  /**
    `getAlbums(session, appCreatedOnly)` run to exhaustion: the requests it issues and the
    albums it yields.
  */
  method GetAlbums(server: Server, appCreatedOnly: bool, fuel: nat)
    returns (albums: seq<AlbumJson>, exchanges: seq<Exchange>)
    ensures exchanges == Exchanges(server, FirstRequest(appCreatedOnly), fuel)
    ensures albums == Yielded(exchanges)
  {
    var params := FirstRequest(appCreatedOnly);
    ghost var full := Exchanges(server, params, fuel);
    albums, exchanges := [], [];
    var remaining := fuel;
    while remaining > 0
      invariant exchanges + Exchanges(server, params, remaining) == full
      invariant albums == Yielded(exchanges)
    {
      var page := server(params);
      var x := Exchange(params, page);
      SuffixStep(server, full, exchanges, params, remaining);
      YieldedSnoc(exchanges, x);
      exchanges := exchanges + [x];
      if page.albums.None? {
        return;
      }
      albums := albums + page.albums.value;
      if page.nextPageToken.None? {
        return;
      }
      params := params.(pageToken := page.nextPageToken);
      remaining := remaining - 1;
    }
  }

  // ---------------------------------------------------------------------------------------
  // create_or_retrieve_album

  /** The answer to `POST /v1/albums`: its `id` key, possibly absent. */
  datatype CreateResponse = CreateResponse(id: Option<string>)

  /** `session.post('.../v1/albums', {"album": {"title": t}}).json()` as a function of the title. */
  type Creator = string -> CreateResponse

  /**
    How `create_or_retrieve_album` ends: an existing album's id, a newly created album's id,
    `None` after a create response without `id`, a `KeyError` from a listed album without
    `title` (or a matching one without `id`), which the function does not catch; or, in the
    model only, the fuel ran out before the listing ended.
  */
  datatype Lookup = Existing(id: string) | Created(id: string) | CreateFailed | KeyMissing | OutOfFuel

  /** The loop stops at this album: it has no title (a `KeyError`) or its title matches. */
  predicate Stops(a: AlbumJson, title: string) {
    a.title.None? || Lower(a.title.value) == Lower(title)
  }

  /** The index of the first album the loop stops at, or `|albums|` when it stops at none. */
  function FirstStop(albums: seq<AlbumJson>, title: string): (k: nat)
    ensures k <= |albums|
  {
    if albums == [] then 0
    else if Stops(albums[0], title) then 0
    else 1 + FirstStop(albums[1..], title)
  }

  /** No album before the first stop stops the loop, and the first stop, if any, does. */
  lemma {:induction false} FirstStopSpec(albums: seq<AlbumJson>, title: string)
    ensures forall i :: 0 <= i < FirstStop(albums, title) ==> !Stops(albums[i], title)
    ensures FirstStop(albums, title) < |albums| ==> Stops(albums[FirstStop(albums, title)], title)
  {
    if albums != [] && !Stops(albums[0], title) {
      FirstStopSpec(albums[1..], title);
      forall i | 1 <= i < FirstStop(albums, title)
        ensures !Stops(albums[i], title)
      {
        assert albums[i] == albums[1..][i - 1];
      }
    }
  }

  /** Any index with no stop before it and a stop at it (or the end) is the first stop. */
  lemma {:induction false} FirstStopUnique(albums: seq<AlbumJson>, title: string, j: nat)
    requires j <= |albums|
    requires forall i :: 0 <= i < j ==> !Stops(albums[i], title)
    requires j < |albums| ==> Stops(albums[j], title)
    ensures FirstStop(albums, title) == j
    decreases j
  {
    if j > 0 {
      assert !Stops(albums[0], title);
      forall i | 0 <= i < j - 1
        ensures !Stops(albums[1..][i], title)
      {
        assert albums[1..][i] == albums[i + 1];
      }
      FirstStopUnique(albums[1..], title, j - 1);
    }
  }

  lemma {:induction false} FirstStopConcat(a: seq<AlbumJson>, b: seq<AlbumJson>, title: string)
    ensures FirstStop(a + b, title) == if FirstStop(a, title) < |a| then FirstStop(a, title) else |a| + FirstStop(b, title)
  {
    if a == [] {
      assert a + b == b;
    } else {
      assert (a + b)[0] == a[0] && (a + b)[1..] == a[1..] + b;
      if !Stops(a[0], title) {
        FirstStopConcat(a[1..], b, title);
      }
    }
  }

  /**
    Splitting the listing at one page: when no album before the page stops the scan, the
    first stop is the page's first stop, shifted by what came before; when the page holds none
    either, no album up to and including it stops the scan.
  */
  lemma PageSplit(before: seq<Exchange>, x: Exchange, after: seq<Exchange>, title: string)
    requires FirstStop(Yielded(before), title) == |Yielded(before)|
    ensures var batch := x.response.albums.GetOr([]);
      var all := Yielded(before + [x] + after);
      var k := FirstStop(batch, title);
      (k < |batch| ==>
        FirstStop(all, title) == |Yielded(before)| + k && |Yielded(before)| + k < |all|
        && all[|Yielded(before)| + k] == batch[k]
        && FirstStop(Yielded(before + [x]), title) < |Yielded(before + [x])|)
      && (k == |batch| ==> FirstStop(Yielded(before + [x]), title) == |Yielded(before + [x])|)
  {
    var batch := x.response.albums.GetOr([]);
    assert Yielded([x]) == batch by {
      assert [x][1..] == [];
    }
    YieldedConcat(before, [x]);
    YieldedConcat(before + [x], after);
    FirstStopConcat(Yielded(before), batch, title);
    FirstStopConcat(Yielded(before) + batch, Yielded(after), title);
    var all := Yielded(before + [x] + after);
    assert all == Yielded(before) + batch + Yielded(after);
    if FirstStop(batch, title) < |batch| {
      IndexMiddle(Yielded(before), batch, Yielded(after), FirstStop(batch, title));
    }
  }

  lemma IndexMiddle<T>(p: seq<T>, m: seq<T>, q: seq<T>, k: nat)
    requires k < |m|
    ensures (p + m + q)[|p| + k] == m[k]
  {
  }

  /** One step of the request sequence. */
  lemma ExchangesStep(server: Server, request: Request, fuel: nat)
    requires fuel > 0
    ensures var page := server(request);
      Exchanges(server, request, fuel) == [Exchange(request, page)]
        + (if Continues(page) then Exchanges(server, request.(pageToken := page.nextPageToken), fuel - 1) else [])
  {
  }

  /** `for a in getAlbums(...)` up to the first album whose title is missing or matches. */
  method ScanPage(batch: seq<AlbumJson>, title: string) returns (j: nat)
    ensures j == FirstStop(batch, title)
  {
    j := 0;
    while j < |batch|
      invariant j <= |batch|
      invariant forall i :: 0 <= i < j ==> !Stops(batch[i], title)
    {
      var a := batch[j];
      if a.title.None? || Lower(a.title.value) == Lower(title) {
        FirstStopUnique(batch, title, j);
        return;
      }
      j := j + 1;
    }
    FirstStopUnique(batch, title, j);
  }

  /** What `create_or_retrieve_album` returns, given the full request sequence and the server's create answer. */
  function LookupOutcome(xs: seq<Exchange>, title: string, create: Creator): Lookup {
    var albums := Yielded(xs);
    var k := FirstStop(albums, title);
    if k < |albums| then
      if albums[k].title.None? || albums[k].id.None? then KeyMissing else Existing(albums[k].id.value)
    else if !Finished(xs) then OutOfFuel
    else if create(title).id.Some? then Created(create(title).id.value)
    else CreateFailed
  }

  /**
    Album `k` is the one the loop returns: it has a title that equals the requested one after
    lower-casing and an id, and every album before it has a title that does not.
  */
  predicate MatchAt(albums: seq<AlbumJson>, k: int, title: string) {
    && 0 <= k < |albums|
    && albums[k].title.Some? && albums[k].id.Some?
    && Lower(albums[k].title.value) == Lower(title)
    && forall i :: 0 <= i < k ==> !Stops(albums[i], title)
  }

  /** Some album is returned exactly when the first stop has both keys, and then it is that one. */
  lemma FirstMatch(albums: seq<AlbumJson>, title: string)
    ensures (exists k :: MatchAt(albums, k, title)) <==>
      var f := FirstStop(albums, title);
      f < |albums| && albums[f].title.Some? && albums[f].id.Some?
  {
    var f := FirstStop(albums, title);
    FirstStopSpec(albums, title);
    if k :| MatchAt(albums, k, title) {
      assert Stops(albums[k], title);
      assert f <= k;
    }
    if f < |albums| && albums[f].title.Some? && albums[f].id.Some? {
      assert MatchAt(albums, f, title);
    }
  }

  /**
    The lookup returns an existing album exactly when some listed album's title equals the
    requested one after lower-casing, every album before it has a title, and it has an id;
    the id is then that first match's.
  */
  lemma LookupFindsFirstMatch(xs: seq<Exchange>, title: string, create: Creator)
    ensures LookupOutcome(xs, title, create).Existing? <==> exists k :: MatchAt(Yielded(xs), k, title)
    ensures LookupOutcome(xs, title, create).Existing? ==>
      var k := FirstStop(Yielded(xs), title);
      MatchAt(Yielded(xs), k, title) && Yielded(xs)[k].id == Some(LookupOutcome(xs, title, create).id)
  {
    FirstMatch(Yielded(xs), title);
    FirstStopSpec(Yielded(xs), title);
    var k := FirstStop(Yielded(xs), title);
    if LookupOutcome(xs, title, create).Existing? {
      assert MatchAt(Yielded(xs), k, title);
    }
  }

  /**
    A create request is issued exactly when the listing ended, every listed album has a
    title, and none matches the requested title after lower-casing.
  */
  lemma LookupCreatesOnlyOnMiss(xs: seq<Exchange>, title: string, create: Creator)
    ensures (LookupOutcome(xs, title, create).Created? || LookupOutcome(xs, title, create).CreateFailed?) <==>
      Finished(xs) && forall a :: a in Yielded(xs) ==> a.title.Some? && Lower(a.title.value) != Lower(title)
    ensures LookupOutcome(xs, title, create).Created? ==> create(title).id == Some(LookupOutcome(xs, title, create).id)
    ensures LookupOutcome(xs, title, create).CreateFailed? ==> create(title).id.None?
  {
    var albums := Yielded(xs);
    var k := FirstStop(albums, title);
    FirstStopSpec(albums, title);
    if k == |albums| {
      forall a | a in albums ensures a.title.Some? && Lower(a.title.value) != Lower(title) {
        var i :| 0 <= i < |albums| && albums[i] == a;
        assert !Stops(albums[i], title);
      }
    } else {
      assert albums[k] in albums;
    }
  }

  /**
    One iteration of the lookup loop: when no album fetched so far stops the scan, the
    outcome is decided by the next page's first stop if it has one; otherwise the scan goes
    on with that page appended.
  */
  lemma LookupStep(server: Server, title: string, full: seq<Exchange>,
                   done: seq<Exchange>, request: Request, fuel: nat)
    requires fuel > 0 && done + Exchanges(server, request, fuel) == full
    requires FirstStop(Yielded(done), title) == |Yielded(done)|
    ensures var page := server(request);
      var x := Exchange(request, page);
      var batch := page.albums.GetOr([]);
      var k := FirstStop(batch, title);
      && done + [x] <= full
      && (k < |batch| ==>
            FirstStop(Yielded(full), title) == |Yielded(done)| + k && |Yielded(done)| + k < |Yielded(full)|
            && Yielded(full)[|Yielded(done)| + k] == batch[k]
            && FirstStop(Yielded(done + [x]), title) < |Yielded(done + [x])|)
      && (k == |batch| ==> FirstStop(Yielded(done + [x]), title) == |Yielded(done + [x])|)
      && (Continues(page) ==> (done + [x]) + Exchanges(server, request.(pageToken := page.nextPageToken), fuel - 1) == full)
      && (!Continues(page) ==> done + [x] == full)
  {
    var page := server(request);
    var x := Exchange(request, page);
    SuffixStep(server, full, done, request, fuel);
    var after := if Continues(page) then Exchanges(server, request.(pageToken := page.nextPageToken), fuel - 1) else [];
    assert full == done + [x] + after;
    PageSplit(done, x, after, title);
  }

  /**
    The `for a in getAlbums(session, True)` loop of `create_or_retrieve_album`, which pulls
    pages lazily and leaves it at the first album without a title or with a matching title:
    that album, if any, and the list requests issued.
  */
  method FindAlbum(server: Server, title: string, fuel: nat)
    returns (stop: Option<AlbumJson>, fetched: seq<Exchange>)
    ensures var full := Exchanges(server, FirstRequest(true), fuel);
      var k := FirstStop(Yielded(full), title);
      && fetched <= full
      && (stop.Some? <==> k < |Yielded(full)|)
      && (stop.Some? ==> stop.value == Yielded(full)[k])
      && (stop.Some? ==> fetched != [] && FirstStop(Yielded(fetched[..|fetched| - 1]), title) == |Yielded(fetched[..|fetched| - 1])|)
      && (stop.Some? ==> FirstStop(Yielded(fetched), title) < |Yielded(fetched)|)
      && (stop.None? ==> fetched == full)
  {
    ghost var full := Exchanges(server, FirstRequest(true), fuel);
    var params := FirstRequest(true);
    fetched := [];
    var remaining := fuel;
    while remaining > 0
      invariant fetched + Exchanges(server, params, remaining) == full
      invariant FirstStop(Yielded(fetched), title) == |Yielded(fetched)|
    {
      var page := server(params);
      var x := Exchange(params, page);
      LookupStep(server, title, full, fetched, params, remaining);
      var batch := page.albums.GetOr([]);
      var j := ScanPage(batch, title);
      ghost var seen := fetched;
      fetched := fetched + [x];
      assert fetched[..|fetched| - 1] == seen;
      if j < |batch| {
        return Some(batch[j]), fetched;
      }
      if !Continues(page) {
        assert fetched == full;
        assert FirstStop(Yielded(full), title) == |Yielded(full)|;
        return None, fetched;
      }
      params := params.(pageToken := page.nextPageToken);
      remaining := remaining - 1;
    }
    assert fetched + [] == fetched;
    assert fetched == full;
    assert FirstStop(Yielded(full), title) == |Yielded(full)|;
    stop := None;
  }

  /**
    `create_or_retrieve_album(session, album_title)`: the id of the first listed album whose
    title matches after lower-casing; only when the listing ends without one does it post a
    create request. `fetched` are the list requests it issued and `createRequests` the titles
    it asked to create.
  */
  method CreateOrRetrieveAlbum(server: Server, create: Creator, title: string, fuel: nat)
    returns (outcome: Lookup, fetched: seq<Exchange>, createRequests: seq<string>)
    ensures outcome == LookupOutcome(Exchanges(server, FirstRequest(true), fuel), title, create)
    ensures fetched <= Exchanges(server, FirstRequest(true), fuel)
    ensures outcome.Existing? || outcome.KeyMissing? ==>
      fetched != [] && FirstStop(Yielded(fetched[..|fetched| - 1]), title) == |Yielded(fetched[..|fetched| - 1])|
    ensures outcome.Existing? || outcome.KeyMissing? ==> FirstStop(Yielded(fetched), title) < |Yielded(fetched)|
    ensures !(outcome.Existing? || outcome.KeyMissing?) ==> fetched == Exchanges(server, FirstRequest(true), fuel)
    ensures createRequests == if outcome.Created? || outcome.CreateFailed? then [title] else []
  {
    var stop;
    stop, fetched := FindAlbum(server, title, fuel);
    createRequests := [];
    if stop.Some? {
      var a := stop.value;
      if a.title.None? || a.id.None? {
        outcome := KeyMissing;
      } else {
        outcome := Existing(a.id.value);
      }
      return;
    }
    if !Finished(fetched) {
      outcome := OutOfFuel;
      return;
    }
    var resp := create(title);
    createRequests := [title];
    if resp.id.Some? {
      outcome := Created(resp.id.value);
    } else {
      outcome := CreateFailed;
    }
  }
}
