/**
 * exportF1.py: the earlier CSV-export variant. It walks the whole playlist
 * without a date filter, treats `items` and `statistics` as required keys
 * (a missing one raises `KeyError`), and applies the 2024 window only to the
 * finished rows.
 */
module ExportF1 {
  import opened Api
  import opened TextOrder
  import opened Chunking
  import Pipeline

  // ---------------------------------------------------------------------------
  // get_playlist_video_ids
  // ---------------------------------------------------------------------------

  /** `[item['snippet']['resourceId']['videoId'] for item in items]`. */
  function ItemIds(items: seq<PlaylistItem>): (ids: seq<string>)
    ensures |ids| == |items|
  {
    seq(|items|, k requires 0 <= k < |items| => items[k].videoId)
  }

  /** Every page carries the `items` key. */
  predicate AllListed(pages: seq<Page>) {
    forall k :: 0 <= k < |pages| ==> pages[k].items.Some?
  }

  /** The walk's outcome over the pages it visits: every id in order, or `KeyError('items')`. */
  function AllIds(pages: seq<Page>): (r: Result<seq<string>>)
    ensures r.Err? ==> r.error == KeyError("items") && exists k :: 0 <= k < |pages| && pages[k].items.None?
    ensures r.Ok? ==> |r.value| == |Pipeline.FlatItems(pages)|
    ensures r.Ok? ==> forall k :: 0 <= k < |r.value| ==> r.value[k] == Pipeline.FlatItems(pages)[k].videoId
  {
    if AllListed(pages) then Ok(ItemIds(Pipeline.FlatItems(pages))) else Err(KeyError("items"))
  }

  lemma ItemIdsAppend(a: seq<PlaylistItem>, b: seq<PlaylistItem>)
    ensures ItemIds(a + b) == ItemIds(a) + ItemIds(b)
  {
  }

  /** Once every page up to k is listed, the ids so far are those of the flattened items. */
  lemma AllIdsSnoc(pages: seq<Page>, k: nat)
    requires k < |pages| && AllListed(pages[..k]) && pages[k].items.Some?
    ensures AllListed(pages[..k + 1])
    ensures ItemIds(Pipeline.FlatItems(pages[..k + 1])) == ItemIds(Pipeline.FlatItems(pages[..k])) + ItemIds(pages[k].items.value)
  {
    assert pages[..k + 1][..k] == pages[..k];
    ItemIdsAppend(Pipeline.FlatItems(pages[..k]), pages[k].items.value);
  }

  /**
   * Walks the listing from the first page (token `None`) until a page
   * carries no continuation token, collecting every id. A page without
   * `items` raises before its token is read. `tokens` are the page tokens
   * the requests carry.
   */
  method GetPlaylistVideoIds(pages: seq<Page>) returns (res: Result<seq<string>>, tokens: seq<Option<string>>)
    requires Ends(pages)
    ensures res == AllIds(Visited(pages))
    ensures 0 < |tokens| <= |Visited(pages)| && tokens == TokensSent(pages[..|tokens|])
    ensures res.Ok? ==> |tokens| == |Visited(pages)|
    ensures res.Err? ==> pages[|tokens| - 1].items.None? && AllListed(pages[..|tokens| - 1])
  {
    var ids: seq<string> := [];
    tokens := [];
    var token: Option<string> := None;
    var k := 0;
    while true
      invariant k < |pages|
      invariant forall j :: 0 <= j < k ==> HasNext(pages[j])
      invariant token == if k == 0 then None else pages[k - 1].nextPageToken
      invariant tokens == TokensSent(pages[..k])
      invariant AllListed(pages[..k]) && ids == ItemIds(Pipeline.FlatItems(pages[..k]))
      decreases |pages| - k
    {
      TokensSentSnoc(pages, k);
      tokens := tokens + [token];
      var resp := pages[k];
      VisitedCovers(pages, k);
      if resp.items.None? {
        assert Visited(pages)[k] == pages[k];
        return Err(KeyError("items")), tokens;
      }
      AllIdsSnoc(pages, k);
      ids := ids + ItemIds(resp.items.value);
      token := resp.nextPageToken;
      if !HasNext(resp) {
        VisitedUpTo(pages, k);
        return Ok(ids), tokens;
      }
      k := k + 1;
    }
  }

  /** The walk fails exactly when a visited page lacks `items`; otherwise it yields every visited item's id, in order. */
  lemma AllIdsOk(pages: seq<Page>)
    ensures AllIds(pages).Ok? <==> forall p :: p in pages ==> p.items.Some?
    ensures AllIds(pages).Ok? ==> |AllIds(pages).value| == |Pipeline.FlatItems(pages)|
  {
    if AllIds(pages).Err? {
      var k :| 0 <= k < |pages| && pages[k].items.None?;
      assert pages[k] in pages;
    }
  }

  /** Without a date filter the export collects every id pipeline.py keeps, and possibly more. */
  lemma {:induction false} ExportKeepsPipelineIds(w: Window, pages: seq<Page>, id: string)
    requires AllIds(pages).Ok?
    requires id in Pipeline.WindowIds(w, pages)
    ensures id in AllIds(pages).value
  {
    Pipeline.WindowIdsFlat(w, pages);
    Pipeline.WindowFilterMembers(w, Pipeline.FlatItems(pages), id);
    var items := Pipeline.FlatItems(pages);
    var it :| it in items && InWindow(w, it.publishedAt) && it.videoId == id;
    var k :| 0 <= k < |items| && items[k] == it;
    assert ItemIds(items)[k] == id;
  }

  // ---------------------------------------------------------------------------
  // get_videos_details
  // ---------------------------------------------------------------------------

  /** `s = v['statistics']` is required; the individual counters still default to 0. */
  function StrictRow(v: Video): (r: Result<Row>)
    ensures r.Err? <==> v.statistics.None?
    ensures r.Err? ==> r.error == KeyError("statistics")
    ensures r.Ok? ==> r.value == Pipeline.ToRow(v)
  {
    match v.statistics
    case None => Err(KeyError("statistics"))
    case Some(s) => Ok(RowFrom(v, s))
  }

  /** The response has `items`, and each of them has `statistics`. */
  predicate Complete(resp: VideoResponse) {
    resp.items.Some? && forall k :: 0 <= k < |resp.items.value| ==> resp.items.value[k].statistics.Some?
  }

  /** The rows of one response, or the `KeyError` it raises. */
  function StrictResponse(resp: VideoResponse): (r: Result<seq<Row>>)
    ensures resp.items.None? ==> r == Err(KeyError("items"))
    ensures r.Err? ==> r.error == KeyError("items") || r.error == KeyError("statistics")
    ensures r.Ok? ==> resp.items.Some? && |r.value| == |resp.items.value|
    ensures resp.items.Some? ==> (r.Ok? <==> forall k :: 0 <= k < |resp.items.value| ==> StrictRow(resp.items.value[k]).Ok?)
    ensures resp.items.Some? && r.Err? ==> r.error == KeyError("statistics")
    ensures r.Ok? ==> forall k :: 0 <= k < |r.value| ==> r.value[k] == StrictRow(resp.items.value[k]).value
  {
    if resp.items.None? then Err(KeyError("items"))
    else if Complete(resp) then Ok(Pipeline.ResponseRows(resp.items.value))
    else Err(KeyError("statistics"))
  }

  /** The rows of the batches requested in order; the first failing response decides the error. */
  function StrictDetailRows(batches: seq<seq<string>>, fetch: DetailEndpoint): (r: Result<seq<Row>>)
    ensures r.Err? ==> r.error == KeyError("items") || r.error == KeyError("statistics")
    ensures r.Ok? ==> |r.value| == |Pipeline.FlatVideos(batches, fetch)|
  {
    if batches == [] then Ok([])
    else
      match StrictDetailRows(batches[..|batches| - 1], fetch)
      case Err(e) => Err(e)
      case Ok(rows) =>
        match StrictResponse(fetch(batches[|batches| - 1]))
        case Err(e) => Err(e)
        case Ok(more) => Ok(rows + more)
  }

  /** One more request: its response's rows are appended, or its error becomes the outcome. */
  lemma StrictDetailRowsSnoc(batches: seq<seq<string>>, batch: seq<string>, fetch: DetailEndpoint, rows: seq<Row>)
    requires StrictDetailRows(batches, fetch) == Ok(rows)
    ensures StrictResponse(fetch(batch)).Err? ==> StrictDetailRows(batches + [batch], fetch) == StrictResponse(fetch(batch))
    ensures StrictResponse(fetch(batch)).Ok? ==> StrictDetailRows(batches + [batch], fetch) == Ok(rows + StrictResponse(fetch(batch)).value)
  {
    assert (batches + [batch])[..|batches|] == batches;
  }

  /** An error ends the run: the batches after the failing one are never requested and cannot change the outcome. */
  lemma {:induction false} StrictDetailRowsErrSticks(all: seq<seq<string>>, n: nat, fetch: DetailEndpoint)
    requires n <= |all| && StrictDetailRows(all[..n], fetch).Err?
    ensures StrictDetailRows(all, fetch) == StrictDetailRows(all[..n], fetch)
    decreases |all|
  {
    if n < |all| {
      var init := all[..|all| - 1];
      assert init[..n] == all[..n];
      StrictDetailRowsErrSticks(init, n, fetch);
    } else {
      assert all[..n] == all;
    }
  }

  /** The export fails exactly when some response lacks `items` or some item lacks `statistics`; otherwise its rows are pipeline.py's. */
  lemma {:induction false} StrictDetailRowsOk(batches: seq<seq<string>>, fetch: DetailEndpoint)
    ensures StrictDetailRows(batches, fetch).Ok? <==> forall k :: 0 <= k < |batches| ==> Complete(fetch(batches[k]))
    ensures StrictDetailRows(batches, fetch).Ok? ==> StrictDetailRows(batches, fetch).value == Pipeline.DetailRows(batches, fetch)
  {
    if batches != [] {
      var init := batches[..|batches| - 1];
      var last := fetch(batches[|batches| - 1]);
      StrictDetailRowsOk(init, fetch);
      assert forall k :: 0 <= k < |init| ==> init[k] == batches[k];
      if Complete(last) {
        assert StrictResponse(last) == Ok(Pipeline.ResponseRows(last.items.value));
      } else {
        assert StrictResponse(last).Err?;
      }
    }
  }

  /**
   * The body of the batch loop: `resp['items']`, then one row per item in
   * order, or `KeyError('statistics')` at the first item without statistics.
   */
  method BatchRows(resp: VideoResponse) returns (res: Result<seq<Row>>)
    ensures res == StrictResponse(resp)
  {
    if resp.items.None? {
      return Err(KeyError("items"));
    }
    var items := resp.items.value;
    var rows: seq<Row> := [];
    for j := 0 to |items|
      invariant rows == Pipeline.ResponseRows(items[..j])
      invariant forall m :: 0 <= m < j ==> items[m].statistics.Some?
    {
      var v := items[j];
      if v.statistics.None? {
        return Err(KeyError("statistics"));
      }
      rows := rows + [RowFrom(v, v.statistics.value)];
      Pipeline.ResponseRowsSnoc(items, j);
    }
    assert items[..|items|] == items;
    res := Ok(rows);
  }

  /**
   * Resolves the ids in consecutive batches of at most 50, one request per
   * batch, and returns one row per returned item, or the first `KeyError`.
   * `batches` are the id lists of the requests made.
   */
  method GetVideosDetails(ids: seq<string>, fetch: DetailEndpoint) returns (res: Result<seq<Row>>, batches: seq<seq<string>>)
    ensures res == StrictDetailRows(Chunks(ids), fetch)
    ensures res == StrictDetailRows(batches, fetch)
    ensures |batches| <= |Chunks(ids)| && batches == Chunks(ids)[..|batches|]
    ensures res.Ok? ==> batches == Chunks(ids)
    ensures res.Err? ==> 0 < |batches| && StrictDetailRows(batches[..|batches| - 1], fetch).Ok?
  {
    var rows: seq<Row> := [];
    batches := [];
    var i := 0;
    while i < |ids|
      invariant i == BatchSize * |batches|
      invariant |batches| <= |Chunks(ids)| && batches == Chunks(ids)[..|batches|]
      invariant StrictDetailRows(batches, fetch) == Ok(rows)
    {
      ChunksNext(ids, |batches|);
      var batch := ids[i..Min(i + BatchSize, |ids|)];
      StrictDetailRowsSnoc(batches, batch, fetch, rows);
      ghost var sent := batches;
      batches := batches + [batch];
      assert batches[..|sent|] == sent;
      var more := BatchRows(fetch(batch));
      if more.Err? {
        StrictDetailRowsErrSticks(Chunks(ids), |batches|, fetch);
        return Err(more.error), batches;
      }
      rows := rows + more.value;
      i := i + BatchSize;
    }
    ChunksDone(ids, |batches|);
    res := Ok(rows);
  }

  // ---------------------------------------------------------------------------
  // main: the post-hoc date filter
  // ---------------------------------------------------------------------------

  /** `df[(df['publishedAt'] >= start) & (df['publishedAt'] < end)]`: the rows published in the window, in order. */
  function KeepWindow(w: Window, rows: seq<Row>): (kept: seq<Row>)
    ensures |kept| <= |rows|
  {
    if rows == [] then []
    else
      var last := rows[|rows| - 1];
      KeepWindow(w, rows[..|rows| - 1]) + (if InWindow(w, last.publishedAt) then [last] else [])
  }

  /** A row survives the filter exactly when it was published in the window. */
  lemma {:induction false} KeepWindowMembers(w: Window, rows: seq<Row>, r: Row)
    ensures r in KeepWindow(w, rows) <==> r in rows && InWindow(w, r.publishedAt)
  {
    if rows != [] {
      var init := rows[..|rows| - 1];
      KeepWindowMembers(w, init, r);
      assert rows == init + [rows[|rows| - 1]];
    }
  }

  /** The filter keeps relative order: it distributes over concatenation. */
  lemma {:induction false} KeepWindowAppend(w: Window, a: seq<Row>, b: seq<Row>)
    ensures KeepWindow(w, a + b) == KeepWindow(w, a) + KeepWindow(w, b)
    decreases |b|
  {
    if b == [] {
      assert a + b == a;
    } else {
      assert (a + b)[..|a + b| - 1] == a + b[..|b| - 1];
      KeepWindowAppend(w, a, b[..|b| - 1]);
    }
  }

  /** Filtering twice is filtering once. */
  lemma {:induction false} KeepWindowIdempotent(w: Window, rows: seq<Row>)
    ensures KeepWindow(w, KeepWindow(w, rows)) == KeepWindow(w, rows)
  {
    if rows != [] {
      var init := rows[..|rows| - 1];
      var last := rows[|rows| - 1];
      KeepWindowIdempotent(w, init);
      KeepWindowAppend(w, KeepWindow(w, init), if InWindow(w, last.publishedAt) then [last] else []);
      assert [last][..0] == [];
    }
  }

  /** What `main` writes to the CSV file, or the exception it raises. */
  function ExportOutcome(pages: seq<Page>, fetch: DetailEndpoint): (r: Result<seq<Row>>)
    ensures r.Err? ==> r.error in {KeyError("items"), KeyError("statistics"), KeyError("publishedAt")}
    ensures r.Ok? ==> AllIds(Visited(pages)).Ok?
  {
    match AllIds(Visited(pages))
    case Err(e) => Err(e)
    case Ok(ids) =>
      match StrictDetailRows(Chunks(ids), fetch)
      case Err(e) => Err(e)
      case Ok(rows) =>
        // pd.DataFrame([]) has no publishedAt column
        if rows == [] then Err(KeyError("publishedAt")) else Ok(KeepWindow(Year2024, rows))
  }

  /** `main` without the CSV write: collect, resolve, then keep the 2024 rows. */
  method ExportRows(pages: seq<Page>, fetch: DetailEndpoint) returns (res: Result<seq<Row>>)
    requires Ends(pages)
    ensures res == ExportOutcome(pages, fetch)
    ensures res.Ok? ==> forall k :: 0 <= k < |res.value| ==> InWindow(Year2024, res.value[k].publishedAt)
  {
    var ids, _ := GetPlaylistVideoIds(pages);
    if ids.Err? {
      return Err(ids.error);
    }
    var rows, _ := GetVideosDetails(ids.value, fetch);
    if rows.Err? {
      return Err(rows.error);
    }
    if rows.value == [] {
      return Err(KeyError("publishedAt"));
    }
    var kept := KeepWindow(Year2024, rows.value);
    forall k | 0 <= k < |kept|
      ensures InWindow(Year2024, kept[k].publishedAt)
    {
      KeepWindowMembers(Year2024, rows.value, kept[k]);
    }
    res := Ok(kept);
  }
}
