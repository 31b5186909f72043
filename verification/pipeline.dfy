/**
 * pipeline.py: configuration check, the date-filtered playlist walk and the
 * batched detail resolution with zero defaults for absent statistics.
 */
module Pipeline {
  import opened Api
  import opened TextOrder
  import opened Chunking

  // ---------------------------------------------------------------------------
  // load_env
  // ---------------------------------------------------------------------------

  const ApiKeyVar := "YOUTUBE_API_KEY"
  const DbUrlVar := "SUPABASE_DB_URL"

  /** `not os.getenv(name)`: the variable is unset or set to the empty string. */
  predicate Missing(env: map<string, string>, name: string) {
    name !in env || env[name] == ""
  }

  /** Reads both required settings from the (already loaded) environment. */
  function LoadEnv(env: map<string, string>): (r: Result<(string, string)>)
    ensures r.Err? <==> (ApiKeyVar !in env || env[ApiKeyVar] == "" || DbUrlVar !in env || env[DbUrlVar] == "")
    ensures r.Err? ==> r.error == EnvironmentError("Missing environment variables")
    ensures r.Ok? ==> ApiKeyVar in env && DbUrlVar in env && r.value == (env[ApiKeyVar], env[DbUrlVar])
    ensures r.Ok? ==> r.value.0 != "" && r.value.1 != ""
  {
    if Missing(env, ApiKeyVar) || Missing(env, DbUrlVar) then
      Err(EnvironmentError("Missing environment variables"))
    else
      Ok((env[ApiKeyVar], env[DbUrlVar]))
  }

  // ---------------------------------------------------------------------------
  // get_playlist_video_ids
  // ---------------------------------------------------------------------------

  /** `resp.get("items", [])`. */
  function PageItems(p: Page): (items: seq<PlaylistItem>)
    ensures p.items.None? ==> items == []
    ensures p.items.Some? ==> items == p.items.value
  {
    p.items.GetOr([])
  }

  /** The ids of the items, in order, whose raw `publishedAt` lies in the window. */
  function WindowFilter(w: Window, items: seq<PlaylistItem>): (ids: seq<string>)
    ensures |ids| <= |items|
  {
    if items == [] then []
    else
      var last := items[|items| - 1];
      WindowFilter(w, items[..|items| - 1]) + (if InWindow(w, last.publishedAt) then [last.videoId] else [])
  }

  /** The ids the walk keeps from a sequence of visited pages. */
  function WindowIds(w: Window, pages: seq<Page>): (ids: seq<string>)
    ensures |ids| <= |FlatItems(pages)|
  {
    if pages == [] then []
    else WindowIds(w, pages[..|pages| - 1]) + WindowFilter(w, PageItems(pages[|pages| - 1]))
  }

  /** All items of the pages, page by page; a page without `items` has none. */
  function FlatItems(pages: seq<Page>): seq<PlaylistItem> {
    if pages == [] then []
    else FlatItems(pages[..|pages| - 1]) + PageItems(pages[|pages| - 1])
  }

  /**
   * Walks the listing from the first page (requested with no token) until a
   * page carries no continuation token, keeping the ids published in the
   * window `w` (the script hardcodes `w`; `PipelineMain.Run` passes
   * it). `tokens` are the page tokens the requests carry.
   */
  method GetPlaylistVideoIds(w: Window, pages: seq<Page>) returns (ids: seq<string>, tokens: seq<Option<string>>)
    requires Ends(pages)
    ensures ids == WindowIds(w, Visited(pages))
    ensures tokens == TokensSent(Visited(pages))
  {
    ids, tokens := [], [];
    var nextToken: Option<string> := None;
    var k := 0;
    while true
      invariant k < |pages|
      invariant forall j :: 0 <= j < k ==> HasNext(pages[j])
      invariant nextToken == if k == 0 then None else pages[k - 1].nextPageToken
      invariant |tokens| == k && tokens == TokensSent(pages[..k])
      invariant ids == WindowIds(w, pages[..k])
      decreases |pages| - k
    {
      TokensSentSnoc(pages, k);
      tokens := tokens + [nextToken];
      var resp := pages[k];
      var kept := PageIds(w, resp);
      ids := ids + kept;
      WindowIdsSnoc(w, pages, k);
      nextToken := resp.nextPageToken;
      if !HasNext(resp) {
        VisitedUpTo(pages, k);
        return;
      }
      k := k + 1;
    }
  }

  /** The body of the page loop: the ids of `resp.get("items", [])` published in the window, in order. */
  method PageIds(w: Window, resp: Page) returns (kept: seq<string>)
    ensures kept == WindowFilter(w, PageItems(resp))
  {
    var items := PageItems(resp);
    kept := [];
    for j := 0 to |items|
      invariant kept == WindowFilter(w, items[..j])
    {
      WindowFilterSnoc(w, items, j);
      var item := items[j];
      if InWindow(w, item.publishedAt) {
        kept := kept + [item.videoId];
      }
    }
    assert items[..|items|] == items;
  }

  /** One more item is kept exactly when it lies in the window. */
  lemma WindowFilterSnoc(w: Window, items: seq<PlaylistItem>, j: nat)
    requires j < |items|
    ensures WindowFilter(w, items[..j + 1])
         == WindowFilter(w, items[..j]) + (if InWindow(w, items[j].publishedAt) then [items[j].videoId] else [])
  {
    assert items[..j + 1][..j] == items[..j];
  }

  /** One more page contributes the filter of its items. */
  lemma WindowIdsSnoc(w: Window, pages: seq<Page>, k: nat)
    requires k < |pages|
    ensures WindowIds(w, pages[..k + 1]) == WindowIds(w, pages[..k]) + WindowFilter(w, PageItems(pages[k]))
  {
    assert pages[..k + 1][..k] == pages[..k];
  }

  /** Filtering distributes over concatenation, so ids keep the order of their items. */
  lemma {:induction false} WindowFilterAppend(w: Window, a: seq<PlaylistItem>, b: seq<PlaylistItem>)
    ensures WindowFilter(w, a + b) == WindowFilter(w, a) + WindowFilter(w, b)
    decreases |b|
  {
    if b != [] {
      var last := b[|b| - 1];
      assert (a + b)[..|a + b| - 1] == a + b[..|b| - 1];
      WindowFilterAppend(w, a, b[..|b| - 1]);
    } else {
      assert a + b == a;
    }
  }

  /** An id is kept exactly when some item carrying it was published in the window. */
  lemma {:induction false} WindowFilterMembers(w: Window, items: seq<PlaylistItem>, id: string)
    ensures id in WindowFilter(w, items) <==> exists it :: it in items && InWindow(w, it.publishedAt) && it.videoId == id
  {
    if items != [] {
      var init := items[..|items| - 1];
      var last := items[|items| - 1];
      WindowFilterMembers(w, init, id);
      assert items == init + [last];
      if id in WindowFilter(w, init) {
        var it :| it in init && InWindow(w, it.publishedAt) && it.videoId == id;
        assert it in items;
      }
    }
  }

  /** Nothing outside the window is dropped when every item is inside it, and nothing is kept when none is. */
  lemma {:induction false} WindowFilterExtremes(w: Window, items: seq<PlaylistItem>)
    ensures (forall k :: 0 <= k < |items| ==> InWindow(w, items[k].publishedAt)) ==>
              WindowFilter(w, items) == seq(|items|, k requires 0 <= k < |items| => items[k].videoId)
    ensures (forall k :: 0 <= k < |items| ==> !InWindow(w, items[k].publishedAt)) ==> WindowFilter(w, items) == []
  {
    if items != [] {
      WindowFilterExtremes(w, items[..|items| - 1]);
    }
  }

  /** The walk's ids are the window filter of all visited items, page order then item order. */
  lemma {:induction false} WindowIdsFlat(w: Window, pages: seq<Page>)
    ensures WindowIds(w, pages) == WindowFilter(w, FlatItems(pages))
  {
    if pages != [] {
      WindowIdsFlat(w, pages[..|pages| - 1]);
      WindowFilterAppend(w, FlatItems(pages[..|pages| - 1]), PageItems(pages[|pages| - 1]));
    }
  }

  /** Of an item inside the window followed by one outside it, only the first id is kept. */
  lemma WindowPair(w: Window, a: PlaylistItem, b: PlaylistItem)
    requires InWindow(w, a.publishedAt) && !InWindow(w, b.publishedAt)
    ensures WindowFilter(w, [a, b]) == [a.videoId]
  {
    assert [a, b][..1] == [a];
  }

  /** The worked case: one item inside the window and one exactly at its end give only the first id. */
  lemma WindowScenario()
    ensures WindowFilter(Year2024, [PlaylistItem("a", "2024-06-01T00:00:00Z"), PlaylistItem("b", "2025-01-01T00:00:00Z")]) == ["a"]
  {
    Year2024Contains();
    Year2024HalfOpen();
    WindowPair(Year2024, PlaylistItem("a", "2024-06-01T00:00:00Z"), PlaylistItem("b", "2025-01-01T00:00:00Z"));
  }

  // ---------------------------------------------------------------------------
  // get_videos_details
  // ---------------------------------------------------------------------------

  /** One row per returned item; `v.get("statistics", {})` makes an absent object read as all-zero counters. */
  function ToRow(v: Video): (r: Row)
    ensures r.videoId == v.id && r.title == v.title && r.publishedAt == v.publishedAt
    ensures v.statistics.None? ==> r.viewCount == 0 && r.likeCount == 0 && r.commentCount == 0
    ensures v.statistics.Some? ==>
              && r.viewCount == Counter(v.statistics.value.viewCount)
              && r.likeCount == Counter(v.statistics.value.likeCount)
              && r.commentCount == Counter(v.statistics.value.commentCount)
  {
    RowFrom(v, v.statistics.GetOr(NoStatistics))
  }

  /** The rows of one response's items: exactly one per item, in response order. */
  function ResponseRows(items: seq<Video>): (rows: seq<Row>)
    ensures |rows| == |items|
    ensures forall k :: 0 <= k < |items| ==> rows[k] == ToRow(items[k])
  {
    if items == [] then []
    else ResponseRows(items[..|items| - 1]) + [ToRow(items[|items| - 1])]
  }

  /** One more item appends its row. */
  lemma ResponseRowsSnoc(items: seq<Video>, j: nat)
    requires j < |items|
    ensures ResponseRows(items[..j + 1]) == ResponseRows(items[..j]) + [ToRow(items[j])]
  {
    assert items[..j + 1][..j] == items[..j];
  }

  /** `resp.get("items", [])` of the response to one batch. */
  function Returned(fetch: DetailEndpoint, batch: seq<string>): seq<Video> {
    fetch(batch).items.GetOr([])
  }

  /** The rows produced by requesting the batches in order. */
  function DetailRows(batches: seq<seq<string>>, fetch: DetailEndpoint): (rows: seq<Row>)
    ensures |rows| == |FlatVideos(batches, fetch)|
  {
    if batches == [] then []
    else DetailRows(batches[..|batches| - 1], fetch) + ResponseRows(Returned(fetch, batches[|batches| - 1]))
  }

  /** Every item the endpoint returned for the batches, in order. */
  function FlatVideos(batches: seq<seq<string>>, fetch: DetailEndpoint): seq<Video> {
    if batches == [] then []
    else FlatVideos(batches[..|batches| - 1], fetch) + Returned(fetch, batches[|batches| - 1])
  }

  /**
   * Resolves the ids in consecutive batches of at most 50, one request per
   * batch, and returns one row per returned item. `batches` are the id lists
   * of the requests made.
   */
  method GetVideosDetails(ids: seq<string>, fetch: DetailEndpoint) returns (rows: seq<Row>, batches: seq<seq<string>>)
    ensures batches == Chunks(ids)
    ensures rows == DetailRows(batches, fetch)
  {
    rows, batches := [], [];
    var i := 0;
    while i < |ids|
      invariant i == BatchSize * |batches|
      invariant |batches| <= |Chunks(ids)| && batches == Chunks(ids)[..|batches|]
      invariant rows == DetailRows(batches, fetch)
    {
      ChunksNext(ids, |batches|);
      var batch := ids[i..Min(i + BatchSize, |ids|)];
      var more := BatchRows(fetch(batch));
      rows := rows + more;
      DetailRowsSnoc(batches, batch, fetch);
      batches := batches + [batch];
      i := i + BatchSize;
    }
    ChunksDone(ids, |batches|);
  }

  /** The body of the batch loop: one row per item of `resp.get("items", [])`, in order. */
  method BatchRows(resp: VideoResponse) returns (rows: seq<Row>)
    ensures rows == ResponseRows(resp.items.GetOr([]))
  {
    var items := resp.items.GetOr([]);
    rows := [];
    for j := 0 to |items|
      invariant rows == ResponseRows(items[..j])
    {
      rows := rows + [ToRow(items[j])];
      ResponseRowsSnoc(items, j);
    }
    assert items[..|items|] == items;
  }

  /** One more request appends the rows of its response. */
  lemma DetailRowsSnoc(batches: seq<seq<string>>, batch: seq<string>, fetch: DetailEndpoint)
    ensures DetailRows(batches + [batch], fetch) == DetailRows(batches, fetch) + ResponseRows(Returned(fetch, batch))
  {
    assert (batches + [batch])[..|batches|] == batches;
  }

  /** Row lists of consecutive responses concatenate. */
  lemma ResponseRowsAppend(a: seq<Video>, b: seq<Video>)
    ensures ResponseRows(a + b) == ResponseRows(a) + ResponseRows(b)
  {
  }

  /** The rows are exactly one per returned item, in batch order then response order. */
  lemma {:induction false} DetailRowsFlat(batches: seq<seq<string>>, fetch: DetailEndpoint)
    ensures DetailRows(batches, fetch) == ResponseRows(FlatVideos(batches, fetch))
  {
    if batches != [] {
      var init := batches[..|batches| - 1];
      DetailRowsFlat(init, fetch);
      ResponseRowsAppend(FlatVideos(init, fetch), Returned(fetch, batches[|batches| - 1]));
    }
  }

  /** A row exists only for an id the endpoint returned: requested ids that come back absent give no row. */
  lemma DetailRowsReturned(batches: seq<seq<string>>, fetch: DetailEndpoint, r: Row)
    requires r in DetailRows(batches, fetch)
    ensures exists v :: v in FlatVideos(batches, fetch) && v.id == r.videoId && ToRow(v) == r
  {
    DetailRowsFlat(batches, fetch);
    var rows := DetailRows(batches, fetch);
    var k :| 0 <= k < |rows| && rows[k] == r;
    assert FlatVideos(batches, fetch)[k] in FlatVideos(batches, fetch);
  }
}
