/**
 * pipeline.py `main`: configuration, collection, resolution and upsert in
 * sequence.
 */
module PipelineMain {
  import opened Api
  import opened TextOrder
  import opened Chunking
  import opened Pipeline
  import opened Upsert

  /** The rows `main` hands to the upsert: the details of the 2024 ids, batch by batch. */
  function RunRows(pages: seq<Page>, fetch: DetailEndpoint): seq<Row> {
    DetailRows(Chunks(WindowIds(Year2024, Visited(pages))), fetch)
  }

  /**
   * A configuration error stops the run before any request. An empty result
   * stops it before the store is touched: `pd.DataFrame([])` has no
   * `publishedAt` column, so `df["publishedAt"]` raises. Otherwise the rows
   * are upserted in one transaction.
   */
  method Run(env: map<string, string>, pages: seq<Page>, fetch: DetailEndpoint, store: Store) returns (res: Result<()>)
    requires store.Valid() && Ends(pages)
    modifies store
    ensures store.Valid()
    ensures LoadEnv(env).Err? ==> res == Err(LoadEnv(env).error) && store.hasTable == old(store.hasTable) && store.table == old(store.table)
    ensures LoadEnv(env).Ok? && RunRows(pages, fetch) == [] ==> res == Err(KeyError("publishedAt")) && store.hasTable == old(store.hasTable) && store.table == old(store.table)
    ensures LoadEnv(env).Ok? && RunRows(pages, fetch) != [] ==>
              && (res.Ok? <==> AllFit(RunRows(pages, fetch)))
              && (res.Ok? ==> store.hasTable && store.table == ApplyAll(old(store.table), RunRows(pages, fetch)))
              && (res.Err? ==> store.hasTable == old(store.hasTable) && store.table == old(store.table))
              && (res.Err? ==> exists k :: 0 <= k < |RunRows(pages, fetch)| && !Fits(RunRows(pages, fetch)[k])
                                          && AllFit(RunRows(pages, fetch)[..k])
                                          && res.error == IntegerOutOfRange(RunRows(pages, fetch)[k].videoId))
  {
    var config := LoadEnv(env);
    if config.Err? {
      return Err(config.error);
    }
    var ids, _ := GetPlaylistVideoIds(Year2024, pages);
    var rows, _ := GetVideosDetails(ids, fetch);
    if rows == [] {
      return Err(KeyError("publishedAt"));
    }
    res := store.UpsertRows(rows);
  }
}
