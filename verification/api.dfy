/**
 * The shapes the two extraction scripts read from the video platform's API,
 * and the walk over the cursor-paginated playlist listing that both share.
 *
 * The listing endpoint is modelled as the finite sequence of pages it
 * answers with: the k-th request of a walk is answered by `pages[k]`. The
 * detail endpoint is modelled as a total function from a batch of ids to a
 * response.
 */
module Api {

  datatype Option<T> = None | Some(value: T) {
    /** Python's `d.get(key, default)` once the key's presence is known. */
    function GetOr(default: T): T {
      match this
      case Some(v) => v
      case None => default
    }
  }

  /** The exceptions the scripts raise, by Python class. */
  datatype Error =
    | EnvironmentError(message: string)   // load_env: a required variable is missing
    | KeyError(key: string)               // a required dictionary key or DataFrame column is absent
    | IntegerOutOfRange(videoId: string)  // the store refuses a counter wider than an INTEGER column

  datatype Result<T> = Ok(value: T) | Err(error: Error)

  /** One entry of a playlist page: `snippet.resourceId.videoId` and `snippet.publishedAt`. */
  datatype PlaylistItem = PlaylistItem(videoId: string, publishedAt: string)

  /** One listing response: the `items` key and the `nextPageToken` key may each be absent. */
  datatype Page = Page(items: Option<seq<PlaylistItem>>, nextPageToken: Option<string>)

  /** Python truthiness of `nextPageToken`: an absent token and an empty one both end the walk. */
  predicate HasNext(p: Page)
    ensures p.nextPageToken.None? ==> !HasNext(p)
    ensures p.nextPageToken == Some("") ==> !HasNext(p)
    ensures HasNext(p) ==> |p.nextPageToken.value| > 0
  {
    p.nextPageToken.Some? && p.nextPageToken.value != ""
  }

  /** The listing eventually answers with a page that carries no continuation token. */
  predicate Ends(pages: seq<Page>) {
    exists k :: 0 <= k < |pages| && !HasNext(pages[k])
  }

  /**
   * The pages a `while True: ... if not token: break` walk requests: every
   * page up to and including the first one without a continuation token.
   */
  function Visited(pages: seq<Page>): (v: seq<Page>)
    ensures |v| <= |pages| && v == pages[..|v|]
    ensures forall j :: 0 <= j < |v| - 1 ==> HasNext(v[j])
    ensures Ends(pages) ==> 0 < |v| && !HasNext(v[|v| - 1])
    decreases |pages|
  {
    if |pages| == 0 then []
    else if !HasNext(pages[0]) then [pages[0]]
    else [pages[0]] + Visited(pages[1..])
  }

  /** The walk stops at the first page without a continuation token, so it visits exactly the pages before it and that page. */
  lemma VisitedUpTo(pages: seq<Page>, k: nat)
    requires k < |pages| && !HasNext(pages[k])
    requires forall j :: 0 <= j < k ==> HasNext(pages[j])
    ensures Visited(pages) == pages[..k + 1]
  {
  }

  /** A page reached through continuation tokens is one the walk visits. */
  lemma VisitedCovers(pages: seq<Page>, k: nat)
    requires Ends(pages) && k < |pages|
    requires forall j :: 0 <= j < k ==> HasNext(pages[j])
    ensures k < |Visited(pages)| && Visited(pages)[..k + 1] == pages[..k + 1]
  {
  }

  /**
   * The `pageToken` each request of a walk over `v` carries: none for the
   * first request, then the previous page's `nextPageToken`.
   */
  function TokensSent(v: seq<Page>): (t: seq<Option<string>>)
    ensures |t| == |v|
    ensures v != [] ==> t[0] == None
  {
    if v == [] then []
    else TokensSent(v[..|v| - 1]) + [if |v| == 1 then None else v[|v| - 2].nextPageToken]
  }

  /** One more request sends the token of the page before it. */
  lemma TokensSentSnoc(pages: seq<Page>, k: nat)
    requires k < |pages|
    ensures TokensSent(pages[..k + 1]) == TokensSent(pages[..k]) + [if k == 0 then None else pages[k - 1].nextPageToken]
  {
    assert pages[..k + 1][..k] == pages[..k];
  }

  /** One request per visited page; the first carries no token and each later one the token its predecessor returned. */
  lemma {:induction false} TokensSentChain(v: seq<Page>)
    ensures |TokensSent(v)| == |v|
    ensures v != [] ==> TokensSent(v)[0] == None
    ensures forall j :: 0 < j < |v| ==> TokensSent(v)[j] == v[j - 1].nextPageToken
  {
    if v != [] {
      TokensSentChain(v[..|v| - 1]);
    }
  }

  /** `statistics`: each counter may be absent (the API omits hidden counts). */
  datatype Statistics = Statistics(viewCount: Option<nat>, likeCount: Option<nat>, commentCount: Option<nat>)

  /** The `{}` that pipeline.py substitutes for an absent `statistics` object. */
  const NoStatistics := Statistics(None, None, None)

  /** One item of a detail response: `id`, `snippet.title`, `snippet.publishedAt` and the optional `statistics`. */
  datatype Video = Video(id: string, title: string, publishedAt: string, statistics: Option<Statistics>)

  /** A detail response: its `items` key may be absent. */
  datatype VideoResponse = VideoResponse(items: Option<seq<Video>>)

  /** The batched detail endpoint: the response to one request for a batch of ids. */
  type DetailEndpoint = seq<string> -> VideoResponse

  /** One output record. */
  datatype Row = Row(videoId: string, title: string, publishedAt: string,
                     viewCount: nat, likeCount: nat, commentCount: nat)

  /** `int(s.get(name, 0))`: an absent counter reads as 0. */
  function Counter(c: Option<nat>): (n: nat)
    ensures c.None? ==> n == 0
    ensures c.Some? ==> n == c.value
  {
    c.GetOr(0)
  }

  /** The row dictionary both scripts build from an item and its statistics object. */
  function RowFrom(v: Video, s: Statistics): (r: Row)
    ensures r.videoId == v.id && r.title == v.title && r.publishedAt == v.publishedAt
    ensures r.viewCount == Counter(s.viewCount) && r.likeCount == Counter(s.likeCount) && r.commentCount == Counter(s.commentCount)
    ensures s == NoStatistics ==> r.viewCount == 0 && r.likeCount == 0 && r.commentCount == 0
  {
    Row(v.id, v.title, v.publishedAt, Counter(s.viewCount), Counter(s.likeCount), Counter(s.commentCount))
  }
}
