/**
 * The batches `ids[i:i+50]` for `i in range(0, len(ids), 50)` that both
 * scripts send to the detail endpoint, one request per batch.
 */
module Chunking {

  /** The detail endpoint's ceiling on ids per request. */
  const BatchSize: nat := 50

  function Min(a: int, b: int): int {
    if a <= b then a else b
  }

  /** The number of batches: ceil(|s| / 50). */
  function BatchCount(n: nat): nat {
    (n + BatchSize - 1) / BatchSize
  }

  /** `[s[i:i+50] for i in range(0, len(s), 50)]`: the consecutive batches of `s`, in order. */
  function Chunks<T>(s: seq<T>): (cs: seq<seq<T>>)
    ensures cs == [] <==> s == []
  {
    seq(BatchCount(|s|), k requires 0 <= k < BatchCount(|s|) => s[BatchSize * k .. Min(BatchSize * k + BatchSize, |s|)])
  }

  function Flatten<T>(cs: seq<seq<T>>): seq<T> {
    if cs == [] then [] else cs[0] + Flatten(cs[1..])
  }

  /** A batch index below the count starts inside the input. */
  lemma BatchStartInside(n: nat, k: nat)
    requires k < BatchCount(n)
    ensures BatchSize * k < n
  {
  }

  /** The first batch, then the batches of the rest: the loop's view of the slicing. */
  lemma ChunksUnfold<T>(s: seq<T>)
    requires |s| > 0
    ensures Chunks(s) == [s[..Min(BatchSize, |s|)]] + Chunks(s[Min(BatchSize, |s|)..])
  {
    var n := Min(BatchSize, |s|);
    var rest := s[n..];
    assert BatchCount(|s|) == 1 + BatchCount(|rest|);
    forall k | 0 < k < |Chunks(s)|
      ensures Chunks(s)[k] == Chunks(rest)[k - 1]
    {
      BatchStartInside(|s|, k);
      assert n == BatchSize;
      assert rest[BatchSize * (k - 1) .. Min(BatchSize * (k - 1) + BatchSize, |rest|)]
          == s[BatchSize * k .. Min(BatchSize * k + BatchSize, |s|)];
    }
  }

  /** The batches partition the ids: concatenated in order they give back the input. */
  lemma {:induction false} ChunksFlatten<T>(s: seq<T>)
    ensures Flatten(Chunks(s)) == s
    decreases |s|
  {
    if |s| > 0 {
      var n := Min(BatchSize, |s|);
      ChunksUnfold(s);
      ChunksFlatten(s[n..]);
      assert s == s[..n] + s[n..];
    }
  }

  /** Every batch holds between 1 and 50 ids. */
  lemma ChunksBounded<T>(s: seq<T>)
    ensures forall c :: c in Chunks(s) ==> 0 < |c| <= BatchSize
  {
    forall c | c in Chunks(s)
      ensures 0 < |c| <= BatchSize
    {
      var k :| 0 <= k < |Chunks(s)| && Chunks(s)[k] == c;
      BatchStartInside(|s|, k);
    }
  }

  /** There are ceil(n / 50) batches, so as many detail requests. */
  lemma ChunksCount<T>(s: seq<T>)
    ensures |Chunks(s)| == (|s| + BatchSize - 1) / BatchSize
    ensures |s| > 0 ==> BatchSize * (|Chunks(s)| - 1) < |s| <= BatchSize * |Chunks(s)|
  {
  }

  /** Every batch but the last is full. */
  lemma ChunksFull<T>(s: seq<T>, k: nat)
    requires k + 1 < |Chunks(s)|
    ensures |Chunks(s)[k]| == BatchSize
  {
    BatchStartInside(|s|, k + 1);
  }

  /** The loop step: while the offset 50*k is inside the ids, batch k exists and is the next slice to send. */
  lemma ChunksNext<T>(s: seq<T>, k: nat)
    requires BatchSize * k < |s|
    ensures k < |Chunks(s)|
    ensures Chunks(s)[..k + 1] == Chunks(s)[..k] + [s[BatchSize * k .. Min(BatchSize * k + BatchSize, |s|)]]
  {
    assert BatchCount(|s|) > k;
  }

  /** The loop exit: once the offset 50*k reaches the end, the k batches sent are all of them. */
  lemma ChunksDone<T>(s: seq<T>, k: nat)
    requires |s| <= BatchSize * k && k <= |Chunks(s)|
    ensures Chunks(s)[..k] == Chunks(s)
  {
  }
}
