/**
 * pipeline.py `upsert_to_db`: inside one transaction, create the
 * `f1_highlights` table if it does not exist, then for each row in order
 * `INSERT ... ON CONFLICT (videoId) DO UPDATE SET` every non-key column.
 *
 * The table is a map from the primary key `videoId` to the non-key columns.
 */
module Upsert {
  import opened Api

  /** The non-key columns of `f1_highlights`. */
  datatype Columns = Columns(title: string, publishedAt: string,
                             viewCount: nat, likeCount: nat, commentCount: nat)

  function ColumnsOf(r: Row): Columns {
    Columns(r.title, r.publishedAt, r.viewCount, r.likeCount, r.commentCount)
  }

  /** The largest value of a PostgreSQL `INTEGER` column. */
  const MaxInteger: nat := 2147483647

  /** The row's counters fit the table's `INTEGER` columns; otherwise the write fails. */
  predicate Fits(r: Row)
    ensures Fits(r) <==> r.viewCount < 0x8000_0000 && r.likeCount < 0x8000_0000 && r.commentCount < 0x8000_0000
    ensures r.viewCount == 0 && r.likeCount == 0 && r.commentCount == 0 ==> Fits(r)
  {
    r.viewCount <= MaxInteger && r.likeCount <= MaxInteger && r.commentCount <= MaxInteger
  }

  predicate AllFit(rows: seq<Row>) {
    forall k :: 0 <= k < |rows| ==> Fits(rows[k])
  }

  /** The keys the rows carry. */
  function RowIds(rows: seq<Row>): set<string> {
    set r | r in rows :: r.videoId
  }

  /** The table after upserting the rows in order, each overwriting its key. */
  function ApplyAll(t: map<string, Columns>, rows: seq<Row>): (m: map<string, Columns>)
    ensures t.Keys <= m.Keys
  {
    if rows == [] then t
    else
      var last := rows[|rows| - 1];
      ApplyAll(t, rows[..|rows| - 1])[last.videoId := ColumnsOf(last)]
  }

  lemma RowIdsSnoc(rows: seq<Row>)
    requires rows != []
    ensures RowIds(rows) == RowIds(rows[..|rows| - 1]) + {rows[|rows| - 1].videoId}
  {
    assert rows == rows[..|rows| - 1] + [rows[|rows| - 1]];
  }

  /** Upserting adds exactly the rows' keys. */
  lemma {:induction false} ApplyAllKeys(t: map<string, Columns>, rows: seq<Row>)
    ensures ApplyAll(t, rows).Keys == t.Keys + RowIds(rows)
  {
    if rows != [] {
      ApplyAllKeys(t, rows[..|rows| - 1]);
      RowIdsSnoc(rows);
    }
  }

  /** Keys that no row carries keep their value. */
  lemma {:induction false} ApplyAllUntouched(t: map<string, Columns>, rows: seq<Row>, id: string)
    requires id !in RowIds(rows)
    ensures id in ApplyAll(t, rows) <==> id in t
    ensures id in t ==> ApplyAll(t, rows)[id] == t[id]
  {
    if rows != [] {
      RowIdsSnoc(rows);
      ApplyAllUntouched(t, rows[..|rows| - 1], id);
    }
  }

  /** Last write wins: a key holds the columns of the last row that carries it. */
  lemma {:induction false} ApplyAllLastWins(t: map<string, Columns>, rows: seq<Row>, k: nat)
    requires k < |rows|
    requires forall j :: k < j < |rows| ==> rows[j].videoId != rows[k].videoId
    ensures rows[k].videoId in ApplyAll(t, rows)
    ensures ApplyAll(t, rows)[rows[k].videoId] == ColumnsOf(rows[k])
  {
    if k < |rows| - 1 {
      ApplyAllLastWins(t, rows[..|rows| - 1], k);
    }
  }

  /** For a key some row carries, the old table does not matter. */
  lemma {:induction false} ApplyAllOverwrites(t: map<string, Columns>, u: map<string, Columns>, rows: seq<Row>, id: string)
    requires id in RowIds(rows)
    ensures id in ApplyAll(t, rows) && id in ApplyAll(u, rows)
    ensures ApplyAll(t, rows)[id] == ApplyAll(u, rows)[id]
  {
    RowIdsSnoc(rows);
    if rows[|rows| - 1].videoId != id {
      ApplyAllOverwrites(t, u, rows[..|rows| - 1], id);
    }
  }

  /** Re-running the same upsert leaves the table as one run left it. */
  lemma ApplyAllIdempotent(t: map<string, Columns>, rows: seq<Row>)
    ensures ApplyAll(ApplyAll(t, rows), rows) == ApplyAll(t, rows)
  {
    var once := ApplyAll(t, rows);
    var twice := ApplyAll(once, rows);
    ApplyAllKeys(t, rows);
    ApplyAllKeys(once, rows);
    forall id | id in twice
      ensures twice[id] == once[id]
    {
      if id in RowIds(rows) {
        ApplyAllOverwrites(once, t, rows, id);
      } else {
        ApplyAllUntouched(once, rows, id);
      }
    }
  }

  /** The row count grows by the number of distinct ids not yet stored, and by nothing else. */
  lemma ApplyAllSize(t: map<string, Columns>, rows: seq<Row>)
    ensures |ApplyAll(t, rows)| == |t| + |RowIds(rows) - t.Keys|
  {
    ApplyAllKeys(t, rows);
    var added := RowIds(rows) - t.Keys;
    assert ApplyAll(t, rows).Keys == t.Keys + added;
    assert t.Keys !! added;
    assert |t.Keys + added| == |t.Keys| + |added|;
  }

  /** Upserting one unseen id adds a row; upserting a stored id keeps the count; either way the key then holds all five columns of the row. */
  lemma UpsertOne(t: map<string, Columns>, r: Row)
    ensures r.videoId !in t ==> |ApplyAll(t, [r])| == |t| + 1
    ensures r.videoId in t ==> |ApplyAll(t, [r])| == |t|
    ensures ApplyAll(t, [r])[r.videoId] == ColumnsOf(r)
  {
    assert [r][..0] == [];
  }

  /** The same id twice in one run: the second row's columns are the ones stored. */
  lemma UpsertTwiceSameId(t: map<string, Columns>, a: Row, b: Row)
    requires a.videoId == b.videoId
    ensures ApplyAll(t, [a, b])[a.videoId] == ColumnsOf(b)
  {
    ApplyAllLastWins(t, [a, b], 1);
  }

  /** The store the pipeline writes to: whether `f1_highlights` exists, and its rows. */
  class Store {
    var hasTable: bool
    var table: map<string, Columns>

    /** A table that does not exist holds no rows. */
    ghost predicate Valid()
      reads this
    {
      !hasTable ==> table == map[]
    }

    /** A database without the table. */
    constructor ()
      ensures Valid() && !hasTable && table == map[]
    {
      hasTable := false;
      table := map[];
    }

    /**
     * One transaction: create the table if absent, then upsert each row in
     * order. A row the table refuses aborts the transaction and leaves the
     * store exactly as it was.
     */
    method UpsertRows(rows: seq<Row>) returns (res: Result<()>)
      requires Valid()
      modifies this
      ensures Valid()
      ensures res.Ok? <==> AllFit(rows)
      ensures res.Ok? ==> hasTable && table == ApplyAll(old(table), rows)
      ensures res.Err? ==> hasTable == old(hasTable) && table == old(table)
      ensures res.Err? ==> exists k :: 0 <= k < |rows| && !Fits(rows[k]) && AllFit(rows[..k])
                                       && res.error == IntegerOutOfRange(rows[k].videoId)
    {
      var savedHasTable, savedTable := hasTable, table;   // engine.begin()
      hasTable := true;                                   // CREATE TABLE IF NOT EXISTS keeps an existing table
      var i := 0;
      while i < |rows|
        invariant 0 <= i <= |rows|
        invariant hasTable && AllFit(rows[..i])
        invariant table == ApplyAll(savedTable, rows[..i])
      {
        if !Fits(rows[i]) {
          hasTable, table := savedHasTable, savedTable;   // rollback
          return Err(IntegerOutOfRange(rows[i].videoId));
        }
        assert rows[..i + 1][..i] == rows[..i];
        table := table[rows[i].videoId := ColumnsOf(rows[i])];
        i := i + 1;
      }
      assert rows[..|rows|] == rows;
      res := Ok(());
    }
  }
}
