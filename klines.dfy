/**
 * The candle table: ingestion of a batch of raw records with de-duplication
 * on (symbol, open time), and the close-price summary for one symbol.
 */
module Klines {
  import opened Wrappers
  import opened Schemas

  /** A stored candle row. */
  datatype Candle = Candle(
    symbol: string,
    openTime: real,
    open: real,
    high: real,
    low: real,
    close: real,
    volume: real,
    closeTime: real)

  /** The row stored for a decoded record of `symbol`. */
  function ToCandle(symbol: string, k: KlineData): Candle {
    Candle(symbol, k.openTime, k.open, k.high, k.low, k.close, k.volume, k.closeTime)
  }

  /** Some row already has this (symbol, open time) key. */
  predicate HasKey(rows: seq<Candle>, symbol: string, openTime: real) {
    exists i :: 0 <= i < |rows| && rows[i].symbol == symbol && rows[i].openTime == openTime
  }

  /** No two rows share a (symbol, open time) key. */
  ghost predicate UniqueKeys(rows: seq<Candle>) {
    forall i, j :: 0 <= i < j < |rows| ==>
      rows[i].symbol != rows[j].symbol || rows[i].openTime != rows[j].openTime
  }

  /** The table after handling one raw entry: skipped when malformed or already present. */
  function StoreEntry(rows: seq<Candle>, symbol: string, entry: seq<RawValue>): seq<Candle> {
    match FromList(entry)
    case None => rows
    case Some(k) => if HasKey(rows, symbol, k.openTime) then rows else rows + [ToCandle(symbol, k)]
  }

  /**
   * The table after handling a whole batch in order. Rows added earlier in the
   * batch are visible to the existence check of later entries.
   */
  function Ingested(rows: seq<Candle>, symbol: string, batch: seq<seq<RawValue>>): seq<Candle>
    decreases |batch|
  {
    if batch == [] then rows
    else Ingested(StoreEntry(rows, symbol, batch[0]), symbol, batch[1..])
  }

  /** Existing rows are kept as they were, in place: a batch only appends. */
  lemma {:induction false} IngestedExtends(rows: seq<Candle>, symbol: string, batch: seq<seq<RawValue>>)
    ensures |rows| <= |Ingested(rows, symbol, batch)| && Ingested(rows, symbol, batch)[..|rows|] == rows
    decreases |batch|
  {
    if batch != [] {
      var next := StoreEntry(rows, symbol, batch[0]);
      IngestedExtends(next, symbol, batch[1..]);
      assert next[..|rows|] == rows;
    }
  }

  /** Number of entries of a batch that fail to decode. */
  function MalformedCount(batch: seq<seq<RawValue>>): (n: nat)
    ensures n <= |batch|
  {
    if batch == [] then 0
    else MalformedCount(batch[..|batch| - 1]) + (if Decodable(batch[|batch| - 1]) then 0 else 1)
  }

  /** No error is reported exactly when every entry of the batch decodes. */
  lemma {:induction false} NoMalformedIffAllDecode(batch: seq<seq<RawValue>>)
    ensures MalformedCount(batch) == 0 <==> forall i :: 0 <= i < |batch| ==> Decodable(batch[i])
    decreases |batch|
  {
    if batch != [] {
      var init := batch[..|batch| - 1];
      NoMalformedIffAllDecode(init);
      assert forall i :: 0 <= i < |init| ==> init[i] == batch[i];
    }
  }

  /** A key present in a table stays present after any batch. */
  lemma {:induction false} IngestedKeepsKey(rows: seq<Candle>, symbol: string, batch: seq<seq<RawValue>>, s: string, t: real)
    requires HasKey(rows, s, t)
    ensures HasKey(Ingested(rows, symbol, batch), s, t)
  {
    var i :| 0 <= i < |rows| && rows[i].symbol == s && rows[i].openTime == t;
    var r := Ingested(rows, symbol, batch);
    IngestedExtends(rows, symbol, batch);
    assert r[i] == r[..|rows|][i];
  }

  /** After a batch, the key of every well-formed entry of it is in the table. */
  lemma {:induction false} IngestedCoversBatch(rows: seq<Candle>, symbol: string, batch: seq<seq<RawValue>>)
    ensures forall e :: e in batch && FromList(e).Some? ==>
      HasKey(Ingested(rows, symbol, batch), symbol, FromList(e).value.openTime)
    decreases |batch|
  {
    if batch != [] {
      var next := StoreEntry(rows, symbol, batch[0]);
      IngestedCoversBatch(next, symbol, batch[1..]);
      var k := FromList(batch[0]);
      if k.Some? {
        if !HasKey(rows, symbol, k.value.openTime) {
          assert next[|rows|] == ToCandle(symbol, k.value);
        }
        assert HasKey(next, symbol, k.value.openTime);
        IngestedKeepsKey(next, symbol, batch[1..], symbol, k.value.openTime);
      }
      forall e | e in batch && FromList(e).Some?
        ensures HasKey(Ingested(rows, symbol, batch), symbol, FromList(e).value.openTime)
      {
        if e != batch[0] {
          assert e in batch[1..];
        }
      }
    }
  }

  /** A batch whose well-formed entries are all already stored adds nothing. */
  lemma {:induction false} IngestedNothingNew(rows: seq<Candle>, symbol: string, batch: seq<seq<RawValue>>)
    requires forall e :: e in batch && FromList(e).Some? ==> HasKey(rows, symbol, FromList(e).value.openTime)
    ensures Ingested(rows, symbol, batch) == rows
    decreases |batch|
  {
    if batch != [] {
      assert StoreEntry(rows, symbol, batch[0]) == rows;
      forall e | e in batch[1..] && FromList(e).Some?
        ensures HasKey(rows, symbol, FromList(e).value.openTime)
      {
        assert e in batch;
      }
      IngestedNothingNew(rows, symbol, batch[1..]);
    }
  }

  /** Ingesting the same batch a second time stores nothing new. */
  lemma IngestIdempotent(rows: seq<Candle>, symbol: string, batch: seq<seq<RawValue>>)
    ensures Ingested(Ingested(rows, symbol, batch), symbol, batch) == Ingested(rows, symbol, batch)
  {
    IngestedCoversBatch(rows, symbol, batch);
    IngestedNothingNew(Ingested(rows, symbol, batch), symbol, batch);
  }

  /** Handling a batch in two parts is the same as handling it at once. */
  lemma {:induction false} IngestedConcat(rows: seq<Candle>, symbol: string, b1: seq<seq<RawValue>>, b2: seq<seq<RawValue>>)
    ensures Ingested(rows, symbol, b1 + b2) == Ingested(Ingested(rows, symbol, b1), symbol, b2)
    decreases |b1|
  {
    if b1 == [] {
      assert b1 + b2 == b2;
    } else {
      assert (b1 + b2)[0] == b1[0];
      assert (b1 + b2)[1..] == b1[1..] + b2;
      IngestedConcat(StoreEntry(rows, symbol, b1[0]), symbol, b1[1..], b2);
    }
  }

  /**
   * A malformed entry is skipped and the rest of the batch is still handled:
   * the result is the same as for the batch without that entry.
   */
  lemma MalformedEntrySkipped(rows: seq<Candle>, symbol: string, b1: seq<seq<RawValue>>, bad: seq<RawValue>, b2: seq<seq<RawValue>>)
    requires !Decodable(bad)
    ensures Ingested(rows, symbol, b1 + [bad] + b2) == Ingested(rows, symbol, b1 + b2)
  {
    IngestedConcat(rows, symbol, b1 + [bad], b2);
    IngestedConcat(rows, symbol, b1, [bad]);
    IngestedConcat(rows, symbol, b1, b2);
    var mid := Ingested(rows, symbol, b1);
    assert Ingested(mid, symbol, [bad]) == Ingested(StoreEntry(mid, symbol, bad), symbol, []);
  }

  /** Ingestion keeps the table free of duplicate keys. */
  lemma {:induction false} IngestedUniqueKeys(rows: seq<Candle>, symbol: string, batch: seq<seq<RawValue>>)
    requires UniqueKeys(rows)
    ensures UniqueKeys(Ingested(rows, symbol, batch))
    decreases |batch|
  {
    if batch != [] {
      var next := StoreEntry(rows, symbol, batch[0]);
      assert UniqueKeys(next) by {
        var k := FromList(batch[0]);
        if k.Some? && !HasKey(rows, symbol, k.value.openTime) {
          forall i, j | 0 <= i < j < |next|
            ensures next[i].symbol != next[j].symbol || next[i].openTime != next[j].openTime
          {
            if j == |rows| {
              assert next[i] == rows[i];
            }
          }
        }
      }
      IngestedUniqueKeys(next, symbol, batch[1..]);
    }
  }

  /** The row is the candle of some well-formed entry of the batch. */
  predicate DecodedFrom(c: Candle, symbol: string, batch: seq<seq<RawValue>>) {
    exists e :: e in batch && FromList(e).Some? && c == ToCandle(symbol, FromList(e).value)
  }

  /**
   * Every row a batch adds is the candle of one of its well-formed entries,
   * all fields as decoded, and its key was absent from the table before.
   */
  lemma {:induction false} IngestedRowsFromBatch(rows: seq<Candle>, symbol: string, batch: seq<seq<RawValue>>)
    ensures forall i :: |rows| <= i < |Ingested(rows, symbol, batch)| ==>
      && DecodedFrom(Ingested(rows, symbol, batch)[i], symbol, batch)
      && !HasKey(rows, symbol, Ingested(rows, symbol, batch)[i].openTime)
    decreases |batch|
  {
    if batch != [] {
      var next := StoreEntry(rows, symbol, batch[0]);
      var r := Ingested(rows, symbol, batch);
      assert r == Ingested(next, symbol, batch[1..]);
      IngestedRowsFromBatch(next, symbol, batch[1..]);
      IngestedExtends(next, symbol, batch[1..]);
      forall i | |rows| <= i < |r|
        ensures DecodedFrom(r[i], symbol, batch) && !HasKey(rows, symbol, r[i].openTime)
      {
        if i < |next| {
          var k := FromList(batch[0]).value;
          assert next == rows + [ToCandle(symbol, k)];
          assert r[i] == r[..|next|][i] == ToCandle(symbol, k);
          assert batch[0] in batch;
        } else {
          assert DecodedFrom(r[i], symbol, batch[1..]);
          var e :| e in batch[1..] && FromList(e).Some? && r[i] == ToCandle(symbol, FromList(e).value);
          assert e in batch;
          assert |rows| <= |next| && next[..|rows|] == rows;
          PrefixLacksKey(rows, next, symbol, r[i].openTime);
        }
      }
    }
  }

  /** A key absent from a table is absent from every prefix of it. */
  lemma PrefixLacksKey(rows: seq<Candle>, longer: seq<Candle>, symbol: string, t: real)
    requires |rows| <= |longer| && longer[..|rows|] == rows
    requires !HasKey(longer, symbol, t)
    ensures !HasKey(rows, symbol, t)
  {
    forall i | 0 <= i < |rows| ensures !(rows[i].symbol == symbol && rows[i].openTime == t) {
      assert longer[i] == rows[i];
    }
  }

  /**
   * Overlapping batches: three well-formed records with distinct new keys,
   * ingested as [e1, e2] and then [e2, e3], add exactly their three rows.
   */
  lemma OverlappingBatches(rows: seq<Candle>, symbol: string, e1: seq<RawValue>, e2: seq<RawValue>, e3: seq<RawValue>)
    requires Decodable(e1) && Decodable(e2) && Decodable(e3)
    requires FromList(e1).value.openTime != FromList(e2).value.openTime
    requires FromList(e1).value.openTime != FromList(e3).value.openTime
    requires FromList(e2).value.openTime != FromList(e3).value.openTime
    requires !HasKey(rows, symbol, FromList(e1).value.openTime)
    requires !HasKey(rows, symbol, FromList(e2).value.openTime)
    requires !HasKey(rows, symbol, FromList(e3).value.openTime)
    ensures Ingested(Ingested(rows, symbol, [e1, e2]), symbol, [e2, e3])
      == rows + [ToCandle(symbol, FromList(e1).value), ToCandle(symbol, FromList(e2).value),
                 ToCandle(symbol, FromList(e3).value)]
  {
    var c1, c2, c3 := ToCandle(symbol, FromList(e1).value), ToCandle(symbol, FromList(e2).value),
                      ToCandle(symbol, FromList(e3).value);
    var r1 := rows + [c1];
    var r2 := r1 + [c2];
    KeyAbsentAfterAppend(rows, c1, symbol, c2.openTime);
    KeyAbsentAfterAppend(rows, c1, symbol, c3.openTime);
    KeyAbsentAfterAppend(r1, c2, symbol, c3.openTime);
    assert StoreEntry(rows, symbol, e1) == r1;
    assert StoreEntry(r1, symbol, e2) == r2;
    IngestedPair(rows, symbol, e1, e2);
    assert HasKey(r2, symbol, c2.openTime) by { assert r2[|r1|] == c2; }
    assert StoreEntry(r2, symbol, e2) == r2;
    IngestedPair(r2, symbol, e2, e3);
    assert r2 + [c3] == rows + [c1, c2, c3];
  }

  /** A two-entry batch is its first entry, then its second. */
  lemma IngestedPair(rows: seq<Candle>, symbol: string, e: seq<RawValue>, f: seq<RawValue>)
    ensures Ingested(rows, symbol, [e, f]) == StoreEntry(StoreEntry(rows, symbol, e), symbol, f)
  {
    var r1 := StoreEntry(rows, symbol, e);
    assert [e, f][1..] == [f];
    assert [f][1..] == [];
    assert Ingested(rows, symbol, [e, f]) == Ingested(r1, symbol, [f]);
    assert Ingested(r1, symbol, [f]) == Ingested(StoreEntry(r1, symbol, f), symbol, []);
  }

  /** Appending a row with another open time does not create the key. */
  lemma KeyAbsentAfterAppend(rows: seq<Candle>, c: Candle, symbol: string, t: real)
    requires !HasKey(rows, symbol, t) && c.openTime != t
    ensures !HasKey(rows + [c], symbol, t)
  {
    var r := rows + [c];
    forall i | 0 <= i < |r| ensures !(r[i].symbol == symbol && r[i].openTime == t) {
      if i < |rows| { assert r[i] == rows[i]; }
    }
  }

  /** The candle table as held by the store; rows are only ever appended. */
  class KlineTable {
    var rows: seq<Candle>

    constructor ()
      ensures rows == []
    {
      rows := [];
    }

    /**
     * Ingest one batch of raw records for `symbol`. Returns how many rows were
     * added and how many entries were reported as malformed and skipped.
     */
    method FetchAndStore(symbol: string, batch: seq<seq<RawValue>>) returns (newCount: nat, failed: nat)
      modifies this
      ensures rows == Ingested(old(rows), symbol, batch)
      ensures newCount == |rows| - |old(rows)|
      ensures failed == MalformedCount(batch)
    {
      var table;
      table, newCount, failed := IngestBatch(rows, symbol, batch);
      rows := table;
    }
  }

  /**
   * The ingestion loop over one batch, on the session's pending rows: decode
   * each entry, report it when malformed, otherwise add its row unless its key
   * is already present. Returns the table to commit and the two counts.
   */
  method IngestBatch(start: seq<Candle>, symbol: string, batch: seq<seq<RawValue>>)
    returns (table: seq<Candle>, newCount: nat, failed: nat)
    ensures table == Ingested(start, symbol, batch)
    ensures |table| == |start| + newCount
    ensures failed == MalformedCount(batch)
  {
    newCount, failed := 0, 0;
    table := start;
    ghost var target := Ingested(start, symbol, batch);
    var i := 0;
    while i < |batch|
      invariant 0 <= i <= |batch|
      invariant Ingested(table, symbol, batch[i..]) == target
      invariant |start| + newCount == |table|
      invariant failed == MalformedCount(batch[..i])
    {
      ghost var before := table;
      var kline := FromList(batch[i]);
      if kline.None? {
        failed := failed + 1;
        IngestStep(before, table, symbol, batch, i, target);
      } else {
        var present := HasKey(table, symbol, kline.value.openTime);
        if !present {
          table := table + [ToCandle(symbol, kline.value)];
          newCount := newCount + 1;
        }
        IngestStep(before, table, symbol, batch, i, target);
      }
      MalformedStep(batch, i);
      i := i + 1;
    }
    assert batch[..|batch|] == batch && batch[|batch|..] == [];
  }

  /** One iteration of the ingestion loop: the rest of the batch still leads to the same table. */
  lemma IngestStep(before: seq<Candle>, table: seq<Candle>, symbol: string, batch: seq<seq<RawValue>>, i: nat,
                   target: seq<Candle>)
    requires i < |batch| && table == StoreEntry(before, symbol, batch[i])
    requires Ingested(before, symbol, batch[i..]) == target
    ensures Ingested(table, symbol, batch[i + 1..]) == target
  {
    assert batch[i..][0] == batch[i];
    assert batch[i..][1..] == batch[i + 1..];
  }

  /** One iteration of the ingestion loop: the error count grows by one exactly for a malformed entry. */
  lemma MalformedStep(batch: seq<seq<RawValue>>, i: nat)
    requires i < |batch|
    ensures MalformedCount(batch[..i + 1]) == MalformedCount(batch[..i]) + (if Decodable(batch[i]) then 0 else 1)
  {
    assert batch[..i + 1][..i] == batch[..i];
  }

  /** The rows of one symbol, in table order (the history query). */
  function RowsFor(rows: seq<Candle>, symbol: string): (r: seq<Candle>)
    ensures |r| <= |rows|
    ensures forall i :: 0 <= i < |r| ==> r[i].symbol == symbol && r[i] in rows
    ensures forall i :: 0 <= i < |rows| && rows[i].symbol == symbol ==> rows[i] in r
  {
    if rows == [] then []
    else
      var init := rows[..|rows| - 1];
      assert forall i :: 0 <= i < |init| ==> init[i] == rows[i];
      RowsFor(init, symbol) + (if rows[|rows| - 1].symbol == symbol then [rows[|rows| - 1]] else [])
  }

  /**
   * The history query returns each row of the symbol as often as the table
   * holds it, and no other row.
   */
  lemma {:induction false} RowsForCounts(rows: seq<Candle>, symbol: string)
    ensures forall c :: multiset(RowsFor(rows, symbol))[c] == if c.symbol == symbol then multiset(rows)[c] else 0
    decreases |rows|
  {
    if rows != [] {
      var init := rows[..|rows| - 1];
      RowsForCounts(init, symbol);
      assert rows == init + [rows[|rows| - 1]];
    }
  }

  /** The close prices of a list of rows. */
  function Closes(rows: seq<Candle>): (cs: seq<real>)
    ensures |cs| == |rows| && forall i :: 0 <= i < |rows| ==> cs[i] == rows[i].close
  {
    if rows == [] then [] else Closes(rows[..|rows| - 1]) + [rows[|rows| - 1].close]
  }

  function Sum(xs: seq<real>): real {
    if xs == [] then 0.0 else Sum(xs[..|xs| - 1]) + xs[|xs| - 1]
  }

  /** The largest element: it occurs in the list and nothing in it is larger. */
  function MaxOf(xs: seq<real>): (m: real)
    requires xs != []
    ensures exists i :: 0 <= i < |xs| && xs[i] == m
    ensures forall i :: 0 <= i < |xs| ==> xs[i] <= m
  {
    if |xs| == 1 then xs[0]
    else
      var rest := MaxOf(xs[1..]);
      assert forall i :: 1 <= i < |xs| ==> xs[i] == xs[1..][i - 1];
      if xs[0] > rest then xs[0] else rest
  }

  /** The smallest element: it occurs in the list and nothing in it is smaller. */
  function MinOf(xs: seq<real>): (m: real)
    requires xs != []
    ensures exists i :: 0 <= i < |xs| && xs[i] == m
    ensures forall i :: 0 <= i < |xs| ==> m <= xs[i]
  {
    if |xs| == 1 then xs[0]
    else
      var rest := MinOf(xs[1..]);
      assert forall i :: 1 <= i < |xs| ==> xs[i] == xs[1..][i - 1];
      if xs[0] < rest then xs[0] else rest
  }

  /** The sum lies between |xs| times a lower bound and |xs| times an upper bound. */
  lemma {:induction false} SumBetweenBounds(xs: seq<real>, lo: real, hi: real)
    requires forall i :: 0 <= i < |xs| ==> lo <= xs[i] <= hi
    ensures (|xs| as real) * lo <= Sum(xs) <= (|xs| as real) * hi
    decreases |xs|
  {
    if xs != [] {
      var init := xs[..|xs| - 1];
      assert forall i :: 0 <= i < |init| ==> init[i] == xs[i];
      SumBetweenBounds(init, lo, hi);
      var k := |init| as real;
      assert (|xs| as real) * lo == k * lo + lo;
      assert (|xs| as real) * hi == k * hi + hi;
    }
  }

  /** The summary of one symbol's close prices. */
  datatype Analysis = Analysis(symbol: string, dataPoints: nat, avgClose: real, maxClose: real, minClose: real)

  /** The mean of a non-empty list lies between any lower and upper bound of its elements. */
  lemma MeanBetween(xs: seq<real>, lo: real, hi: real)
    requires xs != []
    requires forall i :: 0 <= i < |xs| ==> lo <= xs[i] <= hi
    ensures lo <= Sum(xs) / (|xs| as real) <= hi
  {
    SumBetweenBounds(xs, lo, hi);
    QuotientBetween(Sum(xs), |xs| as real, lo, hi);
  }

  lemma QuotientBetween(t: real, n: real, lo: real, hi: real)
    requires n > 0.0 && n * lo <= t <= n * hi
    ensures lo <= t / n <= hi
  {
    assert t / n - lo == (t - n * lo) / n;
    assert hi - t / n == (n * hi - t) / n;
  }

  /**
   * The summary of a non-empty list of rows: the count, the mean close (the
   * sum of the closes divided by the count), and the largest and smallest
   * close, both of which occur; every close lies between them, and so does
   * the mean.
   */
  function Summarize(symbol: string, klines: seq<Candle>): (a: Analysis)
    requires klines != []
    ensures a.symbol == symbol && a.dataPoints == |klines|
    ensures a.avgClose == Sum(Closes(klines)) / (a.dataPoints as real)
    ensures forall i :: 0 <= i < |klines| ==> a.minClose <= klines[i].close <= a.maxClose
    ensures exists i :: 0 <= i < |klines| && klines[i].close == a.maxClose
    ensures exists i :: 0 <= i < |klines| && klines[i].close == a.minClose
    ensures a.minClose <= a.avgClose <= a.maxClose
  {
    var closes := Closes(klines);
    var hi, lo := MaxOf(closes), MinOf(closes);
    MeanBetween(closes, lo, hi);
    Analysis(symbol, |klines|, Sum(closes) / (|klines| as real), hi, lo)
  }

  /**
   * Summary statistics of the close prices of `symbol`: no result when the
   * symbol has no rows; otherwise the count of its rows, the mean close, and
   * the largest and smallest close, which bound every close of the symbol
   * and are attained by some row.
   */
  function AnalyzeKlines(rows: seq<Candle>, symbol: string): (r: Option<Analysis>)
    ensures r.None? <==> forall i :: 0 <= i < |rows| ==> rows[i].symbol != symbol
    ensures r.Some? ==> r == Some(Summarize(symbol, RowsFor(rows, symbol)))
  {
    var klines := RowsFor(rows, symbol);
    if klines == [] then
      None
    else
      assert exists i :: 0 <= i < |rows| && rows[i].symbol == symbol by {
        assert klines[0] in rows;
      }
      Some(Summarize(symbol, klines))
  }

  /** Every row of the symbol has its close between the summary's minimum and maximum. */
  lemma AnalysisBoundsEveryClose(rows: seq<Candle>, symbol: string, c: Candle)
    requires c in rows && c.symbol == symbol
    ensures AnalyzeKlines(rows, symbol).Some?
    ensures AnalyzeKlines(rows, symbol).value.minClose <= c.close <= AnalyzeKlines(rows, symbol).value.maxClose
  {
    var ks := RowsFor(rows, symbol);
    var i :| 0 <= i < |rows| && rows[i] == c;
    assert c in ks;
    var j :| 0 <= j < |ks| && ks[j] == c;
  }

  /** A worked example: closes 10, 20 and 30 give count 3, mean 20, max 30, min 10. */
  lemma AnalyzeExample(c1: Candle, c2: Candle, c3: Candle)
    requires c1.symbol == c2.symbol == c3.symbol
    requires c1.close == 10.0 && c2.close == 20.0 && c3.close == 30.0
    ensures AnalyzeKlines([c1, c2, c3], c1.symbol) == Some(Analysis(c1.symbol, 3, 20.0, 30.0, 10.0))
  {
    var rows := [c1, c2, c3];
    ExampleRows(c1, c2, c3);
    ExampleCloses(c1, c2, c3);
    var a := Summarize(c1.symbol, rows);
    assert a.maxClose == 30.0 by {
      assert a.maxClose >= rows[2].close;
    }
    assert a.minClose == 10.0 by {
      assert a.minClose <= rows[0].close;
    }
  }

  lemma ExampleRows(c1: Candle, c2: Candle, c3: Candle)
    requires c1.symbol == c2.symbol == c3.symbol
    ensures RowsFor([c1, c2, c3], c1.symbol) == [c1, c2, c3]
  {
    assert [c1, c2, c3][..2] == [c1, c2];
    assert [c1, c2][..1] == [c1];
    assert [c1][..0] == [];
    assert RowsFor([c1], c1.symbol) == [c1];
    assert RowsFor([c1, c2], c1.symbol) == [c1, c2];
  }

  lemma ExampleCloses(c1: Candle, c2: Candle, c3: Candle)
    requires c1.close == 10.0 && c2.close == 20.0 && c3.close == 30.0
    ensures Sum(Closes([c1, c2, c3])) == 60.0
  {
    var cs := Closes([c1, c2, c3]);
    assert cs == [10.0, 20.0, 30.0];
    assert cs[..2] == [10.0, 20.0];
    assert [10.0, 20.0][..1] == [10.0];
    assert [10.0][..0] == [];
  }
}
