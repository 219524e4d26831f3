/** The streaming readers: four loops, one way of cutting rows into batches. */
module Batches {
  import opened Text
  import opened Greedy

  /** `RecordBatch`. */
  datatype Batch<+R, +W> = Batch(rows: seq<R>, columns: seq<string>, mark: Option<W>, isLast: bool)

  function RowsOf<R, W>(bs: seq<Batch<R, W>>): seq<seq<R>> {
    if bs == [] then [] else [bs[0].rows] + RowsOf(bs[1..])
  }

  /** One batch of the stream before the last flag is set. */
  ghost predicate Inner<R, W>(b: Batch<R, W>, mark: seq<R> -> Option<W>) {
    b.rows != [] && !b.isLast && b.mark == mark(b.rows)
  }

  /** The batches made so far: all but the last are full, none is marked as last. */
  ghost predicate Open<R, W>(bs: seq<Batch<R, W>>, rows: seq<R>, size: nat, mark: seq<R> -> Option<W>) {
    && Concat(RowsOf(bs)) == rows
    && (forall k :: 0 <= k < |bs| ==> Inner(bs[k], mark) && |bs[k].rows| <= size)
    && (forall k :: 0 <= k < |bs| - 1 ==> |bs[k].rows| == size)
  }

  /**
   * The contract of a reader: the batches hold the rows in order, every batch but the last is full, none is empty unless
   * it is the only one, exactly the last one says so, and each carries the watermark of its own rows.
   */
  ghost predicate Batched<R, W>(bs: seq<Batch<R, W>>, rows: seq<R>, size: nat, mark: seq<R> -> Option<W>) {
    && bs != [] && Concat(RowsOf(bs)) == rows
    && (forall k :: 0 <= k < |bs| ==> |bs[k].rows| <= size && bs[k].mark == mark(bs[k].rows))
    && (forall k :: 0 <= k < |bs| - 1 ==> |bs[k].rows| == size)
    && (|bs| > 1 ==> bs[|bs| - 1].rows != [])
    && (forall k :: 0 <= k < |bs| ==> (bs[k].isLast <==> k == |bs| - 1))
  }

  lemma {:induction false} RowsOfAppend<R, W>(bs: seq<Batch<R, W>>, b: Batch<R, W>)
    ensures Concat(RowsOf(bs + [b])) == Concat(RowsOf(bs)) + b.rows
    ensures |RowsOf(bs)| == |bs|
  {
    if bs == [] {
      assert bs + [b] == [b] && RowsOf([b]) == [b.rows] + [];
      ConcatOne(b.rows);
    } else {
      RowsOfAppend(bs[1..], b);
      assert (bs + [b])[1..] == bs[1..] + [b];
      assert RowsOf(bs + [b])[1..] == RowsOf(bs[1..] + [b]);
      assert RowsOf(bs)[1..] == RowsOf(bs[1..]);
    }
  }

  lemma {:induction false} NoneOpen<R, W>(size: nat, mark: seq<R> -> Option<W>)
    ensures Open<R, W>([], [], size, mark)
  {
  }

  /** Another batch behind full ones. */
  lemma {:induction false} Extends<R, W>(bs: seq<Batch<R, W>>, b: Batch<R, W>, rows: seq<R>, size: nat, mark: seq<R> -> Option<W>)
    requires Open(bs, rows, size, mark) && Inner(b, mark) && |b.rows| <= size
    requires bs != [] ==> |bs[|bs| - 1].rows| == size
    ensures Open(bs + [b], rows + b.rows, size, mark)
  {
    RowsOfAppend(bs, b);
    hide Inner, Concat, RowsOf;
  }

  /** The last batch held back gets its flag. */
  lemma {:induction false} Closes<R, W>(bs: seq<Batch<R, W>>, b: Batch<R, W>, rows: seq<R>, size: nat, mark: seq<R> -> Option<W>)
    requires Open(bs + [b], rows, size, mark)
    ensures Batched(bs + [b.(isLast := true)], rows, size, mark)
  {
    var all, done := bs + [b], bs + [b.(isLast := true)];
    RowsOfAppend(bs, b);
    RowsOfAppend(bs, b.(isLast := true));
    hide Concat, RowsOf;
    assert Inner(all[|bs|], mark);
    forall k | 0 <= k < |bs| ensures !done[k].isLast && |done[k].rows| == size && done[k].mark == mark(done[k].rows) {
      assert done[k] == all[k] && Inner(all[k], mark);
    }
  }

  lemma {:induction false} EmptyCloses<R, W>(columns: seq<string>, size: nat, mark: seq<R> -> Option<W>)
    requires mark([]) == None
    ensures Batched([Batch([], columns, None, true)], [], size, mark)
  {
    var b: Batch<R, W> := Batch([], columns, None, true);
    RowsOfAppend([], b);
    assert [] + [b] == [b];
  }

  // ---------------------------------------------------------------- only one way

  /** What a batch says about the stream. */
  ghost predicate SameBatch<R, W>(a: Batch<R, W>, b: Batch<R, W>) {
    a.rows == b.rows && a.mark == b.mark && a.isLast == b.isLast
  }

  lemma {:induction false} BatchedRest<R, W>(bs: seq<Batch<R, W>>, rows: seq<R>, size: nat, mark: seq<R> -> Option<W>)
    requires Batched(bs, rows, size, mark) && |bs| > 1
    ensures |rows| > size && bs[0].rows == rows[..size] && Batched(bs[1..], rows[size..], size, mark)
    ensures !bs[0].isLast && bs[0].mark == mark(bs[0].rows)
  {
    var rest := bs[1..];
    assert RowsOf(bs)[1..] == RowsOf(rest);
    assert rows == bs[0].rows + Concat(RowsOf(rest));
    assert forall k :: 0 <= k < |rest| ==> rest[k] == bs[k + 1];
    LastNotEmpty(rest);
    hide Concat, RowsOf;
  }

  lemma {:induction false} LastNotEmpty<R, W>(bs: seq<Batch<R, W>>)
    requires bs != [] && bs[|bs| - 1].rows != []
    ensures Concat(RowsOf(bs)) != []
  {
    var head, last := bs[..|bs| - 1], bs[|bs| - 1];
    assert bs == head + [last];
    RowsOfAppend(head, last);
  }

  lemma {:induction false} BatchedOne<R, W>(bs: seq<Batch<R, W>>, rows: seq<R>, size: nat, mark: seq<R> -> Option<W>)
    requires Batched(bs, rows, size, mark) && |bs| == 1
    ensures bs[0].rows == rows && |rows| <= size && bs[0].isLast && bs[0].mark == mark(rows)
  {
    assert RowsOf(bs) == [bs[0].rows] + RowsOf(bs[1..]) && bs[1..] == [];
    ConcatOne(bs[0].rows);
  }

  /** The contract leaves no choice: any two readers that meet it emit the same batches for the same rows. */
  lemma {:induction false} OneWayToBatch<R, W>(
    bs: seq<Batch<R, W>>, cs: seq<Batch<R, W>>, rows: seq<R>, size: nat, mark: seq<R> -> Option<W>)
    requires Batched(bs, rows, size, mark) && Batched(cs, rows, size, mark)
    ensures |bs| == |cs| && forall k :: 0 <= k < |bs| ==> SameBatch(bs[k], cs[k])
  {
    hide Batched;
    NotNone(bs, rows, size, mark);
    NotNone(cs, rows, size, mark);
    if |bs| == 1 {
      BatchedOne(bs, rows, size, mark);
      if |cs| == 1 {
        BatchedOne(cs, rows, size, mark);
      } else {
        BatchedRest(cs, rows, size, mark);
      }
    } else {
      BatchedRest(bs, rows, size, mark);
      if |cs| == 1 {
        BatchedOne(cs, rows, size, mark);
      } else {
        BatchedRest(cs, rows, size, mark);
        OneWayToBatch(bs[1..], cs[1..], rows[size..], size, mark);
        assert SameBatch(bs[0], cs[0]);
        forall k | 0 <= k < |bs| ensures SameBatch(bs[k], cs[k]) {
          if k > 0 {
            assert SameBatch(bs[1..][k - 1], cs[1..][k - 1]);
          }
        }
      }
    }
  }

  lemma {:induction false} NotNone<R, W>(bs: seq<Batch<R, W>>, rows: seq<R>, size: nat, mark: seq<R> -> Option<W>)
    requires Batched(bs, rows, size, mark)
    ensures bs != []
  {
  }

  // ---------------------------------------------------------------- the readers

  /** The rows up to the limit. */
  function CutAt<R>(rows: seq<R>, limit: Option<nat>): seq<R> {
    if limit.Some? && limit.value < |rows| then rows[..limit.value] else rows
  }

  /** The first rows, as many as the limit allows. */
  lemma {:induction false} CutAtMeans<R>(rows: seq<R>, limit: Option<nat>, cut: seq<R>)
    ensures
      cut == CutAt(rows, limit)
      <==> cut <= rows && |cut| == if limit.Some? && limit.value <= |rows| then limit.value else |rows|
  {
    assert cut <= rows <==> |cut| <= |rows| && cut == rows[..|cut|];
  }

  function Min(a: nat, b: nat): nat {
    if a < b then a else b
  }

  /** The state of a reader that holds one batch back. */
  ghost predicate Streaming<R, W>(
    out: seq<Batch<R, W>>, pending: Option<Batch<R, W>>, rows: seq<R>, n: nat, size: nat, mark: seq<R> -> Option<W>)
    requires n <= |rows|
  {
    && (pending.None? ==> out == [] && n == 0)
    && (pending.Some? ==> Open(out + [pending.value], rows[..n], size, mark))
  }

  lemma {:induction false} StreamStep<R, W>(
    out: seq<Batch<R, W>>, pending: Option<Batch<R, W>>, rows: seq<R>, n: nat, m: nat, columns: seq<string>, size: nat,
    mark: seq<R> -> Option<W>)
    requires n < m <= |rows| && m <= n + size && Streaming(out, pending, rows, n, size, mark)
    requires pending.Some? ==> |pending.value.rows| == size
    ensures
      var b := Batch(rows[n..m], columns, mark(rows[n..m]), false);
      Streaming(if pending.Some? then out + [pending.value] else out, Some(b), rows, m, size, mark)
  {
    var b := Batch(rows[n..m], columns, mark(rows[n..m]), false);
    var before := if pending.Some? then out + [pending.value] else out;
    assert rows[..n] + rows[n..m] == rows[..m];
    hide Open;
    NoneOpen(size, mark);
    if pending.None? {
      assert rows[..0] == [];
      EmptyBefore(b, rows, m, size, mark);
    } else {
      Extends(before, b, rows[..n], size, mark);
    }
  }

  lemma {:induction false} EmptyBefore<R, W>(b: Batch<R, W>, rows: seq<R>, m: nat, size: nat, mark: seq<R> -> Option<W>)
    requires m <= |rows| && Inner(b, mark) && |b.rows| <= size && b.rows == rows[..m]
    ensures Open([] + [b], rows[..m], size, mark)
  {
    NoneOpen(size, mark);
    Extends([], b, [], size, mark);
    assert [] + b.rows == rows[..m];
  }

  lemma {:induction false} StreamEnds<R, W>(
    out: seq<Batch<R, W>>, pending: Option<Batch<R, W>>, rows: seq<R>, columns: seq<string>, size: nat, mark: seq<R> -> Option<W>)
    requires Streaming(out, pending, rows, |rows|, size, mark) && mark([]) == None
    ensures
      var last := if pending.Some? then pending.value else Batch([], columns, None, false);
      Batched(out + [last.(isLast := true)], rows, size, mark)
  {
    hide Open, Batched;
    assert rows[..|rows|] == rows;
    if pending.Some? {
      Closes(out, pending.value, rows, size, mark);
    } else {
      EmptyCloses(columns, size, mark);
      assert [] + [Batch<R, W>.Batch([], columns, None, true)] == [Batch<R, W>.Batch([], columns, None, true)];
    }
  }

  /** What is left of a chunk under the limit. */
  function Kept<T>(rows: seq<T>, emitted: nat, limit: Option<nat>): seq<T> {
    if limit.Some? && emitted <= limit.value < emitted + |rows| then rows[..limit.value - emitted] else rows
  }

  lemma {:induction false} KeptIs<T>(rows: seq<T>, emitted: nat, limit: Option<nat>)
    ensures Kept(rows, emitted, limit)
      == if limit.Some? && emitted <= limit.value < emitted + |rows| then rows[..limit.value - emitted] else rows
  {
  }

  /** One chunk of the rows, and its place in the rows up to the limit. */
  lemma {:induction false} ChunkFacts<T>(all: seq<T>, limit: Option<nat>, next: nat, end: nat, emitted: nat)
    requires next <= end <= |all| && emitted == Min(next, |CutAt(all, limit)|)
    ensures
      var target, kept := CutAt(all, limit), Kept(all[next..end], emitted, limit);
      && emitted + |kept| == Min(end, |target|) <= |target| && kept == target[emitted..emitted + |kept|]
      && |kept| <= end - next && (kept == [] && next < end ==> emitted == |target|)
      && (limit.Some? ==> emitted <= limit.value)
      && (limit.Some? && emitted + |kept| >= limit.value ==> emitted + |kept| == |target|)
      && (emitted + |kept| < |target| ==> |kept| == end - next && end < |all|)
  {
    var target, kept := CutAt(all, limit), Kept(all[next..end], emitted, limit);
    assert forall i :: 0 <= i < |target| ==> target[i] == all[i];
    assert forall i :: 0 <= i < |kept| ==> kept[i] == all[next + i];
  }

  lemma {:induction false} MinIs(a: nat, b: nat)
    ensures Min(a, b) <= a && Min(a, b) <= b && (Min(a, b) == a || Min(a, b) == b)
  {
  }

  /** SQL: `read` over the partitions of the result set. */
  method SqlRead<R, W>(result: seq<R>, columns: seq<string>, size: nat, limit: Option<nat>, mark: seq<R> -> Option<W>)
    returns (out: seq<Batch<R, W>>)
    requires size > 0 && mark([]) == None
    ensures Batched(out, CutAt(result, limit), size, mark)
  {
    hide *;
    ghost var target := CutAt(result, limit);
    var emitted: nat, next: nat := 0, 0;
    var pending: Option<Batch<R, W>> := None;
    out := [];
    StreamStarts(target, size, mark);
    MinIs(0, |target|);
    while next < |result|
      invariant next <= |result| && emitted == Min(next, |target|) <= |target|
      invariant Streaming(out, pending, target, emitted, size, mark)
      invariant pending.Some? && emitted < |target| ==> |pending.value.rows| == size
      decreases |result| - next
    {
      var end := Min(next + size, |result|);
      MinIs(next + size, |result|);
      MinIs(next, |target|);
      ChunkFacts(result, limit, next, end, emitted);
      KeptIs(result[next..end], emitted, limit);
      var rows := result[next..end];
      next := end;
      if limit.Some? && emitted + |rows| > limit.value {
        rows := rows[..limit.value - emitted];
      }
      if rows == [] {
        break;
      }
      StreamStep(out, pending, target, emitted, emitted + |rows|, columns, size, mark);
      emitted := emitted + |rows|;
      var batch := Batch(rows, columns, mark(rows), false);
      if pending.Some? {
        out := out + [pending.value];
      }
      pending := Some(batch);
      if limit.Some? && emitted >= limit.value {
        break;
      }
    }
    MinIs(|result|, |target|);
    CutShorter(result, limit);
    StreamEnds(out, pending, target, columns, size, mark);
    if pending.None? {
      pending := Some(Batch([], columns, None, false));
    }
    out := out + [pending.value.(isLast := true)];
  }

  lemma {:induction false} CutShorter<R>(rows: seq<R>, limit: Option<nat>)
    ensures |CutAt(rows, limit)| <= |rows|
  {
  }

  lemma {:induction false} StreamStarts<R, W>(rows: seq<R>, size: nat, mark: seq<R> -> Option<W>)
    ensures Streaming<R, W>([], None, rows, 0, size, mark)
  {
  }

  /** What a MongoDB cursor yields: a limit of zero means no limit there. */
  function Cursor<R>(documents: seq<R>, limit: Option<nat>): seq<R> {
    if limit == Some(0) then documents else CutAt(documents, limit)
  }

  /** Every batch names these columns. */
  predicate ColumnsFrom<R, W>(bs: seq<Batch<R, W>>, columns: seq<string>) {
    forall k :: 0 <= k < |bs| ==> bs[k].columns == columns
  }

  /** MongoDB: `read` collects documents in a buffer. */
  method MongoRead<R, W>(
    documents: seq<R>, wanted: seq<string>, keysOf: R -> seq<string>, size: nat, limit: Option<nat>,
    mark: seq<R> -> Option<W>)
    returns (out: seq<Batch<R, W>>)
    requires size > 0 && mark([]) == None
    ensures Batched(out, Cursor(documents, limit), size, mark)
    ensures wanted != [] || Cursor(documents, limit) == [] ==> ColumnsFrom(out, wanted)
    ensures
      wanted == [] && Cursor(documents, limit) != [] && keysOf(Cursor(documents, limit)[0]) != [] ==>
        ColumnsFrom(out, keysOf(Cursor(documents, limit)[0]))
  {
    hide Streaming, Batched;
    var cursor := Cursor(documents, limit);
    var columns := wanted;
    var pending: Option<Batch<R, W>> := None;
    var buffer: seq<R> := [];
    ghost var n: nat := 0;
    ghost var named := if wanted == [] && cursor != [] then keysOf(cursor[0]) else wanted;
    out := [];
    StreamStarts(cursor, size, mark);
    for k := 0 to |cursor|
      invariant n <= k && buffer == cursor[n..k] && |buffer| < size
      invariant Streaming(out, pending, cursor, n, size, mark)
      invariant pending.Some? ==> |pending.value.rows| == size
      invariant n == 0 ==> columns == wanted && out == [] && pending.None?
      invariant n > 0 && named != [] ==> columns == named && ColumnsFrom(out, named)
      invariant n > 0 && named != [] && pending.Some? ==> pending.value.columns == named
    {
      buffer := buffer + [cursor[k]];
      assert buffer == cursor[n..k + 1];
      if |buffer| < size {
        continue;
      }
      if columns == [] {
        columns := keysOf(buffer[0]);
      }
      StreamStep(out, pending, cursor, n, k + 1, columns, size, mark);
      var batch := Batch(buffer, columns, mark(buffer), false);
      if pending.Some? {
        out := out + [pending.value];
      }
      pending := Some(batch);
      buffer := [];
      n := k + 1;
    }
    if buffer != [] {
      if columns == [] {
        columns := keysOf(buffer[0]);
      }
      StreamStep(out, pending, cursor, n, |cursor|, columns, size, mark);
      if pending.Some? {
        out := out + [pending.value];
      }
      pending := Some(Batch(buffer, columns, mark(buffer), false));
    }
    StreamEnds(out, pending, cursor, columns, size, mark);
    if pending.None? {
      pending := Some(Batch([], columns, None, false));
    }
    out := out + [pending.value.(isLast := true)];
  }

  /**
   * Over the same rows, with the same limit, the MongoDB reader and the SQL reader emit batches with the same rows if
   * and only if the limit is not zero or there are no rows.
   */
  lemma {:induction false} MongoAndSqlAgree<R, W>(
    rows: seq<R>, limit: Option<nat>, bs: seq<Batch<R, W>>, cs: seq<Batch<R, W>>, size: nat, mark: seq<R> -> Option<W>)
    requires Batched(bs, Cursor(rows, limit), size, mark) && Batched(cs, CutAt(rows, limit), size, mark)
    ensures
      (|bs| == |cs| && forall k :: 0 <= k < |bs| ==> SameBatch(bs[k], cs[k])) <==> limit != Some(0) || rows == []
  {
    if limit != Some(0) || rows == [] {
      OneWayToBatch(bs, cs, CutAt(rows, limit), size, mark);
    } else {
      assert Concat(RowsOf(bs)) == rows && Concat(RowsOf(cs)) == [];
      hide Batched;
      if |bs| == |cs| && forall k :: 0 <= k < |bs| ==> SameBatch(bs[k], cs[k]) {
        SameRows(bs, cs);
        assert false;
      }
    }
  }

  lemma {:induction false} SameRows<R, W>(bs: seq<Batch<R, W>>, cs: seq<Batch<R, W>>)
    requires |bs| == |cs| && forall k :: 0 <= k < |bs| ==> SameBatch(bs[k], cs[k])
    ensures RowsOf(bs) == RowsOf(cs)
  {
    if bs != [] {
      assert SameBatch(bs[0], cs[0]);
      forall k | 0 <= k < |bs[1..]| ensures SameBatch(bs[1..][k], cs[1..][k]) {
        assert SameBatch(bs[k + 1], cs[k + 1]);
      }
      SameRows(bs[1..], cs[1..]);
    }
  }

  /** SAP BAPI results: `_chunk` knows the last batch by its position. */
  method Chunk<R, W>(rows: seq<R>, columns: seq<string>, size: nat, mark: seq<R> -> Option<W>) returns (out: seq<Batch<R, W>>)
    requires size > 0 && mark([]) == None
    ensures Batched(out, rows, size, mark)
  {
    if rows == [] {
      EmptyCloses(columns, size, mark);
      return [Batch([], columns, None, true)];
    }
    hide Streaming, Batched;
    out := [];
    ghost var done: seq<Batch<R, W>>, pending: Option<Batch<R, W>> := [], None;
    var start: nat := 0;
    StreamStarts(rows, size, mark);
    while start < |rows|
      invariant Streaming(done, pending, rows, Min(start, |rows|), size, mark)
      invariant pending.Some? && start < |rows| ==> |pending.value.rows| == size
      invariant pending.None? ==> start == 0 && out == []
      invariant pending.Some? ==> out == done + [pending.value.(isLast := start >= |rows|)]
      decreases |rows| - start
    {
      var window := rows[start..Min(start + size, |rows|)];
      ghost var b := Batch(window, columns, mark(window), false);
      StreamStep(done, pending, rows, start, Min(start + size, |rows|), columns, size, mark);
      ghost var before := out;
      out := out + [Batch(window, columns, mark(window), start + size >= |rows|)];
      if pending.Some? {
        assert pending.value.(isLast := false) == pending.value by {
          PendingIsInner(done, pending, rows, start, size, mark);
        }
        done := done + [pending.value];
      }
      pending := Some(b);
      start := start + size;
    }
    StreamEnds(done, pending, rows, columns, size, mark);
  }

  lemma {:induction false} PendingIsInner<R, W>(
    out: seq<Batch<R, W>>, pending: Option<Batch<R, W>>, rows: seq<R>, n: nat, size: nat, mark: seq<R> -> Option<W>)
    requires n <= |rows| && Streaming(out, pending, rows, n, size, mark) && pending.Some?
    ensures !pending.value.isLast
  {
    var all := out + [pending.value];
    assert Inner(all[|out|], mark);
  }
}
