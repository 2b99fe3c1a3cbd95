/** Collecting the per-row results of `process_excel_file`.

    Rows are processed concurrently and their outcomes are gathered in
    completion order, which the model takes as an arbitrary permutation of
    the outcomes in table order. Failed rows are dropped; the successful
    rows are then sorted by `SL_N0` with Python's stable sort. */
module Aggregate {
  import opened Wrappers
  import opened Rows

  /** What `future.result()` gives for one row: the row, or the exception
      that is reported and skipped. */
  datatype Outcome = Done(row: OutputRow) | Failed

  function OutcomeOf(r: Option<OutputRow>): Outcome {
    match r
    case Some(row) => Done(row)
    case None => Failed
  }

  /** The outcome of every row, in table order, for rows numbered from
      `first`. Each row is processed on its own (`process` is given the row's
      position), so two equal records may have different outcomes. */
  function Dispatch(first: nat, records: seq<Record>, process: (nat, Record) -> Option<OutputRow>)
    : (r: seq<Outcome>)
    ensures |r| == |records|
    ensures forall i :: 0 <= i < |records| ==> r[i] == OutcomeOf(process(first + i, records[i]))
    decreases |records|
  {
    if |records| == 0 then []
    else [OutcomeOf(process(first, records[0]))] + Dispatch(first + 1, records[1..], process)
  }

  /** Outcomes whose rows carry the `SL_N0` of the record at the same position. */
  predicate KeysFrom(d: seq<Outcome>, records: seq<Record>) {
    && |d| == |records|
    && forall i :: 0 <= i < |d| && d[i].Done? ==> d[i].row.slNo == records[i].slNo
  }

  /** Processing that keeps each record's key gives outcomes keyed by their records. */
  lemma DispatchKeys(first: nat, records: seq<Record>, process: (nat, Record) -> Option<OutputRow>)
    requires forall n, rec :: process(n, rec).Some? ==> process(n, rec).value.slNo == rec.slNo
    ensures KeysFrom(Dispatch(first, records, process), records)
  {
    var d := Dispatch(first, records, process);
    forall i | 0 <= i < |d| && d[i].Done? ensures d[i].row.slNo == records[i].slNo {
      assert d[i] == OutcomeOf(process(first + i, records[i]));
    }
  }

  /** `brokerage_data.append(result)` for every outcome that is a row, in
      arrival order. */
  function Successes(arrival: seq<Outcome>): (r: seq<OutputRow>)
    ensures |r| <= |arrival|
  {
    if |arrival| == 0 then []
    else (if arrival[0].Done? then [arrival[0].row] else []) + Successes(arrival[1..])
  }

  /** Each row is kept exactly as often as it arrived; failures vanish. */
  lemma {:induction false} SuccessesCount(arrival: seq<Outcome>, row: OutputRow)
    ensures multiset(Successes(arrival))[row] == multiset(arrival)[Done(row)]
  {
    if |arrival| > 0 {
      SuccessesCount(arrival[1..], row);
      assert arrival == [arrival[0]] + arrival[1..];
    }
  }

  /** Rearranging the arrivals rearranges the successes. */
  lemma SuccessesPermute(a: seq<Outcome>, b: seq<Outcome>)
    requires multiset(a) == multiset(b)
    ensures multiset(Successes(a)) == multiset(Successes(b))
  {
    forall row ensures multiset(Successes(a))[row] == multiset(Successes(b))[row] {
      SuccessesCount(a, row);
      SuccessesCount(b, row);
    }
  }

  predicate Sorted(rows: seq<OutputRow>) {
    forall i, j :: 0 <= i < j < |rows| ==> rows[i].slNo <= rows[j].slNo
  }

  /** Every row's key is at least `m`. */
  predicate AtLeast(rows: seq<OutputRow>, m: int) {
    forall i :: 0 <= i < |rows| ==> rows[i].slNo >= m
  }

  /** Places `x` before the first row whose key is not smaller, so it stays
      ahead of every row with an equal key. */
  function Insert(x: OutputRow, ys: seq<OutputRow>): (r: seq<OutputRow>)
    ensures multiset(r) == multiset(ys) + multiset{x}
  {
    if |ys| == 0 || x.slNo <= ys[0].slNo then
      [x] + ys
    else
      assert ys == [ys[0]] + ys[1..];
      [ys[0]] + Insert(x, ys[1..])
  }

  lemma {:induction false} InsertAtLeast(x: OutputRow, ys: seq<OutputRow>, m: int)
    requires AtLeast(ys, m) && x.slNo >= m
    ensures AtLeast(Insert(x, ys), m)
  {
    if !(|ys| == 0 || x.slNo <= ys[0].slNo) {
      InsertAtLeast(x, ys[1..], m);
      var r := Insert(x, ys);
      forall i | 0 < i < |r| ensures r[i].slNo >= m { assert r[i] == Insert(x, ys[1..])[i - 1]; }
    }
  }

  lemma {:induction false} InsertSorted(x: OutputRow, ys: seq<OutputRow>)
    requires Sorted(ys)
    ensures Sorted(Insert(x, ys))
  {
    if !(|ys| == 0 || x.slNo <= ys[0].slNo) {
      var rest := Insert(x, ys[1..]);
      InsertSorted(x, ys[1..]);
      InsertAtLeast(x, ys[1..], ys[0].slNo);
      SortedCons(ys[0], rest);
    }
  }

  lemma SortedCons(h: OutputRow, rest: seq<OutputRow>)
    requires Sorted(rest) && AtLeast(rest, h.slNo)
    ensures Sorted([h] + rest)
  {
    var r := [h] + rest;
    forall i, j | 0 <= i < j < |r| ensures r[i].slNo <= r[j].slNo {
      assert r[j] == rest[j - 1];
      if i > 0 { assert r[i] == rest[i - 1]; }
    }
  }

  /** `list.sort(key=lambda x: x['SL_N0'])`, as a stable insertion sort. */
  function SortRows(rows: seq<OutputRow>): (r: seq<OutputRow>)
    ensures Sorted(r)
    ensures multiset(r) == multiset(rows)
  {
    if |rows| == 0 then []
    else
      assert rows == [rows[0]] + rows[1..];
      InsertSorted(rows[0], SortRows(rows[1..]));
      Insert(rows[0], SortRows(rows[1..]))
  }

  /** The rows carrying key `k`, in their order. */
  function WithKey(rows: seq<OutputRow>, k: int): seq<OutputRow> {
    if |rows| == 0 then []
    else (if rows[0].slNo == k then [rows[0]] else []) + WithKey(rows[1..], k)
  }

  /** Inserting a row changes only the rows of its own key, where it comes first. */
  lemma {:induction false} InsertWithKey(x: OutputRow, ys: seq<OutputRow>, k: int)
    ensures WithKey(Insert(x, ys), k) == (if x.slNo == k then [x] else []) + WithKey(ys, k)
  {
    if |ys| == 0 || x.slNo <= ys[0].slNo {
      assert ([x] + ys)[1..] == ys;
    } else {
      InsertWithKey(x, ys[1..], k);
      var rest := Insert(x, ys[1..]);
      assert ([ys[0]] + rest)[1..] == rest;
      assert WithKey(Insert(x, ys), k)
          == (if ys[0].slNo == k then [ys[0]] else []) + WithKey(rest, k);
    }
  }

  /** The sort is stable: for every key, the rows with that key keep their
      relative order. */
  lemma {:induction false} SortStable(rows: seq<OutputRow>, k: int)
    ensures WithKey(SortRows(rows), k) == WithKey(rows, k)
  {
    if |rows| > 0 {
      SortStable(rows[1..], k);
      InsertWithKey(rows[0], SortRows(rows[1..]), k);
    }
  }

  /** A key present in a sorted list is no smaller than its first row's. */
  lemma {:induction false} KeyPresentBound(rows: seq<OutputRow>, k: int)
    requires Sorted(rows) && WithKey(rows, k) != []
    ensures |rows| > 0 && k >= rows[0].slNo
  {
    if rows[0].slNo != k {
      KeyPresentBound(rows[1..], k);
      assert rows[1..][0] == rows[1];
    }
  }

  /** A sorted list is determined by its rows of each key. */
  lemma {:induction false} SortedUnique(a: seq<OutputRow>, b: seq<OutputRow>)
    requires Sorted(a) && Sorted(b)
    requires forall k :: WithKey(a, k) == WithKey(b, k)
    ensures a == b
  {
    forall row ensures multiset(a)[row] == multiset(b)[row] {
      WithKeyCount(a, row.slNo, row);
      WithKeyCount(b, row.slNo, row);
    }
    assert multiset(a) == multiset(b);
    assert |a| == |multiset(a)| == |multiset(b)| == |b|;
    if |a| > 0 {
      assert WithKey(a, a[0].slNo) != [];
      KeyPresentBound(b, a[0].slNo);
      assert WithKey(b, b[0].slNo) != [];
      KeyPresentBound(a, b[0].slNo);
      assert WithKey(a, a[0].slNo)[0] == a[0];
      assert WithKey(b, a[0].slNo)[0] == b[0];
      forall k ensures WithKey(a[1..], k) == WithKey(b[1..], k) {
        var h := if a[0].slNo == k then [a[0]] else [];
        assert WithKey(a, k) == h + WithKey(a[1..], k);
        assert WithKey(b, k) == h + WithKey(b[1..], k);
        assert (h + WithKey(a[1..], k))[|h|..] == WithKey(a[1..], k);
        assert (h + WithKey(b[1..], k))[|h|..] == WithKey(b[1..], k);
      }
      SortedUnique(a[1..], b[1..]);
      assert a == [a[0]] + a[1..] && b == [b[0]] + b[1..];
    }
  }

  /** The rows of the summary: the successes, sorted by `SL_N0`. */
  function Collect(arrival: seq<Outcome>): (r: seq<OutputRow>)
    ensures Sorted(r)
    ensures |r| == |Successes(arrival)|
    ensures multiset(r) == multiset(Successes(arrival))
  {
    var r := SortRows(Successes(arrival));
    assert |r| == |multiset(r)|;
    r
  }

  /** Everything that is known of the summary rows: sorted, rows of equal key
      in arrival order, and exactly the rows that arrived, each as often as it
      arrived. */
  lemma CollectSpec(arrival: seq<Outcome>)
    ensures Sorted(Collect(arrival))
    ensures forall k :: WithKey(Collect(arrival), k) == WithKey(Successes(arrival), k)
    ensures forall row :: multiset(Collect(arrival))[row] == multiset(arrival)[Done(row)]
  {
    forall k ensures WithKey(Collect(arrival), k) == WithKey(Successes(arrival), k) {
      SortStable(Successes(arrival), k);
    }
    forall row ensures multiset(Collect(arrival))[row] == multiset(arrival)[Done(row)] {
      SuccessesCount(arrival, row);
    }
  }

  /** Every collected row is the result of some record's processing. */
  lemma CollectOrigin(d: seq<Outcome>, arrival: seq<Outcome>, row: OutputRow)
    requires multiset(arrival) == multiset(d)
    requires row in Collect(arrival)
    ensures exists i :: 0 <= i < |d| && d[i] == Done(row)
  {
    assert multiset(Collect(arrival))[row] > 0;
    assert multiset(Successes(arrival))[row] > 0;
    SuccessesCount(arrival, row);
    assert multiset(d)[Done(row)] > 0;
    var i := Position(d, Done(row));
  }

  lemma {:induction false} Position(d: seq<Outcome>, x: Outcome) returns (i: nat)
    requires multiset(d)[x] > 0
    ensures i < |d| && d[i] == x
  {
    if d[0] == x {
      i := 0;
    } else {
      assert d == [d[0]] + d[1..];
      var j := Position(d[1..], x);
      i := j + 1;
    }
  }

  predicate UniqueKeys(rows: seq<OutputRow>) {
    forall i, j :: 0 <= i < j < |rows| ==> rows[i].slNo != rows[j].slNo
  }

  lemma {:induction false} AbsentKey(rows: seq<OutputRow>, k: int)
    requires forall i :: 0 <= i < |rows| ==> rows[i].slNo != k
    ensures WithKey(rows, k) == []
  {
    if |rows| > 0 {
      AbsentKey(rows[1..], k);
    }
  }

  lemma {:induction false} UniqueKeysAtMostOne(rows: seq<OutputRow>, k: int)
    requires UniqueKeys(rows)
    ensures |WithKey(rows, k)| <= 1
  {
    if |rows| > 0 {
      if rows[0].slNo == k {
        AbsentKey(rows[1..], k);
      } else {
        UniqueKeysAtMostOne(rows[1..], k);
      }
    }
  }

  /** Selecting one key commutes with counting. */
  lemma {:induction false} WithKeyCount(rows: seq<OutputRow>, k: int, row: OutputRow)
    ensures multiset(WithKey(rows, k))[row] == if row.slNo == k then multiset(rows)[row] else 0
  {
    if |rows| > 0 {
      WithKeyCount(rows[1..], k, row);
      assert rows == [rows[0]] + rows[1..];
    }
  }

  /** Two lists of at most one element with the same contents are equal. */
  lemma SmallEqual(a: seq<OutputRow>, b: seq<OutputRow>)
    requires |a| <= 1 && multiset(a) == multiset(b)
    ensures a == b
  {
    assert |a| == |multiset(a)| && |b| == |multiset(b)|;
    if |a| == 1 {
      assert a[0] in multiset(b);
    }
  }

  /** With unique keys, rearranging the rows leaves the rows of each key alone. */
  lemma PermuteUniqueWithKey(a: seq<OutputRow>, b: seq<OutputRow>, k: int)
    requires multiset(a) == multiset(b) && UniqueKeys(a)
    ensures WithKey(a, k) == WithKey(b, k)
  {
    UniqueKeysAtMostOne(a, k);
    forall row ensures multiset(WithKey(a, k))[row] == multiset(WithKey(b, k))[row] {
      WithKeyCount(a, k, row);
      WithKeyCount(b, k, row);
    }
    SmallEqual(WithKey(a, k), WithKey(b, k));
  }

  /** When no `SL_N0` repeats among the successful rows, the summary does not
      depend on the order in which the rows complete. */
  lemma CollectOrderIndependent(a: seq<Outcome>, b: seq<Outcome>)
    requires multiset(a) == multiset(b)
    requires UniqueKeys(Successes(a))
    ensures Collect(a) == Collect(b)
  {
    SuccessesPermute(a, b);
    CollectSpec(a);
    CollectSpec(b);
    forall k ensures WithKey(Collect(a), k) == WithKey(Collect(b), k) {
      PermuteUniqueWithKey(Successes(a), Successes(b), k);
    }
    SortedUnique(Collect(a), Collect(b));
  }

  /** Records with pairwise distinct `SL_N0`. */
  predicate UniqueRecordKeys(records: seq<Record>) {
    forall i, j :: 0 <= i < j < |records| ==> records[i].slNo != records[j].slNo
  }

  lemma KeysFromTail(d: seq<Outcome>, records: seq<Record>)
    requires KeysFrom(d, records) && |d| > 0
    ensures KeysFrom(d[1..], records[1..])
  {
    forall i | 0 <= i < |d[1..]| && d[1..][i].Done? ensures d[1..][i].row.slNo == records[1..][i].slNo {
      assert d[1..][i] == d[i + 1];
    }
  }

  /** Every successful row carries the key of some record of the table. */
  lemma {:induction false} SuccessKeyFromRecord(d: seq<Outcome>, records: seq<Record>, j: nat)
    requires KeysFrom(d, records)
    requires j < |Successes(d)|
    ensures exists i :: 0 <= i < |records| && records[i].slNo == Successes(d)[j].slNo
  {
    var head := if d[0].Done? then [d[0].row] else [];
    var s := Successes(d);
    assert s == head + Successes(d[1..]);
    if j < |head| {
      assert s[j] == d[0].row;
    } else {
      assert s[j] == Successes(d[1..])[j - |head|];
      KeysFromTail(d, records);
      SuccessKeyFromRecord(d[1..], records[1..], j - |head|);
      var i :| 0 <= i < |records[1..]| && records[1..][i].slNo == s[j].slNo;
      assert records[i + 1].slNo == s[j].slNo;
    }
  }

  /** When the records' keys are distinct and each successful outcome keeps
      its record's key, the successful rows' keys are distinct too. */
  lemma {:induction false} UniqueKeysKept(d: seq<Outcome>, records: seq<Record>)
    requires KeysFrom(d, records)
    requires UniqueRecordKeys(records)
    ensures UniqueKeys(Successes(d))
  {
    if |d| > 0 {
      KeysFromTail(d, records);
      var tail := Successes(d[1..]);
      UniqueKeysKept(d[1..], records[1..]);
      var head := if d[0].Done? then [d[0].row] else [];
      var s := Successes(d);
      assert s == head + tail;
      forall i, j | 0 <= i < j < |s| ensures s[i].slNo != s[j].slNo {
        if i < |head| {
          assert s[i].slNo == records[0].slNo;
          assert s[j] == tail[j - 1];
          SuccessKeyFromRecord(d[1..], records[1..], j - 1);
        } else {
          assert s[i] == tail[i - |head|] && s[j] == tail[j - |head|];
        }
      }
    }
  }

  /** Unique keys survive rearranging. */
  lemma UniqueKeysPermute(a: seq<OutputRow>, b: seq<OutputRow>)
    requires UniqueKeys(a) && multiset(a) == multiset(b)
    ensures UniqueKeys(b)
  {
    forall i, j | 0 <= i < j < |b| ensures b[i].slNo != b[j].slNo {
      if b[i].slNo == b[j].slNo {
        var k := b[i].slNo;
        UniqueKeysAtMostOne(a, k);
        PermuteUniqueWithKey(a, b, k);
        KeyTwice(b, i, j);
      }
    }
  }

  /** Two positions with the same key give two rows of that key. */
  lemma {:induction false} KeyTwice(rows: seq<OutputRow>, i: nat, j: nat)
    requires i < j < |rows| && rows[i].slNo == rows[j].slNo
    ensures |WithKey(rows, rows[i].slNo)| >= 2
  {
    if i == 0 {
      KeyOnce(rows[1..], j - 1);
    } else {
      KeyTwice(rows[1..], i - 1, j - 1);
    }
  }

  lemma {:induction false} KeyOnce(rows: seq<OutputRow>, j: nat)
    requires j < |rows|
    ensures |WithKey(rows, rows[j].slNo)| >= 1
  {
    if j > 0 {
      KeyOnce(rows[1..], j - 1);
    }
  }

}
