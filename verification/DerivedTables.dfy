/**
 Materializers that read tables which other materializers are still filling.  The
 source rows are one ordered log, in which several rows may share a key; at each fetch
 only some of them are there yet.
 */
module DerivedTables {
  import opened EventLog

  /** What one poll finds: the row numbers present in the source tables, and the batch size. */
  datatype Fetch = Fetch(present: set<nat>, batchSize: nat)

  /** All of the first n rows. */
  function AllRows(n: nat): (s: set<nat>)
    ensures forall k: nat :: k in s <==> k < n
  {
    if n == 0 then {} else AllRows(n - 1) + {n - 1}
  }

  /** The derived table, its cursor, and the numbers of the rows it has applied, in order. */
  datatype Derived<T> = Derived(table: T, cursor: Cursor, applied: seq<nat>)

  /** The first n present rows after the cursor, by row number, looking from row number i on. */
  function Batch<B>(log: seq<Event<B>>, present: set<nat>, c: Cursor, n: nat, i: nat): (r: seq<nat>)
    requires i <= |log|
    ensures |r| <= n && forall k :: k in r ==> i <= k < |log| && k in present && c.Before(log[k].key)
    decreases |log| - i
  {
    if n == 0 || i == |log| then []
    else if i in present && c.Before(log[i].key) then [i] + Batch(log, present, c, n - 1, i + 1)
    else Batch(log, present, c, n, i + 1)
  }

  function RowsAt<B>(log: seq<Event<B>>, numbers: seq<nat>): seq<Event<B>>
    requires forall k :: k in numbers ==> k < |log|
  {
    seq(|numbers|, i requires 0 <= i < |numbers| => assert numbers[i] in numbers; log[numbers[i]])
  }

  function Poll<T, B>(f: (T, Event<B>) -> T, log: seq<Event<B>>, d: Derived<T>, fetch: Fetch): Derived<T> {
    var batch := Batch(log, fetch.present, d.cursor, fetch.batchSize, 0);
    if batch == [] then d
    else Derived(Fold(f, d.table, RowsAt(log, batch)), LastKey(log, batch), d.applied + batch)
  }

  function Polls<T, B>(f: (T, Event<B>) -> T, log: seq<Event<B>>, d: Derived<T>, fetches: seq<Fetch>): Derived<T>
    decreases |fetches|
  {
    if fetches == [] then d else Polls(f, log, Poll(f, log, d, fetches[0]), fetches[1..])
  }

  /** All source rows up to the last fetched key are there, and the batch cuts no group of rows with that key. */
  ghost predicate Covered<B>(log: seq<Event<B>>, c: Cursor, fetch: Fetch) {
    var batch := Batch(log, fetch.present, c, fetch.batchSize, 0);
    batch != [] ==>
      var last := LastKey(log, batch);
      && (forall k :: 0 <= k < |log| && c.Before(log[k].key) && !last.Before(log[k].key) ==> k in fetch.present)
      && (forall k :: 0 <= k < |log| && k in fetch.present && log[k].key == last ==> k in batch)
  }

  ghost predicate AllCovered<T, B>(f: (T, Event<B>) -> T, log: seq<Event<B>>, d: Derived<T>, fetches: seq<Fetch>)
    decreases |fetches|
  {
    fetches != [] ==>
      && Covered(log, d.cursor, fetches[0])
      && AllCovered(f, log, Poll(f, log, d, fetches[0]), fetches[1..])
  }

  /** The numbers lo, lo + 1, ..., hi - 1. */
  function Range(lo: nat, hi: nat): seq<nat>
    requires lo <= hi
  {
    seq(hi - lo, i requires 0 <= i < hi - lo => lo + i)
  }

  /** Exactly the rows up to the cursor have been applied, each once, in order. */
  ghost predicate Exact<T, B(!new)>(log: seq<Event<B>>, d: Derived<T>) {
    d.applied == Range(0, Rank(log, d.cursor))
  }

  ghost predicate Increasing(s: seq<nat>) {
    forall i, j :: 0 <= i < j < |s| ==> s[i] < s[j]
  }

  lemma {:induction false} BatchIncreasing<B>(log: seq<Event<B>>, present: set<nat>, c: Cursor, n: nat, i: nat)
    requires i <= |log|
    ensures Increasing(Batch(log, present, c, n, i))
    decreases |log| - i
  {
    if n > 0 && i < |log| {
      if i in present && c.Before(log[i].key) {
        BatchIncreasing(log, present, c, n - 1, i + 1);
        var rest := Batch(log, present, c, n - 1, i + 1);
        assert forall j :: 0 <= j < |rest| ==> rest[j] in rest;
      } else {
        BatchIncreasing(log, present, c, n, i + 1);
      }
    }
  }

  /** Rows the batch passes over: every present row after the cursor and ahead of its last one is in it. */
  lemma {:induction false} BatchDense<B>(log: seq<Event<B>>, present: set<nat>, c: Cursor, n: nat, i: nat, k: nat)
    requires i <= k < |log| && k in present && c.Before(log[k].key)
    requires var batch := Batch(log, present, c, n, i); batch != [] && k <= batch[|batch| - 1]
    ensures k in Batch(log, present, c, n, i)
    decreases |log| - i
  {
    if i in present && c.Before(log[i].key) {
      if i < k {
        BatchDense(log, present, c, n - 1, i + 1, k);
      }
    } else {
      BatchDense(log, present, c, n, i + 1, k);
    }
  }

  lemma RangeHas(lo: nat, hi: nat)
    requires lo <= hi
    ensures forall k :: k in Range(lo, hi) <==> lo <= k < hi
  {
    forall k: nat | lo <= k < hi ensures k in Range(lo, hi) {
      assert Range(lo, hi)[k - lo] == k;
    }
  }

  lemma {:induction false} IncreasingRange(s: seq<nat>, lo: nat, hi: nat)
    requires Increasing(s) && lo <= hi
    requires forall k :: k in s <==> lo <= k < hi
    ensures s == Range(lo, hi)
  {
    assert |s| > 0 ==> s[0] in s;
    if lo < hi {
      assert lo in s;
      assert s[0] == lo;
      forall k | k in s[1..] ensures lo + 1 <= k < hi {
        var j :| 0 <= j < |s[1..]| && s[1..][j] == k;
        assert s[j + 1] == k && s[0] < s[j + 1] && k in s;
      }
      forall k | lo + 1 <= k < hi ensures k in s[1..] {
        assert k in s;
        InTail(k, s);
      }
      IncreasingRange(s[1..], lo + 1, hi);
      assert s == [s[0]] + s[1..];
    }
  }

  /** The key of the last row of a batch. */
  function LastKey<B>(log: seq<Event<B>>, batch: seq<nat>): Cursor
    requires batch != [] && forall k :: k in batch ==> k < |log|
  {
    assert batch[|batch| - 1] in batch;
    log[batch[|batch| - 1]].key
  }

  lemma CursorCuts<B(!new)>(log: seq<Event<B>>, c: Cursor)
    requires Ordered(log)
    ensures forall i :: 0 <= i < |log| ==> (i < Rank(log, c) <==> !c.Before(log[i].key))
  {
    CursorSplits(log, c);
  }

  /** A covered batch is the stretch of rows between the old cursor and the new one. */
  lemma {:induction false} CoveredBatch<B(!new)>(log: seq<Event<B>>, c: Cursor, fetch: Fetch)
    requires Ordered(log) && Covered(log, c, fetch)
    requires Batch(log, fetch.present, c, fetch.batchSize, 0) != []
    ensures var batch := Batch(log, fetch.present, c, fetch.batchSize, 0);
      var lo, hi := Rank(log, c), Rank(log, LastKey(log, batch));
      lo <= hi && batch == Range(lo, hi)
  {
    hide Batch, After, Rank, Ordered, Range, Increasing;
    var batch := Batch(log, fetch.present, c, fetch.batchSize, 0);
    var last, next := batch[|batch| - 1], LastKey(log, batch);
    assert last in batch;
    var lo, hi := Rank(log, c), Rank(log, next);
    CursorCuts(log, c);
    CursorCuts(log, next);
    BatchIncreasing(log, fetch.present, c, fetch.batchSize, 0);
    forall k | lo <= k < hi ensures k in batch {
      assert c.Before(log[k].key) && !next.Before(log[k].key) && k in fetch.present;
      if k <= last {
        BatchDense(log, fetch.present, c, fetch.batchSize, 0, k);
      } else {
        SameKeyPast(log, last, k);
      }
    }
    forall k | k in batch ensures lo <= k < hi {
      assert c.Before(log[k].key);
      UpToLast(log, batch, k);
    }
    IncreasingRange(batch, lo, hi);
  }

  lemma SameKeyPast<B(!new)>(log: seq<Event<B>>, i: nat, k: nat)
    requires Ordered(log) && i <= k < |log| && !log[i].key.Before(log[k].key)
    ensures log[k].key == log[i].key
  {
    assert i < k ==> !log[k].key.Before(log[i].key);
  }

  lemma UpToLast<B(!new)>(log: seq<Event<B>>, batch: seq<nat>, k: nat)
    requires Ordered(log) && Increasing(batch) && k in batch && forall j :: j in batch ==> j < |log|
    ensures !LastKey(log, batch).Before(log[k].key)
  {
    var j :| 0 <= j < |batch| && batch[j] == k;
    var last := batch[|batch| - 1];
    assert k <= last;
    assert last in batch;
    assert k < last ==> !log[last].key.Before(log[k].key);
  }

  lemma RowsOfRange<B>(log: seq<Event<B>>, lo: nat, hi: nat)
    requires lo <= hi <= |log|
    ensures forall k :: k in Range(lo, hi) ==> k < |log|
    ensures RowsAt(log, Range(lo, hi)) == log[lo..hi]
  {
  }

  lemma RangeJoin(lo: nat, hi: nat)
    requires lo <= hi
    ensures Range(0, lo) + Range(lo, hi) == Range(0, hi)
  {
  }

  lemma CoveredPollExact<T, B(!new)>(f: (T, Event<B>) -> T, log: seq<Event<B>>, d: Derived<T>, fetch: Fetch)
    requires Ordered(log) && Covered(log, d.cursor, fetch) && Exact(log, d)
    ensures Exact(log, Poll(f, log, d, fetch))
  {
    if Batch(log, fetch.present, d.cursor, fetch.batchSize, 0) != [] {
      CoveredBatch(log, d.cursor, fetch);
      RangeJoin(Rank(log, d.cursor), Rank(log, Poll(f, log, d, fetch).cursor));
    }
  }

  lemma {:induction false} CoveredPollTable<T, B(!new)>(f: (T, Event<B>) -> T, log: seq<Event<B>>, empty: T,
      d: Derived<T>, fetch: Fetch)
    requires Ordered(log) && Covered(log, d.cursor, fetch)
    requires d.table == Fold(f, empty, log[..Rank(log, d.cursor)])
    ensures var after := Poll(f, log, d, fetch); after.table == Fold(f, empty, log[..Rank(log, after.cursor)])
  {
    hide Covered, Ordered, Batch, Rank, Range, Fold, RowsAt;
    var after := Poll(f, log, d, fetch);
    if Batch(log, fetch.present, d.cursor, fetch.batchSize, 0) != [] {
      CoveredBatch(log, d.cursor, fetch);
      var lo, hi := Rank(log, d.cursor), Rank(log, after.cursor);
      RowsOfRange(log, lo, hi);
      assert log[..lo] + log[lo..hi] == log[..hi];
      FoldAppend(f, empty, log[..lo], log[lo..hi]);
    }
  }

  /** A row behind the cursor that has not been applied. */
  ghost predicate Skipped<T, B>(log: seq<Event<B>>, d: Derived<T>, k: nat) {
    k < |log| && !d.cursor.Before(log[k].key) && k !in d.applied
  }

  lemma PollKeepsSkipped<T, B>(f: (T, Event<B>) -> T, log: seq<Event<B>>, d: Derived<T>, fetch: Fetch, k: nat)
    requires Skipped(log, d, k)
    ensures Skipped(log, Poll(f, log, d, fetch), k)
  {
    var batch := Batch(log, fetch.present, d.cursor, fetch.batchSize, 0);
    if batch != [] {
      assert batch[|batch| - 1] in batch;
    }
  }

  /** A batch that takes some rows of a group with one key and leaves others passes the others over. */
  lemma CutGroupSkips<T, B(!new)>(f: (T, Event<B>) -> T, log: seq<Event<B>>, d: Derived<T>, fetch: Fetch, k: nat)
    requires Ordered(log) && Exact(log, d) && k < |log|
    requires var batch := Batch(log, fetch.present, d.cursor, fetch.batchSize, 0);
      batch != [] && k !in batch && log[k].key == LastKey(log, batch)
    ensures Skipped(log, Poll(f, log, d, fetch), k)
  {
    var batch := Batch(log, fetch.present, d.cursor, fetch.batchSize, 0);
    assert batch[|batch| - 1] in batch;
    CursorCuts(log, d.cursor);
    RangeHas(0, Rank(log, d.cursor));
  }

  lemma {:induction false} PollsKeepSkipped<T, B>(f: (T, Event<B>) -> T, log: seq<Event<B>>, d: Derived<T>,
      fetches: seq<Fetch>, k: nat)
    requires Skipped(log, d, k)
    ensures Skipped(log, Polls(f, log, d, fetches), k)
    decreases |fetches|
  {
    if fetches != [] {
      PollKeepsSkipped(f, log, d, fetches[0], k);
      PollsKeepSkipped(f, log, Poll(f, log, d, fetches[0]), fetches[1..], k);
    }
  }

  /** A fetch that is not covered leaves a row behind. */
  lemma UncoveredSkips<T, B(!new)>(f: (T, Event<B>) -> T, log: seq<Event<B>>, d: Derived<T>, fetch: Fetch)
      returns (k: nat)
    requires Ordered(log) && Exact(log, d) && !Covered(log, d.cursor, fetch)
    ensures Skipped(log, Poll(f, log, d, fetch), k)
  {
    var batch := Batch(log, fetch.present, d.cursor, fetch.batchSize, 0);
    var last := LastKey(log, batch);
    RangeHas(0, Rank(log, d.cursor));
    CursorSplits(log, d.cursor);
    if missing: nat :|
        missing < |log| && d.cursor.Before(log[missing].key) && !last.Before(log[missing].key)
        && missing !in fetch.present {
      k := missing;
    } else {
      k :| 0 <= k < |log| && k in fetch.present && log[k].key == last && k !in batch;
    }
  }

  /**
   A derived table is exact after a run if and only if every fetch was covered: then,
   and only then, the rows it has applied are those up to its cursor, each once and in
   order, whatever the batch sizes and the pace at which the sources fill up.
   */
  lemma {:induction false} ExactIffCovered<T, B(!new)>(f: (T, Event<B>) -> T, log: seq<Event<B>>, d: Derived<T>,
      fetches: seq<Fetch>)
    requires Ordered(log) && Exact(log, d)
    ensures Exact(log, Polls(f, log, d, fetches)) <==> AllCovered(f, log, d, fetches)
    decreases |fetches|
  {
    if fetches != [] {
      var after := Poll(f, log, d, fetches[0]);
      if Covered(log, d.cursor, fetches[0]) {
        CoveredPollExact(f, log, d, fetches[0]);
        ExactIffCovered(f, log, after, fetches[1..]);
      } else {
        var k := UncoveredSkips(f, log, d, fetches[0]);
        PollsKeepSkipped(f, log, after, fetches[1..], k);
        var final := Polls(f, log, d, fetches);
        CursorSplits(log, final.cursor);
        RangeHas(0, Rank(log, final.cursor));
      }
    }
  }

  /** With every fetch covered the derived table is the fold of all source rows up to its cursor. */
  lemma {:induction false} CoveredIsFold<T, B(!new)>(f: (T, Event<B>) -> T, log: seq<Event<B>>, empty: T,
      d: Derived<T>, fetches: seq<Fetch>)
    requires Ordered(log) && d.table == Fold(f, empty, log[..Rank(log, d.cursor)])
    requires AllCovered(f, log, d, fetches)
    ensures var after := Polls(f, log, d, fetches);
      after.table == Fold(f, empty, log[..Rank(log, after.cursor)])
    decreases |fetches|
  {
    if fetches != [] {
      CoveredPollTable(f, log, empty, d, fetches[0]);
      CoveredIsFold(f, log, empty, Poll(f, log, d, fetches[0]), fetches[1..]);
    }
  }

  // ---- what a fetch finds ----

  /** The present rows, from row number i on. */
  function There<B>(log: seq<Event<B>>, present: set<nat>, i: nat): seq<Event<B>>
    requires i <= |log|
    decreases |log| - i
  {
    if i == |log| then [] else (if i in present then [log[i]] else []) + There(log, present, i + 1)
  }

  lemma RowsCons<B>(log: seq<Event<B>>, i: nat, rest: seq<nat>)
    requires i < |log| && forall k :: k in rest ==> k < |log|
    ensures forall k :: k in [i] + rest ==> k < |log|
    ensures RowsAt(log, [i] + rest) == [log[i]] + RowsAt(log, rest)
  {
  }

  lemma TakeNone<B(!new)>(log: seq<Event<B>>, present: set<nat>, c: Cursor, n: nat, i: nat)
    requires i <= |log| && (n == 0 || i == |log|)
    ensures RowsAt(log, Batch(log, present, c, n, i)) == Take(After(There(log, present, i), c), n)
  {
  }

  lemma BatchNext<B>(log: seq<Event<B>>, present: set<nat>, c: Cursor, n: nat, i: nat)
    requires i < |log| && n > 0
    ensures Batch(log, present, c, n, i) ==
      if i in present && c.Before(log[i].key) then [i] + Batch(log, present, c, n - 1, i + 1)
      else Batch(log, present, c, n, i + 1)
  {
  }

  /** A batch is the next n of the present rows. */
  lemma {:induction false} BatchIsThere<B(!new)>(log: seq<Event<B>>, present: set<nat>, c: Cursor, n: nat, i: nat)
    requires i <= |log|
    ensures RowsAt(log, Batch(log, present, c, n, i)) == Take(After(There(log, present, i), c), n)
    decreases |log| - i
  {
    hide Batch, RowsAt, After, Take;
    if n == 0 || i == |log| {
      TakeNone(log, present, c, n, i);
    } else {
      var rest := There(log, present, i + 1);
      BatchNext(log, present, c, n, i);
      AfterFront(log[i], rest, c);
      assert [] + rest == rest;
      if i in present && c.Before(log[i].key) {
        BatchIsThere(log, present, c, n - 1, i + 1);
        RowsCons(log, i, Batch(log, present, c, n - 1, i + 1));
        TakeFront(log[i], After(rest, c), n);
      } else {
        BatchIsThere(log, present, c, n, i + 1);
      }
    }
  }

  /** Rows of the second sequence, in its order. */
  predicate IsPart<B(==)>(part: seq<Event<B>>, all: seq<Event<B>>)
    decreases |all|
  {
    || part == []
    || (all != [] && ((part[0] == all[0] && IsPart(part[1..], all[1..])) || IsPart(part, all[1..])))
  }

  lemma {:induction false} PartMembers<B(!new)>(part: seq<Event<B>>, all: seq<Event<B>>)
    requires IsPart(part, all)
    ensures forall e :: e in part ==> e in all
    decreases |all|
  {
    if part != [] {
      assert all == [all[0]] + all[1..];
      if part[0] == all[0] && IsPart(part[1..], all[1..]) {
        PartMembers(part[1..], all[1..]);
        assert part == [part[0]] + part[1..];
      } else {
        PartMembers(part, all[1..]);
      }
    }
  }

  lemma FirstIsLeast<B(!new)>(all: seq<Event<B>>, part: seq<Event<B>>)
    requires Ordered(all) && all != [] && part != [] && IsPart(part, all)
    ensures !part[0].key.Before(all[0].key)
  {
    PartMembers(part, all);
    assert part[0] in all;
    var k :| 0 <= k < |all| && all[k] == part[0];
  }

  lemma KeepsFirst<B(!new)>(part: seq<Event<B>>, all: seq<Event<B>>)
    requires part != [] && all != [] && part[0] == all[0] && IsPart(part[1..], all[1..])
    ensures IsPart(part, all)
  {
  }

  lemma DropsFirst<B(!new)>(part: seq<Event<B>>, a: Event<B>, all: seq<Event<B>>)
    requires IsPart(part, all)
    ensures IsPart(part, [a] + all)
  {
    assert ([a] + all)[1..] == all;
  }

  lemma {:induction false} MergeFirstPart<B(!new)>(x': seq<Event<B>>, x: seq<Event<B>>, y': seq<Event<B>>,
      y: seq<Event<B>>)
    requires Ordered(x) && Ordered(y) && IsPart(x', x) && IsPart(y', y)
    requires x != [] && y != [] && !y[0].key.Before(x[0].key)
    ensures IsPart(Merge(x', y'), Merge(x, y))
    decreases |x| + |y|, 0
  {
    var rest := Merge(x[1..], y);
    if x' != [] && x'[0] == x[0] && IsPart(x'[1..], x[1..]) {
      MergedParts(x'[1..], x[1..], y', y);
      if y' != [] {
        FirstIsLeast(y, y');
      } else {
        MergeNone(x'[1..]);
      }
      assert Merge(x', y') == [x[0]] + Merge(x'[1..], y');
      KeepsFirst(Merge(x', y'), [x[0]] + rest);
    } else {
      MergedParts(x', x[1..], y', y);
      DropsFirst(Merge(x', y'), x[0], rest);
    }
  }

  lemma MergeNone<B(!new)>(x: seq<Event<B>>)
    ensures Merge(x, []) == x && Merge([], x) == x
  {
  }

  lemma {:induction false} MergeSecondPart<B(!new)>(x': seq<Event<B>>, x: seq<Event<B>>, y': seq<Event<B>>,
      y: seq<Event<B>>)
    requires Ordered(x) && Ordered(y) && IsPart(x', x) && IsPart(y', y)
    requires x != [] && y != [] && y[0].key.Before(x[0].key)
    ensures IsPart(Merge(x', y'), Merge(x, y))
    decreases |x| + |y|, 0
  {
    var rest := Merge(x, y[1..]);
    if y' != [] && y'[0] == y[0] && IsPart(y'[1..], y[1..]) {
      MergedParts(x', x, y'[1..], y[1..]);
      if x' != [] {
        FirstIsLeast(x, x');
      } else {
        MergeNone(y'[1..]);
      }
      assert Merge(x', y') == [y[0]] + Merge(x', y'[1..]);
      KeepsFirst(Merge(x', y'), [y[0]] + rest);
    } else {
      MergedParts(x', x, y', y[1..]);
      DropsFirst(Merge(x', y'), y[0], rest);
    }
  }

  /** Merging parts gives a part of the merge. */
  lemma {:induction false} MergedParts<B(!new)>(x': seq<Event<B>>, x: seq<Event<B>>, y': seq<Event<B>>,
      y: seq<Event<B>>)
    requires Ordered(x) && Ordered(y) && IsPart(x', x) && IsPart(y', y)
    ensures IsPart(Merge(x', y'), Merge(x, y))
    decreases |x| + |y|, 1
  {
    if x == [] || y == [] {
      MergeNone(x);
      MergeNone(y);
      MergeNone(x');
      MergeNone(y');
    } else if !y[0].key.Before(x[0].key) {
      MergeFirstPart(x', x, y', y);
    } else {
      MergeSecondPart(x', x, y', y);
    }
  }

  lemma {:induction false} ThereSame<B>(log: seq<Event<B>>, a: set<nat>, b: set<nat>, i: nat)
    requires i <= |log| && forall k :: i <= k < |log| ==> (k in a <==> k in b)
    ensures There(log, a, i) == There(log, b, i)
    decreases |log| - i
  {
    if i < |log| {
      ThereSame(log, a, b, i + 1);
    }
  }

  /** A part of the log is what some of its rows make up. */
  lemma {:induction false} PartIsThere<B(!new)>(part: seq<Event<B>>, log: seq<Event<B>>, i: nat)
      returns (present: set<nat>)
    requires i <= |log| && IsPart(part, log[i..])
    ensures There(log, present, i) == part && forall k :: k in present ==> i <= k
    decreases |log| - i
  {
    if i == |log| {
      present := {};
    } else {
      assert log[i..][1..] == log[i + 1..];
      if part != [] && part[0] == log[i] && IsPart(part[1..], log[i + 1..]) {
        var rest := PartIsThere(part[1..], log, i + 1);
        present := rest + {i};
        ThereSame(log, present, rest, i + 1);
      } else {
        assert part != [] || IsPart(part, log[i + 1..]);
        present := PartIsThere(part, log, i + 1);
      }
    }
  }

  lemma {:induction false} SortTwo<B(!new)>(x: seq<Event<B>>, y: seq<Event<B>>)
    requires Ordered(x) && Ordered(y)
    ensures Sort(Flatten([x, y])) == Sort(x + y) == Merge(x, y)
  {
    hide Ordered, Merge, Sort;
    SortMerges(x, y);
    SortKeeps(x);
    SortKeeps(y);
    assert [x, y][1..] == [y] && [y][1..] == [];
    assert Flatten([y]) == y + Flatten<B>([]) == y;
    assert Flatten([x, y]) == x + Flatten([y]);
  }

  /**
   A poll that reads the first n rows from each of two tables, which hold part of their
   rows, sorts the merge and cuts it to n finds a batch of the log of all rows.
   */
  lemma {:induction false} FetchIsBatch<B(!new)>(x': seq<Event<B>>, x: seq<Event<B>>, y': seq<Event<B>>,
      y: seq<Event<B>>)
    returns (present: set<nat>)
    requires Ordered(x) && Ordered(y) && IsPart(x', x) && IsPart(y', y) && Ordered(x') && Ordered(y')
    ensures var log := Sort(x + y);
      Ordered(log) && forall c, n :: FetchBatch([x', y'], c, n) == RowsAt(log, Batch(log, present, c, n, 0))
  {
    hide FetchBatch, Batch, RowsAt, There, Sort, Merge, Flatten, Ordered, IsPart, Take, After;
    var log := Sort(x + y);
    SortOrdered(x + y);
    SortTwo(x, y);
    SortTwo(x', y');
    MergedParts(x', x, y', y);
    assert log[0..] == log;
    present := PartIsThere(Merge(x', y'), log, 0);
    forall c, n ensures FetchBatch([x', y'], c, n) == RowsAt(log, Batch(log, present, c, n, 0)) {
      BatchIsLogPrefix([x', y'], c, n);
      BatchIsThere(log, present, c, n, 0);
    }
  }
}
