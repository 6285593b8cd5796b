/**
 The replay engine shared by all materializers: a persisted cursor, bounded
 batches applied row by row, retry after a failure, and rewind.
 */
module Replay {
  import opened Wrappers
  import opened EventLog

  /** A MaterializerCheckpoint row. */
  datatype Checkpoint = Checkpoint(cursor: Cursor, count: int)

  /** What persists of a materializer: its table and its cursor. */
  datatype View<T> = View(table: T, cursor: Cursor)

  /** The cursor a checkpoint stands for; a missing one means the origin. */
  function CursorOf(c: Option<Checkpoint>): Cursor {
    match c
    case Some(checkpoint) => checkpoint.cursor
    case None => ORIGIN
  }

  /** Upsert that adds the processed rows to the stored count. */
  function Advanced(c: Option<Checkpoint>, cursor: Cursor, processed: nat): Checkpoint {
    match c
    case Some(checkpoint) => Checkpoint(cursor, checkpoint.count + processed)
    case None => Checkpoint(cursor, processed)
  }

  /**
   Materializing a batch applies its rows in order and then moves the cursor to the
   last one.  If the handler fails at row failAt, the rows before it stay applied and
   the cursor stays put; the number after the last row stands for the cursor's own write.
   */
  function BatchView<T, B>(f: (T, Event<B>) -> T, v: View<T>, batch: seq<Event<B>>, failAt: nat): View<T> {
    if |batch| == 0 then v
    else if failAt <= |batch| then View(Fold(f, v.table, batch[..failAt]), v.cursor)
    else View(Fold(f, v.table, batch), batch[|batch| - 1].key)
  }

  /** One poll against a log: the batch is the next n rows after the cursor. */
  function PollView<T, B(!new)>(f: (T, Event<B>) -> T, log: seq<Event<B>>, v: View<T>, n: nat, failAt: nat): View<T> {
    BatchView(f, v, Take(After(log, v.cursor), n), failAt)
  }

  /** Polling several source tables is polling their sorted union. */
  lemma PollReadsUnion<T, B(!new)>(f: (T, Event<B>) -> T, sources: seq<seq<Event<B>>>, v: View<T>, n: nat, failAt: nat)
    ensures BatchView(f, v, FetchBatch(sources, v.cursor, n), failAt)
      == PollView(f, Sort(Flatten(sources)), v, n, failAt)
  {
    BatchIsLogPrefix(sources, v.cursor, n);
  }

  /**
   A materializer.  The handler for one row, the delete-after-block statement and
   the row count are what each concrete materializer supplies.
   */
  class Materializer<B(!new), T> {
    const apply: (T, Event<B>) -> T
    const cut: (T, int) -> T
    const countRows: T -> nat
    const batchSize: nat
    var table: T
    var checkpoint: Option<Checkpoint>
    var lastCursor: Cursor
    var totalRows: nat

    ghost function State(): View<T>
      reads this
    {
      View(table, CursorOf(checkpoint))
    }

    constructor (apply: (T, Event<B>) -> T, cut: (T, int) -> T, countRows: T -> nat, empty: T, batchSize: nat := 10000)
      ensures State() == View(empty, ORIGIN) && checkpoint == None
      ensures this.apply == apply && this.cut == cut && this.countRows == countRows && this.batchSize == batchSize
    {
      this.apply, this.cut, this.countRows, this.batchSize := apply, cut, countRows, batchSize;
      table, checkpoint, lastCursor, totalRows := empty, None, ORIGIN, 0;
    }

    method GetCursor() returns (cursor: Cursor)
      modifies this`totalRows
      ensures cursor == CursorOf(checkpoint)
      ensures totalRows == if old(totalRows) == 0 then countRows(table) else old(totalRows)
    {
      if totalRows == 0 {
        totalRows := countRows(table);
      }
      cursor := CursorOf(checkpoint);
    }

    /**
     Fetch a batch and materialize it.  failAt is the row at which the handler throws,
     the number of rows if the checkpoint cannot be written, and larger if nothing fails.
     */
    method Poll(sources: seq<seq<Event<B>>>, failAt: nat) returns (processed: Result<nat, nat>)
      modifies this
      ensures var batch := FetchBatch(sources, old(CursorOf(checkpoint)), batchSize);
        && State() == BatchView(apply, old(State()), batch, failAt)
        && processed == (if 0 < |batch| && failAt <= |batch| then Err(failAt) else Ok(|batch|))
        && checkpoint == (if |batch| == 0 || failAt <= |batch| then old(checkpoint)
                          else Some(Advanced(old(checkpoint), batch[|batch| - 1].key, |batch|)))
        && totalRows == (if processed.Ok? && 0 < |batch| then countRows(table)
                         else if old(totalRows) == 0 then countRows(old(table)) else old(totalRows))
      ensures lastCursor == if processed.Ok? then CursorOf(checkpoint) else CursorOf(old(checkpoint))
      ensures checkpoint != old(checkpoint) ==>
        && processed.Ok? && checkpoint.Some?
        && checkpoint.value.count
             == (if old(checkpoint).Some? then old(checkpoint).value.count else 0) + processed.value
    {
      var cursor := GetCursor();
      lastCursor := cursor;
      var rows := FetchBatch(sources, cursor, batchSize);
      hide FetchBatch;
      ghost var before := table;
      if |rows| == 0 {
        return Ok(0);
      }
      for i := 0 to |rows|
        invariant table == Fold(apply, before, rows[..i])
        invariant checkpoint == old(checkpoint) && lastCursor == cursor
        invariant totalRows == if old(totalRows) == 0 then countRows(old(table)) else old(totalRows)
        invariant i <= failAt
      {
        if i == failAt {
          return Err(i);
        }
        FoldNext(apply, before, rows, i);
        table := apply(table, rows[i]);
      }
      assert rows[..|rows|] == rows;
      if failAt == |rows| {
        return Err(failAt);
      }
      var newCursor := rows[|rows| - 1].key;
      checkpoint := Some(Advanced(checkpoint, newCursor, |rows|));
      lastCursor := newCursor;
      totalRows := countRows(table);
      processed := Ok(|rows|);
    }

    /** Move the cursor to the start of a block, deleting later rows unless told to keep them. */
    method ResetToBlock(block: int, keepRows: bool)
      modifies this
      ensures table == if keepRows then old(table) else cut(old(table), block)
      ensures checkpoint == Some(Checkpoint(Cursor(block, 0), totalRows)) && totalRows == countRows(table)
      ensures State() == View(table, Cursor(block, 0))
    {
      if !keepRows {
        table := cut(table, block);
      }
      var remaining := countRows(table);
      checkpoint := Some(Checkpoint(Cursor(block, 0), remaining));
      totalRows := remaining;
    }
  }

  // ---- runs over one log ----

  /** A poll with any batch size and any point of failure, or a rewind that keeps the rows. */
  datatype Op = Poll(batchSize: nat, failAt: nat) | Rewind(block: int)

  function Step<T, B(!new)>(f: (T, Event<B>) -> T, log: seq<Event<B>>, v: View<T>, op: Op): View<T> {
    match op
    case Poll(n, failAt) => PollView(f, log, v, n, failAt)
    case Rewind(block) => v.(cursor := Cursor(block, 0))
  }

  function Run<T, B(!new)>(f: (T, Event<B>) -> T, log: seq<Event<B>>, v: View<T>, ops: seq<Op>): View<T>
    decreases |ops|
  {
    if ops == [] then v else Run(f, log, Step(f, log, v, ops[0]), ops[1..])
  }

  /** Every rewind goes to a position that is not ahead of the cursor, nor behind row number floor. */
  ghost predicate Backward<T, B(!new)>(f: (T, Event<B>) -> T, log: seq<Event<B>>, v: View<T>, ops: seq<Op>, floor: nat)
    decreases |ops|
  {
    ops != [] ==>
    && (ops[0].Rewind? ==>
          !v.cursor.Before(Cursor(ops[0].block, 0)) && floor <= Rank(log, Cursor(ops[0].block, 0)))
    && Backward(f, log, Step(f, log, v, ops[0]), ops[1..], floor)
  }

  ghost predicate Idle<T, B(!new)>(log: seq<Event<B>>, v: View<T>) {
    After(log, v.cursor) == []
  }

  /** J is kept by applying the row at its position, and holds at every earlier position as well. */
  ghost predicate Replayable<T(!new), B(!new)>(f: (T, Event<B>) -> T, log: seq<Event<B>>, floor: nat,
      J: (T, nat) -> bool) {
    && (forall t, i :: floor <= i < |log| && J(t, i) ==> J(f(t, log[i]), i + 1))
    && (forall t, i, j :: floor <= j <= i <= |log| && J(t, i) ==> J(t, j))
  }

  lemma ReplayableIntro<T(!new), B(!new)>(f: (T, Event<B>) -> T, log: seq<Event<B>>, floor: nat, J: (T, nat) -> bool)
    requires forall t, i :: floor <= i < |log| && J(t, i) ==> J(f(t, log[i]), i + 1)
    requires forall t, i, j :: floor <= j <= i <= |log| && J(t, i) ==> J(t, j)
    ensures Replayable(f, log, floor, J)
  {
  }

  /** The batch of a poll is the stretch of the log right after the cursor. */
  lemma {:induction false} BatchIsStretch<B(!new)>(log: seq<Event<B>>, c: Cursor, n: nat)
    requires Sorted(log)
    ensures var r, batch := Rank(log, c), Take(After(log, c), n);
      && r + |batch| <= |log| && batch == log[r..r + |batch|]
      && (|batch| > 0 ==> Rank(log, batch[|batch| - 1].key) == r + |batch| && c.Before(batch[|batch| - 1].key))
  {
    var r, batch := Rank(log, c), Take(After(log, c), n);
    hide After, Rank;
    RankSplits(log, c);
    assert batch == log[r..r + |batch|];
    if |batch| > 0 {
      assert batch[|batch| - 1] == log[r + |batch| - 1];
      RankOfRow(log, r + |batch| - 1);
    }
  }

  lemma {:induction false} FoldKeeps<T(!new), B(!new)>(f: (T, Event<B>) -> T, log: seq<Event<B>>, floor: nat,
      J: (T, nat) -> bool,
                                                      t: T, i: nat, k: nat)
    requires Replayable(f, log, floor, J)
    requires floor <= i <= i + k <= |log| && J(t, i)
    ensures J(Fold(f, t, log[i..i + k]), i + k)
  {
    if k > 0 {
      assert log[i..i + k][..k - 1 + 1] == log[i..i + k];
      assert log[i..i + k][..k - 1] == log[i..i + k - 1];
      FoldNext(f, t, log[i..i + k], k - 1);
      FoldKeeps(f, log, floor, J, t, i, k - 1);
    }
  }

  lemma PollKeeps<T(!new), B(!new)>(f: (T, Event<B>) -> T, log: seq<Event<B>>, floor: nat, J: (T, nat) -> bool,
                                    v: View<T>, n: nat, failAt: nat)
    requires Sorted(log) && Replayable(f, log, floor, J)
    requires floor <= Rank(log, v.cursor) && J(v.table, Rank(log, v.cursor))
    ensures var w := PollView(f, log, v, n, failAt);
      floor <= Rank(log, w.cursor) && J(w.table, Rank(log, w.cursor))
  {
    var r, batch := Rank(log, v.cursor), Take(After(log, v.cursor), n);
    hide After, Take, Rank, Fold, Sorted;
    BatchIsStretch(log, v.cursor, n);
    var k := if failAt < |batch| then failAt else |batch|;
    assert batch[..k] == log[r..r + k];
    assert k == |batch| ==> batch[..k] == batch;
    FoldKeeps(f, log, floor, J, v.table, r, k);
  }

  /**
   The principle behind every convergence result: what a row-by-row invariant says at
   a position, it says after any run of polls, failed polls and backward rewinds at
   the position the run's cursor ends at.
   */
  lemma {:induction false} RunKeeps<T(!new), B(!new)>(f: (T, Event<B>) -> T, log: seq<Event<B>>, floor: nat,
      J: (T, nat) -> bool,
                                                     v: View<T>, ops: seq<Op>)
    requires Sorted(log) && Replayable(f, log, floor, J)
    requires floor <= Rank(log, v.cursor) && J(v.table, Rank(log, v.cursor))
    requires Backward(f, log, v, ops, floor)
    ensures var w := Run(f, log, v, ops);
      floor <= Rank(log, w.cursor) && J(w.table, Rank(log, w.cursor))
    decreases |ops|
  {
    if ops != [] {
      match ops[0] {
        case Poll(n, failAt) => PollKeeps(f, log, floor, J, v, n, failAt);
        case Rewind(block) => RankMonotone(log, Cursor(block, 0), v.cursor);
      }
      RunKeeps(f, log, floor, J, Step(f, log, v, ops[0]), ops[1..]);
    }
  }

  /** A successful poll that finds rows moves the cursor strictly forward. */
  lemma PollAdvances<T, B(!new)>(f: (T, Event<B>) -> T, log: seq<Event<B>>, v: View<T>, n: nat, failAt: nat)
    requires Sorted(log) && n > 0 && failAt > n && !Idle(log, v)
    ensures var w := PollView(f, log, v, n, failAt);
      v.cursor.Before(w.cursor) && |After(log, w.cursor)| < |After(log, v.cursor)|
  {
    BatchIsStretch(log, v.cursor, n);
  }

  /** Polling with batches of n until a poll finds nothing. */
  function Drain<T, B(!new)>(f: (T, Event<B>) -> T, log: seq<Event<B>>, v: View<T>, n: nat): View<T>
    requires Sorted(log) && n > 0
    decreases |After(log, v.cursor)|
  {
    if |After(log, v.cursor)| == 0 then v
    else
      PollAdvances(f, log, v, n, n + 1);
      Drain(f, log, PollView(f, log, v, n, n + 1), n)
  }

  lemma TakeSize<A>(s: seq<A>, n: nat)
    ensures |Take(s, n)| <= n
  {
  }

  lemma {:induction false} PollTakesPrefix<T, B(!new)>(f: (T, Event<B>) -> T, log: seq<Event<B>>, v: View<T>, n: nat)
    requires Sorted(log)
    ensures var batch := Take(After(log, v.cursor), n);
      After(log, v.cursor) == batch + After(log, PollView(f, log, v, n, n + 1).cursor)
  {
    hide After, Take, Fold, Rank, Sorted;
    var batch := Take(After(log, v.cursor), n);
    var r := Rank(log, v.cursor);
    BatchIsStretch(log, v.cursor, n);
    RankSplits(log, v.cursor);
    assert log[r..] == log[r..r + |batch|] + log[r + |batch|..];
    if |batch| > 0 {
      assert |batch| <= n by { TakeSize(After(log, v.cursor), n); }
      RankSplits(log, batch[|batch| - 1].key);
    }
  }

  /** Whatever the batch size, polling until idle applies exactly the rows after the cursor, each once, in order. */
  lemma {:induction false} DrainIsFold<T, B(!new)>(f: (T, Event<B>) -> T, log: seq<Event<B>>, v: View<T>, n: nat)
    requires Sorted(log) && n > 0
    ensures Idle(log, Drain(f, log, v, n))
    ensures Drain(f, log, v, n).table == Fold(f, v.table, After(log, v.cursor))
    decreases |After(log, v.cursor)|
  {
    if |After(log, v.cursor)| > 0 {
      PollAdvances(f, log, v, n, n + 1);
      var w := PollView(f, log, v, n, n + 1);
      DrainIsFold(f, log, w, n);
      PollTakesPrefix(f, log, v, n);
      FoldAppend(f, v.table, Take(After(log, v.cursor), n), After(log, w.cursor));
    }
  }

  /** Polls of any batch sizes in which no row fails. */
  ghost predicate NoFailures(ops: seq<Op>) {
    forall i :: 0 <= i < |ops| ==> ops[i].Poll? && ops[i].failAt > ops[i].batchSize
  }

  /** They apply the rows between the first cursor and the last, each once, in order. */
  lemma {:induction false} CleanRunIsFold<T, B(!new)>(f: (T, Event<B>) -> T, log: seq<Event<B>>, v: View<T>,
      ops: seq<Op>)
    requires Sorted(log) && NoFailures(ops)
    ensures var w := Run(f, log, v, ops);
      Rank(log, v.cursor) <= Rank(log, w.cursor) <= |log|
        && w.table == Fold(f, v.table, log[Rank(log, v.cursor)..Rank(log, w.cursor)])
    decreases |ops|
  {
    hide After, Rank, Sorted, Fold, PollView;
    RankSplits(log, v.cursor);
    if ops == [] {
      FoldNothing(f, v.table, log[Rank(log, v.cursor)..Rank(log, v.cursor)]);
    } else {
      var n := ops[0].batchSize;
      assert ops[0].Poll? && ops[0].failAt > n;
      var u := PollView(f, log, v, n, ops[0].failAt);
      CleanPoll(f, log, v, n, ops[0].failAt);
      assert forall i :: 0 <= i < |ops[1..]| ==> ops[1..][i] == ops[i + 1];
      CleanRunIsFold(f, log, u, ops[1..]);
      var r, s, t := Rank(log, v.cursor), Rank(log, u.cursor), Rank(log, Run(f, log, v, ops).cursor);
      assert log[r..s] + log[s..t] == log[r..t];
      FoldAppend(f, v.table, log[r..s], log[s..t]);
    }
  }

  lemma FoldNothing<T, B>(f: (T, Event<B>) -> T, t: T, none: seq<Event<B>>)
    requires none == []
    ensures Fold(f, t, none) == t
  {
  }

  lemma CleanPoll<T, B(!new)>(f: (T, Event<B>) -> T, log: seq<Event<B>>, v: View<T>, n: nat, failAt: nat)
    requires Sorted(log) && failAt > n
    ensures var w := PollView(f, log, v, n, failAt);
      Rank(log, v.cursor) <= Rank(log, w.cursor) <= |log|
        && w.table == Fold(f, v.table, log[Rank(log, v.cursor)..Rank(log, w.cursor)])
  {
    hide After, Take, Rank, Sorted;
    var r, batch := Rank(log, v.cursor), Take(After(log, v.cursor), n);
    BatchIsStretch(log, v.cursor, n);
    TakeSize(After(log, v.cursor), n);
    if |batch| == 0 {
      assert log[r..r] == [];
    }
  }

  lemma BatchSize<B(!new)>(log: seq<Event<B>>, c: Cursor, n: nat)
    ensures |Take(After(log, c), n)| == if Rank(log, c) + n <= |log| then n else |log| - Rank(log, c)
  {
  }

  /** A poll in which nothing fails applies the next n rows, or all that are left. */
  lemma CleanPollTo<T, B(!new)>(f: (T, Event<B>) -> T, log: seq<Event<B>>, v: View<T>, n: nat)
    requires Sorted(log)
    ensures var r, w := Rank(log, v.cursor), PollView(f, log, v, n, n + 1);
      var s := if r + n <= |log| then r + n else |log|;
      Rank(log, w.cursor) == s && w.table == Fold(f, v.table, log[r..s])
  {
    hide After, Take, Rank, Sorted;
    var r, batch := Rank(log, v.cursor), Take(After(log, v.cursor), n);
    BatchIsStretch(log, v.cursor, n);
    BatchSize(log, v.cursor, n);
    assert batch == [] ==> log[r..r] == [];
  }

  /** A poll that fails after one row has applied that row and left the cursor. */
  lemma PollOneRow<T, B(!new)>(f: (T, Event<B>) -> T, log: seq<Event<B>>, v: View<T>, n: nat)
    requires Sorted(log) && n > 0 && Rank(log, v.cursor) < |log|
    ensures PollView(f, log, v, n, 1) == View(f(v.table, log[Rank(log, v.cursor)]), v.cursor)
  {
    var r, batch := Rank(log, v.cursor), Take(After(log, v.cursor), n);
    BatchIsStretch(log, v.cursor, n);
    assert batch[..1] == [log[r]];
    FoldOne(f, v.table, log[r]);
  }

  lemma FoldOne<T, B>(f: (T, Event<B>) -> T, t: T, e: Event<B>)
    ensures Fold(f, t, [e]) == f(t, e)
  {
    assert [e][1..] == [];
  }

  /** Everything in one poll. */
  function CatchUp(length: nat): seq<Op> {
    [Poll(length, length + 1)]
  }

  /** The rows before row m, then row m alone, then, because the cursor was not moved, row m again and the rest. */
  function TwiceAt(length: nat, before: nat): seq<Op> {
    [Poll(before, before + 1), Poll(length, 1), Poll(length, length + 1)]
  }

  lemma {:induction false} BackwardWeaken<T, B(!new)>(f: (T, Event<B>) -> T, log: seq<Event<B>>, v: View<T>,
      ops: seq<Op>,
                                                      floor: nat, lower: nat)
    requires lower <= floor && Backward(f, log, v, ops, floor)
    ensures Backward(f, log, v, ops, lower)
    decreases |ops|
  {
    if ops != [] {
      BackwardWeaken(f, log, Step(f, log, v, ops[0]), ops[1..], floor, lower);
    }
  }

  lemma PollThen<T, B(!new)>(f: (T, Event<B>) -> T, log: seq<Event<B>>, v: View<T>, n: nat, failAt: nat,
      rest: seq<Op>, floor: nat)
    ensures Run(f, log, v, [Poll(n, failAt)] + rest) == Run(f, log, PollView(f, log, v, n, failAt), rest)
    ensures Backward(f, log, PollView(f, log, v, n, failAt), rest, floor)
      ==> Backward(f, log, v, [Poll(n, failAt)] + rest, floor)
  {
    assert ([Poll(n, failAt)] + rest)[1..] == rest;
  }

  lemma RunNothing<T, B(!new)>(f: (T, Event<B>) -> T, log: seq<Event<B>>, v: View<T>, floor: nat)
    ensures Run(f, log, v, []) == v && Backward(f, log, v, [], floor)
  {
  }

  lemma {:induction false} CatchUpRun<T, B(!new)>(f: (T, Event<B>) -> T, log: seq<Event<B>>, v: View<T>)
    requires Sorted(log)
    ensures var w := Run(f, log, v, CatchUp(|log|));
      Idle(log, w) && w.table == Fold(f, v.table, log[Rank(log, v.cursor)..])
    ensures NoFailures(CatchUp(|log|)) && Backward(f, log, v, CatchUp(|log|), Rank(log, v.cursor))
  {
    hide PollView, Run, Backward, Fold, After, Sorted;
    CleanPollTo(f, log, v, |log|);
    PollThen(f, log, v, |log|, |log| + 1, [], Rank(log, v.cursor));
    RunNothing(f, log, PollView(f, log, v, |log|, |log| + 1), Rank(log, v.cursor));
    assert CatchUp(|log|) == [Poll(|log|, |log| + 1)] + [];
    assert log[Rank(log, v.cursor)..] == log[Rank(log, v.cursor)..|log|];
  }

  lemma {:induction false} TwiceAtRun<T, B(!new)>(f: (T, Event<B>) -> T, log: seq<Event<B>>, v: View<T>, m: nat)
    requires Sorted(log) && Rank(log, v.cursor) <= m < |log|
    ensures var k := Rank(log, v.cursor); var ops := TwiceAt(|log|, m - k); var w := Run(f, log, v, ops);
      && Idle(log, w) && Backward(f, log, v, ops, k)
      && w.table == Fold(f, f(Fold(f, v.table, log[k..m]), log[m]), log[m..])
  {
    hide PollView, Run, Backward, Fold, After, Sorted;
    var n, k := |log|, Rank(log, v.cursor);
    var a := PollView(f, log, v, m - k, m - k + 1);
    CleanPollTo(f, log, v, m - k);
    var b := PollView(f, log, a, n, 1);
    PollOneRow(f, log, a, n);
    CatchUpRun(f, log, b);
    BackwardWeaken(f, log, b, CatchUp(n), Rank(log, b.cursor), k);
    PollThen(f, log, a, n, 1, CatchUp(n), k);
    PollThen(f, log, v, m - k, m - k + 1, [Poll(n, 1)] + CatchUp(n), k);
    assert TwiceAt(n, m - k) == [Poll(m - k, m - k + 1)] + ([Poll(n, 1)] + CatchUp(n));
  }

  // ---- passes that stop at any row ----

  /** Rows applied one after the other, from one row number up to another. */
  datatype Stretch = Stretch(from: nat, upTo: nat)

  /** Each pass begins no later than where the one before it stopped, and never before row number floor. */
  ghost predicate Chained(floor: nat, length: nat, at: nat, passes: seq<Stretch>)
    decreases |passes|
  {
    passes != [] ==>
    && floor <= passes[0].from <= at && passes[0].from <= passes[0].upTo <= length
    && Chained(floor, length, passes[0].upTo, passes[1..])
  }

  ghost function Reached(at: nat, passes: seq<Stretch>): nat {
    if passes == [] then at else passes[|passes| - 1].upTo
  }

  /** The rows of a stretch, none if it is not one of the log. */
  function RowsIn<B>(log: seq<Event<B>>, s: Stretch): seq<Event<B>> {
    if s.from <= s.upTo <= |log| then log[s.from..s.upTo] else []
  }

  function RunPasses<T, B>(f: (T, Event<B>) -> T, log: seq<Event<B>>, t: T, passes: seq<Stretch>): T
    decreases |passes|
  {
    if passes == [] then t else RunPasses(f, log, Fold(f, t, RowsIn(log, passes[0])), passes[1..])
  }

  lemma {:induction false} PassesKeep<T(!new), B(!new)>(f: (T, Event<B>) -> T, log: seq<Event<B>>, floor: nat,
      J: (T, nat) -> bool,
                                                       t: T, at: nat, passes: seq<Stretch>)
    requires Replayable(f, log, floor, J) && at <= |log| && J(t, at) && Chained(floor, |log|, at, passes)
    ensures J(RunPasses(f, log, t, passes), Reached(at, passes))
    decreases |passes|
  {
    if passes != [] {
      var from, upTo := passes[0].from, passes[0].upTo;
      FoldKeeps(f, log, floor, J, t, from, upTo - from);
      assert log[from..from + (upTo - from)] == log[from..upTo];
      PassesKeep(f, log, floor, J, Fold(f, t, log[from..upTo]), upTo, passes[1..]);
    }
  }

  /** One poll, failing or not, is a pass over the rows it applied. */
  lemma PollIsPass<T, B(!new)>(f: (T, Event<B>) -> T, log: seq<Event<B>>, v: View<T>, n: nat, failAt: nat)
      returns (s: Stretch)
    requires Sorted(log)
    ensures s.from == Rank(log, v.cursor) && s.from <= s.upTo <= |log|
    ensures var w := PollView(f, log, v, n, failAt);
      w.table == Fold(f, v.table, RowsIn(log, s)) && Rank(log, w.cursor) <= s.upTo
  {
    var r, batch := Rank(log, v.cursor), Take(After(log, v.cursor), n);
    hide After, Take, Rank, Sorted;
    BatchIsStretch(log, v.cursor, n);
    var k := if failAt < |batch| then failAt else |batch|;
    s := Stretch(r, r + k);
    assert batch[..k] == log[r..r + k];
    assert k == |batch| ==> batch[..k] == batch;
    assert |batch| == 0 ==> Fold(f, v.table, log[r..r]) == v.table;
  }

  /** Every run of polls, failed polls and backward rewinds is a chain of passes. */
  lemma {:induction false} RunIsPasses<T, B(!new)>(f: (T, Event<B>) -> T, log: seq<Event<B>>, floor: nat, v: View<T>,
      ops: seq<Op>, at: nat)
    returns (passes: seq<Stretch>)
    requires Sorted(log) && Backward(f, log, v, ops, floor) && floor <= Rank(log, v.cursor) <= at <= |log|
    ensures Chained(floor, |log|, at, passes) && RunPasses(f, log, v.table, passes) == Run(f, log, v, ops).table
    ensures Rank(log, Run(f, log, v, ops).cursor) <= Reached(at, passes) <= |log|
    decreases |ops|
  {
    hide After, Rank, Sorted, Fold, PollView;
    if ops == [] {
      passes := [];
    } else {
      var w := Step(f, log, v, ops[0]);
      match ops[0] {
        case Poll(n, failAt) =>
          var s := PollIsPass(f, log, v, n, failAt);
          RankOfPoll(f, log, v, n, failAt);
          var rest := RunIsPasses(f, log, floor, w, ops[1..], s.upTo);
          passes := [s] + rest;
          assert passes[1..] == rest;
        case Rewind(block) =>
          RankMonotone(log, Cursor(block, 0), v.cursor);
          passes := RunIsPasses(f, log, floor, w, ops[1..], at);
      }
    }
  }

  lemma RankOfPoll<T, B(!new)>(f: (T, Event<B>) -> T, log: seq<Event<B>>, v: View<T>, n: nat, failAt: nat)
    requires Sorted(log)
    ensures Rank(log, v.cursor) <= Rank(log, PollView(f, log, v, n, failAt).cursor)
  {
    hide After, Take, Rank, Sorted;
    BatchIsStretch(log, v.cursor, n);
  }
}
