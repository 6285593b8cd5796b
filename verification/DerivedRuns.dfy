/**
 At-least-once delivery from tables that are still being filled: polls of a derived
 materializer that see only part of the rows, fail at any row or are rewound.
 */
module DerivedRuns {
  import opened EventLog
  import Replay
  import opened DerivedTables
  import ProviderList
  import ValidatorQueue
  import QueueMerge
  import QueueRecovery

  /** A poll with what it finds and its point of failure, or a rewind that keeps the rows. */
  datatype Move = Read(fetch: Fetch, failAt: nat) | Back(block: int)

  function Make<T, B>(f: (T, Event<B>) -> T, log: seq<Event<B>>, v: Replay.View<T>, move: Move): Replay.View<T> {
    match move
    case Read(fetch, failAt) => Replay.BatchView(f, v,
      RowsAt(log, Batch(log, fetch.present, v.cursor, fetch.batchSize, 0)), failAt)
    case Back(block) => v.(cursor := Cursor(block, 0))
  }

  function MakeAll<T, B>(f: (T, Event<B>) -> T, log: seq<Event<B>>, v: Replay.View<T>, moves: seq<Move>): Replay.View<T>
    decreases |moves|
  {
    if moves == [] then v else MakeAll(f, log, Make(f, log, v, moves[0]), moves[1..])
  }

  /** Every fetch is covered, and every rewind goes back, but not behind row number floor. */
  ghost predicate Delivering<T, B(!new)>(f: (T, Event<B>) -> T, log: seq<Event<B>>, v: Replay.View<T>,
      moves: seq<Move>, floor: nat)
    decreases |moves|
  {
    moves != [] ==>
    && (match moves[0]
        case Read(fetch, _) => Covered(log, v.cursor, fetch)
        case Back(block) => !v.cursor.Before(Cursor(block, 0)) && floor <= Rank(log, Cursor(block, 0)))
    && Delivering(f, log, Make(f, log, v, moves[0]), moves[1..], floor)
  }

  lemma LastOfRows<B>(log: seq<Event<B>>, batch: seq<nat>)
    requires batch != [] && forall k :: k in batch ==> k < |log|
    ensures |RowsAt(log, batch)| == |batch| && RowsAt(log, batch)[|batch| - 1].key == LastKey(log, batch)
  {
  }

  /** A covered read, failing or not, is a pass over the rows it applied. */
  lemma ReadIsPass<T, B(!new)>(f: (T, Event<B>) -> T, log: seq<Event<B>>, v: Replay.View<T>, fetch: Fetch, failAt: nat)
    returns (s: Replay.Stretch)
    requires Ordered(log) && Covered(log, v.cursor, fetch)
    ensures s.from == Rank(log, v.cursor) && s.from <= s.upTo <= |log|
    ensures var w := Make(f, log, v, Read(fetch, failAt));
      w.table == Fold(f, v.table, Replay.RowsIn(log, s)) && s.from <= Rank(log, w.cursor) <= s.upTo
  {
    hide Covered, Ordered, Batch, Rank, Range, Fold, RowsAt, LastKey;
    var batch, lo := Batch(log, fetch.present, v.cursor, fetch.batchSize, 0), Rank(log, v.cursor);
    if batch == [] {
      s := Replay.Stretch(lo, lo);
      NoRows(f, log, v.table, lo);
      NoneRead(f, log, v, fetch, failAt);
    } else {
      CoveredBatch(log, v.cursor, fetch);
      LastOfRows(log, batch);
      var hi := Rank(log, LastKey(log, batch));
      RowsOfRange(log, lo, hi);
      var j := if failAt < hi - lo then failAt else hi - lo;
      s := Replay.Stretch(lo, lo + j);
      assert log[lo..hi][..j] == log[lo..lo + j];
      assert log[lo..hi][..hi - lo] == log[lo..hi];
    }
  }

  lemma NoRows<T, B>(f: (T, Event<B>) -> T, log: seq<Event<B>>, t: T, i: nat)
    requires i <= |log|
    ensures Fold(f, t, log[i..i]) == t
  {
  }

  lemma NoneRead<T, B>(f: (T, Event<B>) -> T, log: seq<Event<B>>, v: Replay.View<T>, fetch: Fetch, failAt: nat)
    requires Batch(log, fetch.present, v.cursor, fetch.batchSize, 0) == []
    ensures Make(f, log, v, Read(fetch, failAt)) == v
  {
  }

  /**
   Whatever the sources hold at each fetch, the batch sizes, the failures and the rewinds:
   if every fetch is covered, the run is a chain of passes over the log of all rows.
   */
  lemma {:induction false} MovesArePasses<T, B(!new)>(f: (T, Event<B>) -> T, log: seq<Event<B>>, floor: nat,
      v: Replay.View<T>,
                                                     moves: seq<Move>, at: nat)
    returns (passes: seq<Replay.Stretch>)
    requires Ordered(log) && Delivering(f, log, v, moves, floor) && floor <= Rank(log, v.cursor) <= at <= |log|
    ensures Replay.Chained(floor, |log|, at, passes)
      && Replay.RunPasses(f, log, v.table, passes) == MakeAll(f, log, v, moves).table
    ensures Rank(log, MakeAll(f, log, v, moves).cursor) <= Replay.Reached(at, passes) <= |log|
    decreases |moves|
  {
    hide Covered, Ordered, Batch, Rank, Fold, RowsAt;
    if moves == [] {
      passes := [];
    } else {
      var w := Make(f, log, v, moves[0]);
      match moves[0] {
        case Read(fetch, failAt) =>
          var s := ReadIsPass(f, log, v, fetch, failAt);
          var rest := MovesArePasses(f, log, floor, w, moves[1..], s.upTo);
          passes := [s] + rest;
          assert passes[1..] == rest;
        case Back(block) =>
          CursorMonotone(log, Cursor(block, 0), v.cursor);
          passes := MovesArePasses(f, log, floor, w, moves[1..], at);
      }
    }
  }

  /** Every covered run of the provider list that has passed all rows ends in the list of a single pass. */
  lemma {:induction false} ListDelivered(log: seq<ProviderList.Row>, moves: seq<Move>)
    requires Ordered(log) && Rank(log, ORIGIN) == 0
    requires Delivering(ProviderList.ApplyList, log, Replay.View(map[], ORIGIN), moves, 0)
    requires Rank(log, MakeAll(ProviderList.ApplyList, log, Replay.View(map[], ORIGIN), moves).cursor) == |log|
    ensures MakeAll(ProviderList.ApplyList, log, Replay.View(map[], ORIGIN), moves).table == ProviderList.OnePass(log)
  {
    hide MakeAll, Delivering, Rank, Ordered;
    var passes := MovesArePasses(ProviderList.ApplyList, log, 0, Replay.View(map[], ORIGIN), moves, 0);
    ProviderList.ListConverges(log, passes);
  }

  // ---- the queue ----

  ghost predicate EveryDeliveryExact(log: QueueMerge.Log) {
    forall moves ::
      && Delivering(ValidatorQueue.ApplyQueue, log, Replay.View(map[], ORIGIN), moves, 0)
      && Rank(log, MakeAll(ValidatorQueue.ApplyQueue, log, Replay.View(map[], ORIGIN), moves).cursor) == |log|
      ==>
        MakeAll(ValidatorQueue.ApplyQueue, log, Replay.View(map[], ORIGIN), moves).table
        == ValidatorQueue.Replayed(log)
  }

  lemma {:induction false} SafeDeliveries(log: QueueMerge.Log, moves: seq<Move>)
    requires Sorted(log) && UniqueIds(log) && ValidatorQueue.Timely(log) && Rank(log, ORIGIN) == 0
    requires forall p :: QueueRecovery.LastAlone(log, 0, map[], p)
    requires Delivering(ValidatorQueue.ApplyQueue, log, Replay.View(map[], ORIGIN), moves, 0)
    requires Rank(log, MakeAll(ValidatorQueue.ApplyQueue, log, Replay.View(map[], ORIGIN), moves).cursor) == |log|
    ensures MakeAll(ValidatorQueue.ApplyQueue, log, Replay.View(map[], ORIGIN), moves).table
      == ValidatorQueue.Replayed(log)
  {
    SortedIsOrdered(log);
    hide MakeAll, Delivering, Rank, Ordered, Sorted, UniqueIds, ValidatorQueue.Timely, QueueRecovery.LastAlone, Fold;
    var passes := MovesArePasses(ValidatorQueue.ApplyQueue, log, 0, Replay.View(map[], ORIGIN), moves, 0);
    assert QueueMerge.Behind(map[], log, 0) == map[];
    QueueRecovery.PassesDeliver(log, 0, map[], passes);
    assert log[0..] == log;
  }

  // ---- runs of the engine are among them ----

  function AsMove(n: nat, op: Replay.Op): Move {
    match op
    case Poll(size, failAt) => Read(Fetch(AllRows(n), size), failAt)
    case Rewind(block) => Back(block)
  }

  function AsMoves(n: nat, ops: seq<Replay.Op>): seq<Move> {
    if ops == [] then [] else [AsMove(n, ops[0])] + AsMoves(n, ops[1..])
  }

  lemma {:induction false} AllThere<B>(log: seq<Event<B>>, i: nat)
    requires i <= |log|
    ensures There(log, AllRows(|log|), i) == log[i..]
    decreases |log| - i
  {
    if i < |log| {
      AllThere(log, i + 1);
    }
  }

  lemma WholeCovered<B(!new)>(log: seq<Event<B>>, c: Cursor, n: nat)
    requires Sorted(log)
    ensures Covered(log, c, Fetch(AllRows(|log|), n))
  {
    var batch := Batch(log, AllRows(|log|), c, n, 0);
    if batch != [] {
      var last := batch[|batch| - 1];
      assert last in batch;
      forall k | 0 <= k < |log| && log[k].key == log[last].key ensures k in batch {
        assert k == last;
      }
    }
  }

  lemma MakeIsStep<T, B(!new)>(f: (T, Event<B>) -> T, log: seq<Event<B>>, v: Replay.View<T>, op: Replay.Op)
    ensures Make(f, log, v, AsMove(|log|, op)) == Replay.Step(f, log, v, op)
  {
    if op.Poll? {
      AllThere(log, 0);
      BatchIsThere(log, AllRows(|log|), v.cursor, op.batchSize, 0);
      assert log[0..] == log;
    }
  }

  lemma {:induction false} RunsAreDeliveries<T, B(!new)>(f: (T, Event<B>) -> T, log: seq<Event<B>>, v: Replay.View<T>,
      ops: seq<Replay.Op>)
    requires Sorted(log) && Replay.Backward(f, log, v, ops, 0)
    ensures MakeAll(f, log, v, AsMoves(|log|, ops)) == Replay.Run(f, log, v, ops)
    ensures Delivering(f, log, v, AsMoves(|log|, ops), 0)
    decreases |ops|
  {
    hide Make, Replay.Step, Covered, Sorted, Rank;
    if ops != [] {
      MakeIsStep(f, log, v, ops[0]);
      if ops[0].Poll? {
        WholeCovered(log, v.cursor, ops[0].batchSize);
      }
      RunsAreDeliveries(f, log, Replay.Step(f, log, v, ops[0]), ops[1..]);
      assert AsMoves(|log|, ops)[1..] == AsMoves(|log|, ops[1..]);
    }
  }

  lemma ExactDeliveriesAreRuns(log: QueueMerge.Log)
    requires Sorted(log) && Rank(log, ORIGIN) == 0 && EveryDeliveryExact(log)
    ensures QueueRecovery.EveryRunExact(log, Replay.View(map[], ORIGIN))
  {
    var v := Replay.View(map[], ORIGIN);
    forall ops | Replay.Backward(ValidatorQueue.ApplyQueue, log, v, ops, 0)
      && Replay.Idle(log, Replay.Run(ValidatorQueue.ApplyQueue, log, v, ops))
      ensures Replay.Run(ValidatorQueue.ApplyQueue, log, v, ops).table == ValidatorQueue.Replayed(log)
    {
      RunsAreDeliveries(ValidatorQueue.ApplyQueue, log, v, ops);
      }
  }

  /**
   The queue as it really runs, read from four tables other materializers are filling:
   every covered run that has passed all rows, with failures and rewinds anywhere, ends in
   the queue of a single pass if and only if every pair's last remove finds at most one
   entry.
   */
  lemma QueueDeliveredIff(log: QueueMerge.Log)
    requires Sorted(log) && UniqueIds(log) && ValidatorQueue.Timely(log) && Rank(log, ORIGIN) == 0
    ensures EveryDeliveryExact(log) <==> forall p :: QueueRecovery.LastAlone(log, 0, map[], p)
  {
    hide Sorted, UniqueIds, ValidatorQueue.Timely, QueueRecovery.LastAlone, Delivering, MakeAll, Rank,
      ValidatorQueue.Replayed;
    QueueRecovery.DeliveryIff(log);
    if EveryDeliveryExact(log) {
      ExactDeliveriesAreRuns(log);
    }
    if forall p :: QueueRecovery.LastAlone(log, 0, map[], p) {
      forall moves |
        && Delivering(ValidatorQueue.ApplyQueue, log, Replay.View(map[], ORIGIN), moves, 0)
        && Rank(log, MakeAll(ValidatorQueue.ApplyQueue, log, Replay.View(map[], ORIGIN), moves).cursor) == |log|
        ensures MakeAll(ValidatorQueue.ApplyQueue, log, Replay.View(map[], ORIGIN), moves).table
          == ValidatorQueue.Replayed(log)
      {
        SafeDeliveries(log, moves);
      }
    }
  }
}
