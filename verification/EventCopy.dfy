/**
 Event-copy tables (deposit-lifecycle and its siblings): one row per event, kept
 under the event's id, inserted once and never updated.
 */
module EventCopy {
  import opened EventLog
  import opened Replay

  datatype Deposit = Deposit(attester: nat, withdrawer: nat, rollup: nat, amount: nat, transaction: nat, timestamp: nat)

  type Table<B> = map<nat, Event<B>>

  /** Upsert whose update branch is empty: the first writer of an id wins. */
  function CopyRow<B(!new)>(t: Table<B>, e: Event<B>): Table<B> {
    if e.id in t then t else t[e.id := e]
  }

  /** Delete the rows of later blocks. */
  function CutAfter<B(!new)>(t: Table<B>, block: int): Table<B> {
    map id | id in t && t[id].key.block <= block :: t[id]
  }

  function CountRows<B(!new)>(t: Table<B>): nat {
    |t|
  }

  method NewDepositLifecycle() returns (m: Materializer<Deposit, Table<Deposit>>)
    ensures m.apply == CopyRow<Deposit> && m.cut == CutAfter<Deposit> && m.countRows == CountRows<Deposit>
      && m.batchSize == 10000
    ensures forall t: Table<Deposit>, block :: m.cut(t, block) == map id | id in t && t[id].key.block <= block :: t[id]
    ensures forall t: Table<Deposit> :: m.countRows(t) == |t|
    ensures fresh(m) && m.State() == View(map[], ORIGIN)
  {
    m := new Materializer<Deposit, Table<Deposit>>(CopyRow<Deposit>, CutAfter<Deposit>, CountRows<Deposit>, map[]);
  }

  /** The table holds the given rows, each under its own id, and nothing else. */
  ghost predicate IsCopyOf<B(!new)>(t: Table<B>, rows: seq<Event<B>>) {
    && (forall e :: e in rows ==> e.id in t && t[e.id] == e)
    && (forall id :: id in t ==> t[id] in rows && t[id].id == id)
  }

  /** Rows come from the log past row number floor, and all rows between floor and i are there. */
  ghost predicate Copied<B(!new)>(log: seq<Event<B>>, floor: nat, t: Table<B>, i: nat)
    requires floor <= |log|
  {
    && (forall id :: id in t ==> t[id] in log[floor..] && t[id].id == id)
    && (forall k :: floor <= k < i && k < |log| ==> log[k].id in t && t[log[k].id] == log[k])
  }

  ghost function CopyInvariant<B(!new)>(log: seq<Event<B>>, floor: nat): (Table<B>, nat) -> bool
    requires floor <= |log|
  {
    (t, i) => Copied(log, floor, t, i)
  }

  /** A table that polls, failed polls and rewinds can have produced. */
  ghost predicate Materialized<B(!new)>(log: seq<Event<B>>, v: View<Table<B>>) {
    && Rank(log, ORIGIN) <= Rank(log, v.cursor)
    && Copied(log, Rank(log, ORIGIN), v.table, Rank(log, v.cursor))
  }

  lemma CopiedReplayable<B(!new)>(log: seq<Event<B>>, floor: nat)
    requires UniqueIds(log) && floor <= |log|
    ensures Replayable(CopyRow<B>, log, floor, CopyInvariant(log, floor))
  {
    var J := CopyInvariant(log, floor);
    forall t, i | floor <= i < |log| && J(t, i) ensures J(CopyRow(t, log[i]), i + 1) {
      assert log[i] == log[floor..][i - floor];
      if log[i].id in t {
        var k :| 0 <= k < |log[floor..]| && log[floor..][k] == t[log[i].id];
        assert log[floor + k].id == log[i].id;
      }
    }
  }

  /** Any run over one chain keeps the table materialized up to its cursor. */
  lemma RunMaterializes<B(!new)>(log: seq<Event<B>>, v: View<Table<B>>, ops: seq<Op>)
    requires Sorted(log) && UniqueIds(log) && Materialized(log, v)
    requires Backward(CopyRow<B>, log, v, ops, Rank(log, ORIGIN))
    ensures Materialized(log, Run(CopyRow<B>, log, v, ops))
  {
    CopiedReplayable(log, Rank(log, ORIGIN));
    RunKeeps(CopyRow<B>, log, Rank(log, ORIGIN), CopyInvariant(log, Rank(log, ORIGIN)), v, ops);
  }

  /** An idle materialized table is exactly the log's rows past the origin: none lost, none extra. */
  lemma {:induction false} IdleIsExact<B(!new)>(log: seq<Event<B>>, v: View<Table<B>>)
    requires Sorted(log) && Materialized(log, v) && Idle(log, v)
    ensures IsCopyOf(v.table, After(log, ORIGIN))
  {
    hide After, Rank, Sorted;
    var floor, rest := Rank(log, ORIGIN), After(log, ORIGIN);
    RankSplits(log, ORIGIN);
    RankSplits(log, v.cursor);
    assert rest == log[floor..] && Rank(log, v.cursor) == |log|;
    forall e | e in rest ensures e.id in v.table && v.table[e.id] == e {
      var k :| 0 <= k < |rest| && rest[k] == e;
      assert log[floor + k] == e;
    }
  }

  ghost function Ids<B(!new)>(rows: seq<Event<B>>): set<nat> {
    set e | e in rows :: e.id
  }

  lemma {:induction false} IdCount<B(!new)>(rows: seq<Event<B>>)
    requires UniqueIds(rows)
    ensures |Ids(rows)| == |rows|
  {
    if rows != [] {
      var k := |rows| - 1;
      var before, last := rows[..k], rows[k];
      assert rows == before + [last];
      IdCount(before);
      assert last.id !in Ids(before) by {
        forall e | e in before ensures e.id != last.id {
          var i :| 0 <= i < k && before[i] == e;
          assert rows[i].id != rows[k].id;
        }
      }
      assert Ids(rows) == Ids(before) + {last.id};
    }
  }

  /** So the count that an idle materializer reports is the number of the log's rows past the origin. */
  lemma {:induction false} CountIsExact<B(!new)>(t: Table<B>, rows: seq<Event<B>>)
    requires UniqueIds(rows) && IsCopyOf(t, rows)
    ensures CountRows(t) == |rows|
  {
    IdCount(rows);
    assert t.Keys == Ids(rows);
  }

  // ---- reorg recovery ----

  /** Two chains carry the same events up to and including a block. */
  ghost predicate AgreeUpTo<B(!new)>(old_: seq<Event<B>>, new_: seq<Event<B>>, block: int) {
    forall e: Event<B> :: e.key.block <= block ==> (e in old_ <==> e in new_)
  }

  /** Every event between the origin and a position has its row. */
  ghost predicate NothingBehind<B(!new)>(log: seq<Event<B>>, t: Table<B>, c: Cursor) {
    forall e :: e in log && ORIGIN.Before(e.key) && !c.Before(e.key) ==> e.id in t && t[e.id] == e
  }

  ghost predicate NothingPending<B(!new)>(log: seq<Event<B>>, t: Table<B>, block: int) {
    NothingBehind(log, t, Cursor(block, 0))
  }

  /** Every row is the log's own, past the origin. */
  ghost predicate AllSound<B(!new)>(log: seq<Event<B>>, t: Table<B>) {
    forall id :: id in t ==> t[id] in log && t[id].id == id && ORIGIN.Before(t[id].key)
  }

  /** The rows up to a block are the log's own, past the origin. */
  ghost predicate SoundUpTo<B(!new)>(log: seq<Event<B>>, t: Table<B>, block: int) {
    forall id :: id in t && t[id].key.block <= block ==> t[id] in log && t[id].id == id && ORIGIN.Before(t[id].key)
  }

  /** A reset leaves the rows up to its block, and nothing missing that was not missing before. */
  lemma {:induction false} CutMeans<B(!new)>(log: seq<Event<B>>, t: Table<B>, block: int)
    ensures AllSound(log, CutAfter(t, block)) <==> SoundUpTo(log, t, block)
    ensures NothingBehind(log, CutAfter(t, block), Cursor(block, 0)) <==> NothingPending(log, t, block)
  {
    var cut := CutAfter(t, block);
    assert forall id :: id in cut <==> id in t && t[id].key.block <= block;
    assert forall id :: id in cut ==> cut[id] == t[id];
  }

  function ResetView<B(!new)>(v: View<Table<B>>, block: int): View<Table<B>> {
    View(CutAfter(v.table, block), Cursor(block, 0))
  }

  lemma {:induction false} MaterializedIsSound<B(!new)>(old_: seq<Event<B>>, new_: seq<Event<B>>, block: int,
      v: View<Table<B>>)
    requires Sorted(old_) && AgreeUpTo(old_, new_, block) && Materialized(old_, v)
    ensures SoundUpTo(new_, v.table, block)
  {
    RankSplits(old_, ORIGIN);
    forall id | id in v.table && v.table[id].key.block <= block
      ensures v.table[id] in new_ && v.table[id].id == id && ORIGIN.Before(v.table[id].key)
    {
      assert v.table[id] in After(old_, ORIGIN);
      assert v.table[id] in old_;
    }
  }

  /** Sound rows and nothing missing behind the cursor: that is what runs produce. */
  lemma {:induction false} SoundIsMaterialized<B(!new)>(log: seq<Event<B>>, v: View<Table<B>>)
    requires Sorted(log) && Rank(log, ORIGIN) <= Rank(log, v.cursor)
    requires AllSound(log, v.table) && NothingBehind(log, v.table, v.cursor)
    ensures Materialized(log, v)
  {
    var floor := Rank(log, ORIGIN);
    RankSplits(log, ORIGIN);
    forall id | id in v.table ensures v.table[id] in log[floor..] && v.table[id].id == id {
      assert v.table[id] in After(log, ORIGIN);
    }
    RankSplits(log, v.cursor);
    forall k | floor <= k < Rank(log, v.cursor) ensures log[k].id in v.table && v.table[log[k].id] == log[k] {
      assert log[k] in log;
    }
  }

  /** A row once there stays as it is. */
  lemma {:induction false} RowStays<B(!new)>(log: seq<Event<B>>, v: View<Table<B>>, ops: seq<Op>, id: nat)
    requires Sorted(log) && Backward(CopyRow<B>, log, v, ops, Rank(log, v.cursor)) && id in v.table
    ensures var w := Run(CopyRow<B>, log, v, ops); id in w.table && w.table[id] == v.table[id]
  {
    var floor := Rank(log, v.cursor);
    var J := (t: Table<B>, i: nat) => id in t && t[id] == v.table[id];
    assert Replayable(CopyRow<B>, log, floor, J) by {
      hide Rank;
    }
    RunKeeps(CopyRow<B>, log, floor, J, v, ops);
  }

  /** A row that is missing behind the cursor is never fetched again. */
  lemma {:induction false} BehindIsLost<B(!new)>(log: seq<Event<B>>, v: View<Table<B>>, ops: seq<Op>, e: Event<B>)
    requires Sorted(log) && UniqueIds(log) && e in log && !v.cursor.Before(e.key)
    requires !(e.id in v.table && v.table[e.id] == e)
    requires Backward(CopyRow<B>, log, v, ops, Rank(log, v.cursor))
    ensures var w := Run(CopyRow<B>, log, v, ops); !(e.id in w.table && w.table[e.id] == e)
  {
    var floor := Rank(log, v.cursor);
    var J := (t: Table<B>, i: nat) => !(e.id in t && t[e.id] == e);
    RankSplits(log, v.cursor);
    assert Replayable(CopyRow<B>, log, floor, J) by {
      forall t, i | floor <= i < |log| && J(t, i) ensures J(CopyRow(t, log[i]), i + 1) {
        assert v.cursor.Before(log[i].key);
      }
    }
    RunKeeps(CopyRow<B>, log, floor, J, v, ops);
  }

  /** In particular one that a lagging cursor had not reached when a reset moved it forward. */
  lemma {:induction false} PendingIsLost<B(!new)>(new_: seq<Event<B>>, block: int, v: View<Table<B>>, ops: seq<Op>,
      e: Event<B>)
    requires Sorted(new_) && UniqueIds(new_)
    requires e in new_ && !Cursor(block, 0).Before(e.key)
    requires !(e.id in v.table && v.table[e.id] == e)
    requires Backward(CopyRow<B>, new_, ResetView(v, block), ops, Rank(new_, Cursor(block, 0)))
    ensures var w := Run(CopyRow<B>, new_, ResetView(v, block), ops);
      !(e.id in w.table && w.table[e.id] == e)
  {
    hide Rank, Sorted, UniqueIds, Run, Backward;
    BehindIsLost(new_, ResetView(v, block), ops, e);
  }

  /**
   From any table and cursor, whatever polls, failures and rewinds down to the cursor
   follow, an idle table is exactly the log's events past the origin if and only if at the
   start every row was one of them and none was missing behind the cursor.
   */
  lemma {:induction false} CatchUpExactIff<B(!new)>(log: seq<Event<B>>, v: View<Table<B>>, ops: seq<Op>)
    requires Sorted(log) && UniqueIds(log) && Rank(log, ORIGIN) <= Rank(log, v.cursor)
    requires Backward(CopyRow<B>, log, v, ops, Rank(log, v.cursor)) && Idle(log, Run(CopyRow<B>, log, v, ops))
    ensures IsCopyOf(Run(CopyRow<B>, log, v, ops).table, After(log, ORIGIN))
            <==> AllSound(log, v.table) && NothingBehind(log, v.table, v.cursor)
  {
    hide Rank, Sorted, UniqueIds, Run, Backward, CopyRow, Materialized;
    var w := Run(CopyRow<B>, log, v, ops);
    if AllSound(log, v.table) && NothingBehind(log, v.table, v.cursor) {
      SoundIsMaterialized(log, v);
      BackwardWeaken(CopyRow<B>, log, v, ops, Rank(log, v.cursor), Rank(log, ORIGIN));
      RunMaterializes(log, v, ops);
      IdleIsExact(log, w);
    } else if !AllSound(log, v.table) {
      var id :| id in v.table && !(v.table[id] in log && v.table[id].id == id && ORIGIN.Before(v.table[id].key));
      RowStays(log, v, ops, id);
    } else {
      var e :| e in log && ORIGIN.Before(e.key) && !v.cursor.Before(e.key) && !(e.id in v.table && v.table[e.id] == e);
      BehindIsLost(log, v, ops, e);
      assert e in After(log, ORIGIN);
    }
  }

  lemma {:induction false} ResetThenIdle<B(!new)>(new_: seq<Event<B>>, block: int, v: View<Table<B>>, ops: seq<Op>)
    requires Sorted(new_) && UniqueIds(new_)
    requires Rank(new_, ORIGIN) <= Rank(new_, Cursor(block, 0))
    requires Backward(CopyRow<B>, new_, ResetView(v, block), ops, Rank(new_, Cursor(block, 0)))
    requires Idle(new_, Run(CopyRow<B>, new_, ResetView(v, block), ops))
    ensures IsCopyOf(Run(CopyRow<B>, new_, ResetView(v, block), ops).table, After(new_, ORIGIN))
            <==> SoundUpTo(new_, v.table, block) && NothingPending(new_, v.table, block)
  {
    hide Rank, Sorted, UniqueIds, Run, Backward, Idle, After, IsCopyOf, AllSound, SoundUpTo, NothingBehind, CutAfter;
    CatchUpExactIff(new_, ResetView(v, block), ops);
    CutMeans(new_, v.table, block);
  }

  /**
   Recovery from a reorg is exact if and only if nothing was pending at or below
   (block, 0) when the reset happened: whatever polls, failures and rewinds follow,
   an idle table then is exactly the new chain's events past the origin.
   */
  lemma {:induction false} RecoveryExact<B(!new)>(old_: seq<Event<B>>, new_: seq<Event<B>>, block: int,
      v: View<Table<B>>, ops: seq<Op>)
    requires Sorted(old_) && Sorted(new_) && UniqueIds(new_) && AgreeUpTo(old_, new_, block)
    requires Materialized(old_, v)
    requires Rank(new_, ORIGIN) <= Rank(new_, Cursor(block, 0))
    requires Backward(CopyRow<B>, new_, ResetView(v, block), ops, Rank(new_, Cursor(block, 0)))
    requires Idle(new_, Run(CopyRow<B>, new_, ResetView(v, block), ops))
    ensures IsCopyOf(Run(CopyRow<B>, new_, ResetView(v, block), ops).table, After(new_, ORIGIN))
            <==> NothingPending(new_, v.table, block)
  {
    MaterializedIsSound(old_, new_, block, v);
    ResetThenIdle(new_, block, v, ops);
  }

  /**
   After a re-index, which adds events below the cursor and takes none away, the cursor
   goes back and the rows stay: again exact if and only if nothing is pending at or below
   (block, 0), the added events included.
   */
  lemma {:induction false} ReindexExact<B(!new)>(old_: seq<Event<B>>, new_: seq<Event<B>>, block: int,
      v: View<Table<B>>, ops: seq<Op>)
    requires Sorted(old_) && Sorted(new_) && UniqueIds(new_) && Materialized(old_, v)
    requires forall e :: e in old_ ==> e in new_
    requires Rank(new_, ORIGIN) <= Rank(new_, Cursor(block, 0))
    requires Backward(CopyRow<B>, new_, View(v.table, Cursor(block, 0)), ops, Rank(new_, Cursor(block, 0)))
    requires Idle(new_, Run(CopyRow<B>, new_, View(v.table, Cursor(block, 0)), ops))
    ensures IsCopyOf(Run(CopyRow<B>, new_, View(v.table, Cursor(block, 0)), ops).table, After(new_, ORIGIN))
            <==> NothingPending(new_, v.table, block)
  {
    hide Rank, Sorted, UniqueIds, Run, Backward, Idle, After, IsCopyOf;
    assert AllSound(new_, v.table) by { MaterializedRows(old_, v); }
    CatchUpExactIff(new_, View(v.table, Cursor(block, 0)), ops);
  }

  lemma {:induction false} MaterializedRows<B(!new)>(log: seq<Event<B>>, v: View<Table<B>>)
    requires Sorted(log) && Materialized(log, v)
    ensures AllSound(log, v.table)
  {
    RankSplits(log, ORIGIN);
    forall id | id in v.table ensures v.table[id] in log && v.table[id].id == id && ORIGIN.Before(v.table[id].key) {
      assert v.table[id] in After(log, ORIGIN);
    }
  }

  /** A cursor at or past (block, 0) has left nothing pending there. */
  lemma CursorPastReset<B(!new)>(old_: seq<Event<B>>, new_: seq<Event<B>>, block: int, v: View<Table<B>>)
    requires Sorted(old_) && AgreeUpTo(old_, new_, block) && Materialized(old_, v)
    requires !v.cursor.Before(Cursor(block, 0))
    ensures NothingPending(new_, v.table, block)
  {
    RankSplits(old_, ORIGIN);
    RankSplits(old_, v.cursor);
    forall e | e in new_ && ORIGIN.Before(e.key) && !Cursor(block, 0).Before(e.key)
      ensures e.id in v.table && v.table[e.id] == e
    {
      assert e in old_;
      var k :| 0 <= k < |old_| && old_[k] == e;
      assert !v.cursor.Before(e.key);
    }
  }
}
