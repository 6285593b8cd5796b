/**
 The table of canonical-rollup updates.  It is copied like any event table, and while
 its stream is idle the rows missing behind the cursor are restored.
 */
module CanonicalUpdates {
  import opened EventLog
  import opened EventCopy
  import opened Replay
  import V = ValidatorRollup

  datatype Update = Update(instance: nat, version: nat, transaction: nat, timestamp: nat)

  type Row = Event<Update>
  type Rows = Table<Update>

  const RECONCILE_INTERVAL_MS: int := 60000

  /** Upsert by id; on a taken id the log index and the transaction stay as they are. */
  function ApplyUpdate(t: Rows, row: Row): Rows {
    if row.id in t then
      t[row.id := Event(Cursor(row.key.block, t[row.id].key.log), row.id,
        row.body.(transaction := t[row.id].body.transaction))]
    else t[row.id := row]
  }

  /** The rows of the log whose id the table does not have. */
  function Missing(t: Rows, log: seq<Row>): seq<Row> {
    if log == [] then []
    else
      var last := log[|log| - 1];
      Missing(t, log[..|log| - 1]) + if last.id in t then [] else [last]
  }

  function Reconciled(t: Rows, log: seq<Row>): Rows {
    Fold(ApplyUpdate, t, Missing(t, log))
  }

  /** The updates as the backfill reads them. */
  function UpdatesIn(t: Rows): set<V.Update> {
    set id | id in t :: V.Update(id, t[id].body.instance, t[id].key.block, t[id].body.transaction)
  }

  class CanonicalTable {
    var rows: Rows
    var lastReconcileMs: int

    constructor ()
      ensures rows == map[] && lastReconcileMs == 0
    {
      rows, lastReconcileMs := map[], 0;
    }

    method UpsertRows(batch: seq<Row>)
      modifies this`rows
      ensures rows == Fold(ApplyUpdate, old(rows), batch)
    {
      for i := 0 to |batch|
        invariant rows == Fold(ApplyUpdate, old(rows), batch[..i])
      {
        FoldNext(ApplyUpdate, old(rows), batch, i);
        var row := batch[i];
        if row.id in rows {
          var there := rows[row.id];
          rows := rows[row.id := Event(Cursor(row.key.block, there.key.log), row.id,
            row.body.(transaction := there.body.transaction))];
        } else {
          rows := rows[row.id := row];
        }
      }
      assert batch[..|batch|] == batch;
    }

    /** A batch: its rows, then the backfill of implied migrations and the status refresh over what is there now. */
    method MaterializeBatch(batch: seq<Row>, pairs: V.ValidatorRollupTable, withdrawn: set<V.Pair>, life: V.Lifecycle)
      modifies this`rows, pairs`rows
      ensures rows == Fold(ApplyUpdate, old(rows), batch)
      ensures V.AfterSync(old(pairs.rows), pairs.rows, UpdatesIn(rows), withdrawn, life)
    {
      UpsertRows(batch);
      var _ := pairs.Sync(UpdatesIn(rows), withdrawn, life);
    }

    /**
     At most once a minute, compare the whole table with the source and restore what is
     missing, as a batch of its own.
     */
    method OnIdle(now: int, log: seq<Row>, pairs: V.ValidatorRollupTable, withdrawn: set<V.Pair>, life: V.Lifecycle)
      modifies this, pairs`rows
      ensures var due := now - old(lastReconcileMs) >= 60000;
        && rows == (if due then Reconciled(old(rows), log) else old(rows))
        && lastReconcileMs == (if due then now else old(lastReconcileMs))
        && if due && Missing(old(rows), log) != []
          then V.AfterSync(old(pairs.rows), pairs.rows, UpdatesIn(rows), withdrawn, life)
           else pairs.rows == old(pairs.rows)
    {
      if now - lastReconcileMs < RECONCILE_INTERVAL_MS {
        return;
      }
      lastReconcileMs := now;
      var missing := Missing(rows, log);
      if |missing| == 0 {
        return;
      }
      MaterializeBatch(missing, pairs, withdrawn, life);
    }
  }

  /** Row i of a batch is the first with its id. */
  ghost predicate First(batch: seq<Row>, i: int) {
    0 <= i < |batch| && forall j :: 0 <= j < i ==> batch[j].id != batch[i].id
  }

  ghost predicate Last(batch: seq<Row>, i: int) {
    0 <= i < |batch| && forall j :: i < j < |batch| ==> batch[j].id != batch[i].id
  }

  /**
   What a row delivered any number of times holds: the log index and the transaction of its first
   delivery, and the block, instance, version and timestamp of its last.
   */
  lemma {:induction false} FirstAndLast(t: Rows, batch: seq<Row>, i: int, j: int)
    requires First(batch, i) && Last(batch, j) && batch[i].id == batch[j].id && batch[i].id !in t
    ensures var after := Fold(ApplyUpdate, t, batch);
      && batch[i].id in after && after[batch[i].id].id == batch[i].id
      && after[batch[i].id].key == Cursor(batch[j].key.block, batch[i].key.log)
      && after[batch[i].id].body.transaction == batch[i].body.transaction
      && after[batch[i].id].body.instance == batch[j].body.instance
      && after[batch[i].id].body.version == batch[j].body.version
      && after[batch[i].id].body.timestamp == batch[j].body.timestamp
  {
    var k := |batch| - 1;
    var before, id := batch[..k], batch[i].id;
    assert batch[..k + 1] == batch;
    FoldNext(ApplyUpdate, t, batch, k);
    if j == k {
      if i == k {
        Undelivered(t, before, id);
      } else {
        var m := LastOf(before, i);
        FirstAndLast(t, before, i, m);
      }
    } else {
      assert First(before, i) && Last(before, j);
      FirstAndLast(t, before, i, j);
    }
  }

  lemma {:induction false} LastOf(batch: seq<Row>, i: nat) returns (m: nat)
    requires i < |batch|
    ensures i <= m && Last(batch, m) && batch[m].id == batch[i].id
    decreases |batch| - i
  {
    m := i;
    if !Last(batch, i) {
      var j :| i < j < |batch| && batch[j].id == batch[i].id;
      m := LastOf(batch, j);
    }
  }

  lemma {:induction false} Undelivered(t: Rows, batch: seq<Row>, id: nat)
    requires id !in t && forall row :: row in batch ==> row.id != id
    ensures id !in Fold(ApplyUpdate, t, batch)
  {
    if batch != [] {
      var k := |batch| - 1;
      FoldNext(ApplyUpdate, t, batch, k);
      assert batch[..k + 1] == batch;
      Undelivered(t, batch[..k], id);
    }
  }

  /** The backfill reads each stored row's instance, block and transaction, and nothing else. */
  lemma {:induction false} UpdatesAreRows(t: Rows, u: V.Update)
    ensures u in UpdatesIn(t) <==>
      && u.id in t && u.instance == t[u.id].body.instance && u.block == t[u.id].key.block
      && u.transaction == t[u.id].body.transaction
  {
  }

  lemma {:induction false} MissingRows(t: Rows, log: seq<Row>)
    requires UniqueIds(log)
    ensures UniqueIds(Missing(t, log))
    ensures forall row :: row in Missing(t, log) <==> row in log && row.id !in t
  {
    if log != [] {
      var before, last := log[..|log| - 1], log[|log| - 1];
      MissingRows(t, before);
      assert log == before + [last];
      forall row | row in before ensures row.id != last.id {
        var i :| 0 <= i < |before| && before[i] == row;
        assert log[i] == row;
      }
      var missing := Missing(t, before);
      assert forall i :: 0 <= i < |missing| ==> missing[i] in missing;
    }
  }

  /** Inserting rows with new, distinct ids adds exactly those rows. */
  lemma {:induction false} InsertAll(t: Rows, batch: seq<Row>)
    requires UniqueIds(batch) && forall row :: row in batch ==> row.id !in t
    ensures var after := Fold(ApplyUpdate, t, batch);
      && (forall id :: id in t ==> id in after && after[id] == t[id])
      && (forall row :: row in batch ==> row.id in after && after[row.id] == row)
      && (forall id :: id in after ==> id in t || (after[id] in batch && after[id].id == id))
    decreases |batch|
  {
    if batch != [] {
      var first, rest := batch[0], batch[1..];
      assert batch == [first] + rest;
      assert forall i :: 0 <= i < |rest| ==> rest[i] == batch[i + 1];
      forall row | row in rest ensures row.id !in ApplyUpdate(t, first) {
        var i :| 0 <= i < |rest| && rest[i] == row;
        assert batch[0].id != batch[i + 1].id;
      }
      InsertAll(ApplyUpdate(t, first), rest);
    }
  }

  /** Every row is a row of the log, under its own id. */
  ghost predicate FromLog(t: Rows, log: seq<Row>) {
    forall id :: id in t ==> t[id] in log && t[id].id == id
  }

  /**
   A reconcile makes the table an exact copy of the source if and only if no row of the
   table was foreign to it: what is missing is restored wherever it lies relative to
   the cursor, but nothing is ever removed or corrected.
   */
  lemma ReconcileExactIff(t: Rows, log: seq<Row>)
    requires UniqueIds(log)
    ensures IsCopyOf(Reconciled(t, log), log) <==> FromLog(t, log)
  {
    MissingRows(t, log);
    InsertAll(t, Missing(t, log));
    var after := Reconciled(t, log);
    hide Reconciled, Missing, Fold;
    if FromLog(t, log) {
      forall row | row in log ensures row.id in after && after[row.id] == row {
        if row.id in t {
          var i :| 0 <= i < |log| && log[i] == row;
          var j :| 0 <= j < |log| && log[j] == t[row.id];
          assert log[i].id == log[j].id;
        }
      }
    }
  }

  lemma {:induction false} PollsStayFromLog(log: seq<Row>, floor: nat, v: View<Rows>, ops: seq<Op>)
    requires Sorted(log) && UniqueIds(log) && floor <= Rank(log, v.cursor) && FromLog(v.table, log)
    requires Backward(ApplyUpdate, log, v, ops, floor)
    ensures FromLog(Run(ApplyUpdate, log, v, ops).table, log)
  {
    var J := FromLogInvariant(log);
    assert Replayable(ApplyUpdate, log, floor, J) by {
      forall t, i | floor <= i < |log| && J(t, i) ensures J(ApplyUpdate(t, log[i]), i + 1) {
        UpdateStaysFromLog(t, log, i);
      }
    }
    RunKeeps(ApplyUpdate, log, floor, J, v, ops);
  }

  ghost function FromLogInvariant(log: seq<Row>): (Rows, nat) -> bool {
    (t: Rows, i: nat) => FromLog(t, log)
  }

  lemma UpdateStaysFromLog(t: Rows, log: seq<Row>, i: nat)
    requires UniqueIds(log) && i < |log| && FromLog(t, log)
    ensures FromLog(ApplyUpdate(t, log[i]), log)
  {
    if log[i].id in t {
      var j :| 0 <= j < |log| && log[j] == t[log[i].id];
      assert log[i].id == log[j].id;
    }
  }

  /**
   So the one table that is reconciled recovers from every reorg, even when the reset
   lost rows: after the reset and any polls, failures and rewinds on the new chain, one
   reconcile leaves exactly the new chain's updates.
   */
  lemma ReconcileHeals(old_: seq<Row>, new_: seq<Row>, block: int, v: View<Rows>, ops: seq<Op>)
    requires Sorted(new_) && UniqueIds(new_) && AgreeUpTo(old_, new_, block) && FromLog(v.table, old_)
    requires Backward(ApplyUpdate, new_, ResetView(v, block), ops, Rank(new_, Cursor(block, 0)))
    ensures IsCopyOf(Reconciled(Run(ApplyUpdate, new_, ResetView(v, block), ops).table, new_), new_)
  {
    assert FromLog(ResetView(v, block).table, new_);
    PollsStayFromLog(new_, Rank(new_, Cursor(block, 0)), ResetView(v, block), ops);
    ReconcileExactIff(Run(ApplyUpdate, new_, ResetView(v, block), ops).table, new_);
  }
}
