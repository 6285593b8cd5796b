/**
 The attesters added to providers.  One event carries a list of attesters and becomes
 one table row for each, all with the event's key.
 */
module ProviderAttesters {
  import opened Wrappers
  import opened EventLog
  import Replay

  /** None stands for an attester list that does not parse. */
  datatype Announcement = Announcement(provider: nat, attesters: Option<seq<nat>>, transaction: nat)

  type Source = Event<Announcement>

  /** One attester of one event; the event's key is kept by Event. */
  datatype Added = Added(provider: nat, attester: nat, transaction: nat)

  type Row = Event<Added>

  datatype RowKey = RowKey(transaction: nat, log: int, provider: nat, attester: nat)

  /** The stored row: the block of its event. */
  type Rows = map<RowKey, int>

  function KeyOf(row: Row): RowKey {
    RowKey(row.body.transaction, row.key.log, row.body.provider, row.body.attester)
  }

  /** The rows of one event; an event that does not parse is skipped. */
  function Exploded(e: Source): seq<Row> {
    match e.body.attesters
    case None => []
    case Some(list) =>
      seq(|list|, i requires 0 <= i < |list| => Event(e.key, e.id, Added(e.body.provider, list[i], e.body.transaction)))
  }

  function ExplodedAll(log: seq<Source>): seq<Row> {
    if log == [] then [] else ExplodedAll(log[..|log| - 1]) + Exploded(log[|log| - 1])
  }

  /** Upsert; create and update write the same block. */
  function ApplyAdded(t: Rows, row: Row): Rows {
    t[KeyOf(row) := row.key.block]
  }

  function CutAttesters(t: Rows, block: int): Rows {
    map key | key in t && t[key] <= block :: t[key]
  }

  class AttesterTable {
    var rows: Rows

    constructor ()
      ensures rows == map[]
    {
      rows := map[];
    }

    method MaterializeBatch(batch: seq<Source>)
      modifies this
      ensures rows == Fold(ApplyAdded, old(rows), ExplodedAll(batch))
    {
      for i := 0 to |batch|
        invariant rows == Fold(ApplyAdded, old(rows), ExplodedAll(batch[..i]))
      {
        MaterializeEvent(batch[i]);
        FoldAppend(ApplyAdded, old(rows), ExplodedAll(batch[..i]), Exploded(batch[i]));
        assert batch[..i + 1][..i] == batch[..i];
      }
      assert batch[..|batch|] == batch;
    }

    method MaterializeEvent(e: Source)
      modifies this
      ensures rows == Fold(ApplyAdded, old(rows), Exploded(e))
    {
      if e.body.attesters.None? {
        return;
      }
      var attesters := e.body.attesters.value;
      for i := 0 to |attesters|
        invariant rows == Fold(ApplyAdded, old(rows), Exploded(e)[..i])
      {
        FoldNext(ApplyAdded, old(rows), Exploded(e), i);
        rows := rows[RowKey(e.body.transaction, e.key.log, e.body.provider, attesters[i]) := e.key.block];
      }
      assert Exploded(e)[..|attesters|] == Exploded(e);
    }

    method DeleteAfterBlock(block: int)
      modifies this
      ensures rows == CutAttesters(old(rows), block)
      ensures rows == map key | key in old(rows) && old(rows)[key] <= block :: old(rows)[key]
    {
      rows := map k | k in rows && !(rows[k] > block) :: rows[k];
    }
  }

  lemma {:induction false} ExplodedFrom(log: seq<Source>)
    ensures forall row :: row in ExplodedAll(log) ==> exists e :: e in log && row in Exploded(e)
    ensures forall e, row :: e in log && row in Exploded(e) ==> row in ExplodedAll(log)
  {
    if log != [] {
      var before, last := log[..|log| - 1], log[|log| - 1];
      ExplodedFrom(before);
      assert log == before + [last];
      hide Exploded;
    }
  }

  /** Exploding a log in order gives rows in order, those of one event side by side under its key. */
  lemma {:induction false} ExplodedOrdered(log: seq<Source>)
    requires Sorted(log)
    ensures Ordered(ExplodedAll(log))
  {
    if log != [] {
      var before, last := log[..|log| - 1], log[|log| - 1];
      ExplodedOrdered(before);
      var rows, more := ExplodedAll(before), Exploded(last);
      ExplodedFrom(before);
      forall i | 0 <= i < |rows| ensures rows[i].key.Before(last.key) {
        assert rows[i] in rows;
        var e :| e in before && rows[i] in Exploded(e);
      }
      assert forall j :: 0 <= j < |more| ==> more[j].key == last.key;
      hide Exploded;
    }
  }

  /** Every transaction lies in one block. */
  ghost predicate OneBlockEach(log: seq<Row>) {
    forall a, b :: a in log && b in log && a.body.transaction == b.body.transaction ==> a.key.block == b.key.block
  }

  /**
   What the log says of a stored row: it is there, with its event's block, exactly if a row of
   the log has its key.
   */
  ghost predicate AsLogged(log: seq<Row>, t: Rows, key: RowKey) {
    && (key in t <==> exists row :: row in log && KeyOf(row) == key)
    && forall row :: row in log && KeyOf(row) == key ==> key in t && t[key] == row.key.block
  }

  ghost predicate AllLogged(log: seq<Row>, t: Rows) {
    forall key :: AsLogged(log, t, key)
  }

  ghost predicate Upserted(log: seq<Row>, k: nat, key: RowKey) {
    exists i :: k <= i < |log| && KeyOf(log[i]) == key
  }

  /** Stored rows that no row from k on writes are as the log says. */
  ghost predicate Settled(log: seq<Row>, t: Rows, k: nat) {
    forall key :: Upserted(log, k, key) || AsLogged(log, t, key)
  }

  ghost function SettledInvariant(log: seq<Row>): (Rows, nat) -> bool {
    (t: Rows, k: nat) => Settled(log, t, k)
  }

  lemma {:induction false} SettledStep(log: seq<Row>, t: Rows, k: nat)
    requires OneBlockEach(log) && k < |log| && Settled(log, t, k)
    ensures Settled(log, ApplyAdded(t, log[k]), k + 1)
  {
    var t' := ApplyAdded(t, log[k]);
    forall key ensures Upserted(log, k + 1, key) || AsLogged(log, t', key) {
      assert Upserted(log, k, key) || AsLogged(log, t, key);
      if key == KeyOf(log[k]) {
        assert log[k] in log;
      } else if Upserted(log, k, key) {
        var i :| k <= i < |log| && KeyOf(log[i]) == key;
      }
    }
  }

  lemma {:induction false} SettledEarlier(log: seq<Row>, t: Rows, j: nat, k: nat)
    requires j <= k && Settled(log, t, k)
    ensures Settled(log, t, j)
  {
    forall key ensures Upserted(log, j, key) || AsLogged(log, t, key) {
      assert Upserted(log, k, key) || AsLogged(log, t, key);
    }
  }

  /** A stored row that no row from k on writes stays as it was, through any passes. */
  lemma {:induction false} UnwrittenStays(log: seq<Row>, t: Rows, k: nat, key: RowKey, passes: seq<Replay.Stretch>)
    requires k <= |log| && !Upserted(log, k, key) && Replay.Chained(k, |log|, k, passes)
    ensures var final := Replay.RunPasses(ApplyAdded, log, t, passes);
      (key in final <==> key in t) && (key in t ==> final[key] == t[key])
  {
    var J := (t': Rows, i: nat) => (key in t' <==> key in t) && (key in t ==> t'[key] == t[key]);
    assert Replay.Replayable(ApplyAdded, log, k, J);
    Replay.PassesKeep(ApplyAdded, log, k, J, t, k, passes);
  }

  /**
   Catching up from row k with any table, through passes that stop anywhere, even between
   two attesters of one event, and begin again at any earlier row down to k, ends with
   exactly one row per attester of every event if and only if every stored row that no
   row from k on writes is already as the log says.
   */
  lemma {:induction false} AttestersCatchUpIff(log: seq<Row>, t: Rows, k: nat, passes: seq<Replay.Stretch>)
    requires OneBlockEach(log) && k <= |log| && Replay.Chained(k, |log|, k, passes)
      && Replay.Reached(k, passes) == |log|
    ensures AllLogged(log, Replay.RunPasses(ApplyAdded, log, t, passes)) <==> Settled(log, t, k)
  {
    var final := Replay.RunPasses(ApplyAdded, log, t, passes);
    if Settled(log, t, k) {
      var J := SettledInvariant(log);
      assert Replay.Replayable(ApplyAdded, log, k, J) by {
        forall t', i | k <= i < |log| && J(t', i) ensures J(ApplyAdded(t', log[i]), i + 1) {
          SettledStep(log, t', i);
        }
        forall t', i, j | k <= j <= i <= |log| && J(t', i) ensures J(t', j) {
          SettledEarlier(log, t', j, i);
        }
      }
      Replay.PassesKeep(ApplyAdded, log, k, J, t, k, passes);
      forall key ensures AsLogged(log, final, key) {
        assert Upserted(log, |log|, key) || AsLogged(log, final, key);
      }
    } else {
      var key :| !(Upserted(log, k, key) || AsLogged(log, t, key));
      UnwrittenStays(log, t, k, key, passes);
      assert !AsLogged(log, final, key);
    }
  }

  /** What a stored row, met by a reset, has to be for the log: kept with its event's block, or rightly gone. */
  ghost predicate KeptAsLogged(log: seq<Row>, t: Rows, block: int, key: RowKey) {
    && ((key in t && t[key] <= block) <==> exists row :: row in log && KeyOf(row) == key)
    && forall row :: row in log && KeyOf(row) == key ==> key in t && t[key] == row.key.block
  }

  /**
   The same after a reset, which deletes the rows of later blocks and no others and goes back to
   the start of its block: the condition is on the table that the reset finds.
   */
  lemma {:induction false} AttestersRecoveryIff(log: seq<Row>, t: Rows, block: int, passes: seq<Replay.Stretch>)
    requires OneBlockEach(log)
    requires var k := Rank(log, Cursor(block, 0));
      Replay.Chained(k, |log|, k, passes) && Replay.Reached(k, passes) == |log|
    ensures var kept: Rows := map key | key in t && t[key] <= block :: t[key];
      AllLogged(log, Replay.RunPasses(ApplyAdded, log, kept, passes)) <==>
        forall key :: Upserted(log, Rank(log, Cursor(block, 0)), key) || KeptAsLogged(log, t, block, key)
    ensures CutAttesters(t, block) == map key | key in t && t[key] <= block :: t[key]
  {
    var kept, k := CutAttesters(t, block), Rank(log, Cursor(block, 0));
    assert kept == map key | key in t && t[key] <= block :: t[key];
    forall key ensures AsLogged(log, kept, key) <==> KeptAsLogged(log, t, block, key) {
    }
    AttestersCatchUpIff(log, kept, k, passes);
    hide Rank, CutAttesters, KeptAsLogged, AsLogged, Upserted;
  }

  ghost predicate Lists(e: Source, row: Row) {
    && e.body.attesters.Some? && row.body.attester in e.body.attesters.value
    && row.body.provider == e.body.provider && row.body.transaction == e.body.transaction
    && row.key == e.key && row.id == e.id
  }

  /** The rows of a log of events: one per event and listed attester, under the event's key. */
  lemma {:induction false} ExplodedIff(log: seq<Source>, row: Row)
    ensures row in ExplodedAll(log) <==> exists e :: e in log && Lists(e, row)
  {
    ExplodedFrom(log);
    hide ExplodedAll;
    if row in ExplodedAll(log) {
      var e :| e in log && row in Exploded(e);
      assert Lists(e, row);
    }
    if e :| e in log && Lists(e, row) {
      var i :| 0 <= i < |e.body.attesters.value| && e.body.attesters.value[i] == row.body.attester;
      assert Exploded(e)[i] == row;
    }
  }

  /** An event of the log adds the attester of a stored row. */
  ghost predicate Announced(log: seq<Source>, e: Source, key: RowKey) {
    && e in log && e.body.attesters.Some? && key.attester in e.body.attesters.value
    && key.provider == e.body.provider && key.transaction == e.body.transaction && key.log == e.key.log
  }

  lemma {:induction false} AnnouncedRows(log: seq<Source>, key: RowKey)
    ensures (exists row :: row in ExplodedAll(log) && KeyOf(row) == key) <==> exists e :: Announced(log, e, key)
    ensures forall e :: Announced(log, e, key) ==>
      exists row :: row in ExplodedAll(log) && KeyOf(row) == key && row.key.block == e.key.block
  {
    hide ExplodedAll;
    if row :| row in ExplodedAll(log) && KeyOf(row) == key {
      ExplodedIff(log, row);
      var e :| e in log && Lists(e, row);
      assert Announced(log, e, key);
    }
    forall e | Announced(log, e, key)
      ensures exists row :: row in ExplodedAll(log) && KeyOf(row) == key && row.key.block == e.key.block
    {
      var row: Row := Event(e.key, e.id, Added(key.provider, key.attester, key.transaction));
      ExplodedIff(log, row);
    }
  }

  /**
   From the empty table every chain of passes over a log's events, wherever the passes stop
   between two attesters, ends with one row for each attester that an event lists, with the
   event's transaction, log index and provider as its key and the event's block.
   */
  lemma {:induction false} AttestersConverge(log: seq<Source>, passes: seq<Replay.Stretch>)
    requires forall a, b ::
        a in log && b in log && a.body.transaction == b.body.transaction ==> a.key.block == b.key.block
    requires var rows := ExplodedAll(log); Replay.Chained(0, |rows|, 0, passes) && Replay.Reached(0, passes) == |rows|
    ensures var t := Replay.RunPasses(ApplyAdded, ExplodedAll(log), map[], passes);
      && (forall key :: key in t <==> exists e :: Announced(log, e, key))
      && (forall e, key :: Announced(log, e, key) ==> key in t && t[key] == e.key.block)
  {
    var rows := ExplodedAll(log);
    forall a, b | a in rows && b in rows && a.body.transaction == b.body.transaction
      ensures a.key.block == b.key.block
    {
      ExplodedIff(log, a);
      ExplodedIff(log, b);
    }
    assert OneBlockEach(rows);
    hide ExplodedAll, OneBlockEach, Announced;
    RowsConverge(rows, passes);
    var t := Replay.RunPasses(ApplyAdded, rows, map[], passes);
    forall key ensures key in t <==> exists e :: Announced(log, e, key) {
      AnnouncedRows(log, key);
    }
    forall e, key | Announced(log, e, key) ensures key in t && t[key] == e.key.block {
      AnnouncedRows(log, key);
    }
  }

  /** The same over the rows. */
  lemma {:induction false} RowsConverge(log: seq<Row>, passes: seq<Replay.Stretch>)
    requires OneBlockEach(log) && Replay.Chained(0, |log|, 0, passes) && Replay.Reached(0, passes) == |log|
    ensures var t := Replay.RunPasses(ApplyAdded, log, map[], passes);
      && (forall key :: key in t <==> exists row :: row in log && KeyOf(row) == key)
      && (forall row :: row in log ==> KeyOf(row) in t && t[KeyOf(row)] == row.key.block)
  {
    var none: Rows := map[];
    forall key ensures Upserted(log, 0, key) || AsLogged(log, none, key) {
      if row :| row in log && KeyOf(row) == key {
        var i :| 0 <= i < |log| && log[i] == row;
      }
    }
    assert Settled(log, none, 0);
    AttestersCatchUpIff(log, none, 0, passes);
    LoggedRows(log, Replay.RunPasses(ApplyAdded, log, none, passes));
  }

  lemma {:induction false} LoggedRows(log: seq<Row>, t: Rows)
    requires AllLogged(log, t)
    ensures forall key :: key in t <==> exists row :: row in log && KeyOf(row) == key
    ensures forall row :: row in log ==> KeyOf(row) in t && t[KeyOf(row)] == row.key.block
  {
    forall key ensures key in t <==> exists row :: row in log && KeyOf(row) == key {
      assert AsLogged(log, t, key);
    }
    forall row | row in log ensures KeyOf(row) in t && t[KeyOf(row)] == row.key.block {
      assert AsLogged(log, t, KeyOf(row));
    }
  }
}
