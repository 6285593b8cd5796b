/**
 The table of (validator, rollup) pairs: rows written by deposits, rows implied by
 canonical-rollup updates, and the lifecycle status recomputed over both.
 */
module ValidatorRollup {
  import opened Wrappers

  datatype Pair = Pair(address: nat, rollup: nat)

  datatype Kind = RollupDeposit | GseDeposit | Migration

  datatype Status = Active | Migrated | Exiting | Exited

  datatype Row = Row(kind: Kind, block: int, transaction: nat, log: int, status: Status)

  type Table = map<Pair, Row>

  datatype Deposit = Deposit(pair: Pair, gse: bool, block: int, transaction: nat, log: int)

  /** A CanonicalRollupUpdated row. */
  datatype Update = Update(id: nat, instance: nat, block: int, transaction: nat)

  /** A deposit row and a later update to another rollup: the implied migration. */
  datatype Candidate = Candidate(source: Pair, update: Update)

  /** What the status refresh consults: withdrawal tables and each validator's current rollup. */
  datatype Lifecycle = Lifecycle(finalized: set<Pair>, initiated: set<Pair>, current: map<nat, nat>) {
    /** The validator is known, and its current rollup is another one. */
    ghost predicate Elsewhere(p: Pair) {
      p.address in current && current[p.address] != p.rollup
    }
  }

  const FIRST_SYNTHETIC: int := 100000
  const IDLE_SYNC_INTERVAL_MS: int := 60000

  function DepositRow(d: Deposit): Row {
    Row(if d.gse then GseDeposit else RollupDeposit, d.block, d.transaction, d.log, Active)
  }

  function Target(c: Candidate): Pair {
    Pair(c.source.address, c.update.instance)
  }

  /** The unique constraint on (transaction_hash, log_index). */
  predicate Taken(rows: Table, transaction: nat, log: int) {
    exists p :: p in rows && rows[p].transaction == transaction && rows[p].log == log
  }

  predicate IsCandidate(rows: Table, withdrawn: set<Pair>, p: Pair, u: Update) {
    && p in rows && rows[p].kind != Migration
    && u.block > rows[p].block && u.instance != p.rollup
    && Pair(p.address, u.instance) !in rows
    && p !in withdrawn
  }

  function Candidates(rows: Table, updates: set<Update>, withdrawn: set<Pair>): set<Candidate> {
    set p, u | p in rows && u in updates && IsCandidate(rows, withdrawn, p, u) :: Candidate(p, u)
  }

  function Targets(candidates: set<Candidate>): set<Pair> {
    set c | c in candidates :: Target(c)
  }

  function RowsOf(rows: Table, transaction: nat): set<Pair> {
    set p | p in rows && rows[p].transaction == transaction
  }

  lemma {:induction false} HasMax(rows: Table, some: set<Pair>)
    requires some != {} && some <= rows.Keys
    ensures exists m :: m in some && forall p :: p in some ==> rows[p].log <= rows[m].log
    decreases |some|
  {
    var x :| x in some;
    var rest := some - {x};
    if rest == {} {
      assert some == {x};
      assert forall p :: p in some ==> rows[p].log <= rows[x].log;
    } else {
      HasMax(rows, rest);
      var high :| high in rest && forall p :: p in rest ==> rows[p].log <= rows[high].log;
      assert forall p :: p in some ==> p == x || p in rest;
      var m := if rows[x].log > rows[high].log then x else high;
      assert m in some && forall p :: p in some ==> rows[p].log <= rows[m].log;
    }
  }

  /** MAX(log_index) over the rows of a transaction; None when there is no such row. */
  ghost function MaxLogOf(rows: Table, transaction: nat): Option<int> {
    var some := RowsOf(rows, transaction);
    if some == {} then None
    else
      HasMax(rows, some);
      var m :| m in some && forall p :: p in some ==> rows[p].log <= rows[m].log;
      Some(rows[m].log)
  }

  /** The number the synthetic log indexes of a transaction are counted from. */
  function Base(max: Option<int>): int {
    var next := (match max case Some(m) => m case None => FIRST_SYNTHETIC) + 1;
    if FIRST_SYNTHETIC >= next then FIRST_SYNTHETIC else next
  }

  ghost function NumberedFrom(before: Table, transaction: nat): int {
    Base(MaxLogOf(before, transaction))
  }

  /** A new migration row stands for one of the candidates, numbered above every older row of its transaction. */
  ghost predicate StandsFor(p: Pair, row: Row, c: Candidate) {
    && Target(c) == p
    && row.kind == Migration && row.status == Active
    && row.block == c.update.block && row.transaction == c.update.transaction
  }

  ghost predicate NewRow(before: Table, candidates: set<Candidate>, p: Pair, row: Row) {
    && (exists c :: c in candidates && StandsFor(p, row, c))
    && row.log > NumberedFrom(before, row.transaction)
  }

  function CandidatesOf(candidates: set<Candidate>, transaction: nat): set<Candidate> {
    set c | c in candidates && c.update.transaction == transaction
  }

  /** There are no more numbers in a transaction than candidates. */
  ghost predicate WithinCount(before: Table, candidates: set<Candidate>, row: Row) {
    row.log <= NumberedFrom(before, row.transaction) + |CandidatesOf(candidates, row.transaction)|
  }

  /** New rows of one transaction are numbered in the order of their addresses, without repetition. */
  ghost predicate Numbered(before: Table, after: Table) {
    forall p, q :: p in after && p !in before && q in after && q !in before
      && p != q && after[p].transaction == after[q].transaction
      ==> after[p].log != after[q].log && (p.address < q.address ==> after[p].log < after[q].log)
  }

  /** What one backfill does, whichever of several candidates for one pair comes first. */
  ghost predicate Backfilled(before: Table, after: Table, updates: set<Update>, withdrawn: set<Pair>) {
    var candidates := Candidates(before, updates, withdrawn);
    && after.Keys == before.Keys + Targets(candidates)
    && (forall p :: p in before ==> after[p] == before[p])
    && (forall p :: p in after && p !in before ==> NewRow(before, candidates, p, after[p]))
    && (forall p :: p in after && p !in before ==> WithinCount(before, candidates, after[p]))
    && Numbered(before, after)
  }

  function StatusOf(p: Pair, life: Lifecycle): Status
    requires p.address in life.current
  {
    if p in life.finalized then Exited
    else if p in life.initiated then Exiting
    else if life.current[p.address] != p.rollup then Migrated
    else Active
  }

  /** Rows of unknown validators are not joined, so they keep their status. */
  function RefreshedRow(p: Pair, row: Row, life: Lifecycle): Row {
    if p.address in life.current then row.(status := StatusOf(p, life)) else row
  }

  function Refreshed(rows: Table, life: Lifecycle): Table {
    map p | p in rows :: RefreshedRow(p, rows[p], life)
  }

  /** The rows whose stored status is out of date. */
  function Stale(rows: Table, life: Lifecycle): set<Pair> {
    set p | p in rows && p.address in life.current && rows[p].status != StatusOf(p, life)
  }

  function CutRows(rows: Table, block: int): Table {
    map p | p in rows && rows[p].block <= block :: rows[p]
  }

  predicate IsLowest(c: Candidate, candidates: set<Candidate>) {
    c in candidates && forall d :: d in candidates ==> c.source.address <= d.source.address
  }

  lemma {:induction false} LowestAddress(candidates: set<Candidate>)
    requires candidates != {}
    ensures exists c :: c in candidates && IsLowest(c, candidates)
    decreases |candidates|
  {
    var x :| x in candidates;
    var rest := candidates - {x};
    if rest == {} {
      assert candidates == {x};
      assert IsLowest(x, candidates);
    } else {
      LowestAddress(rest);
      var low :| low in rest && IsLowest(low, rest);
      assert forall d :: d in candidates ==> d == x || d in rest;
      var c := if x.source.address < low.source.address then x else low;
      assert IsLowest(c, candidates);
    }
  }

  method MaxLog(rows: Table, transaction: nat) returns (max: Option<int>)
    ensures max == MaxLogOf(rows, transaction)
  {
    max := None;
    var pending := rows.Keys;
    while pending != {}
      invariant pending <= rows.Keys
      invariant max.None? ==> forall q :: q in rows && q !in pending ==> rows[q].transaction != transaction
      invariant max.Some? ==> exists q :: q in RowsOf(rows, transaction) && rows[q].log == max.value
      invariant max.Some? ==> forall q ::
          q in rows && q !in pending && rows[q].transaction == transaction ==> rows[q].log <= max.value
      decreases |pending|
    {
      var p :| p in pending;
      pending := pending - {p};
      if rows[p].transaction == transaction && (max.None? || rows[p].log > max.value) {
        max := Some(rows[p].log);
      }
    }
  }

  /** The next candidate takes the next number of its transaction. */
  method InsertMigration(snapshot: Table, table: Table, counters: map<nat, nat>, c: Candidate,
                         ghost done: set<Candidate>, ghost pending: set<Candidate>)
    returns (after: Table, counters': map<nat, nat>, added: nat)
    requires InProgress(snapshot, table, done, counters) && AddressesBelow(done, pending)
    requires IsLowest(c, pending) && done !! pending
    ensures InProgress(snapshot, after, done + {c}, counters')
    ensures AddressesBelow(done + {c}, pending - {c})
    ensures added == |after| - |table|
  {
    hide *;
    var transaction := c.update.transaction;
    var max := MaxLog(snapshot, transaction);
    var number := Counted(counters, transaction) + 1;
    var log := Base(max) + number;
    NextLog(snapshot, table, done, counters, c, log);
    Placing(snapshot, table, done, pending, counters, c);
    after, added := table, 0;
    if Target(c) !in table && !Taken(table, transaction, log) {
      after := table[Target(c) := Row(Migration, c.update.block, transaction, log, Active)];
      added := 1;
    }
    counters' := counters[transaction := number];
  }

  /** Rows for the pending candidates, in the order of their addresses. */
  method InsertMigrations(snapshot: Table, table: Table, counters: map<nat, nat>, ghost done: set<Candidate>,
      pending: set<Candidate>)
    returns (after: Table, counters': map<nat, nat>, added: nat)
    requires InProgress(snapshot, table, done, counters) && AddressesBelow(done, pending) && done !! pending
    ensures InProgress(snapshot, after, done + pending, counters')
    ensures added == |after| - |table|
    decreases |pending|
  {
    hide *;
    if pending == {} {
      assert done + pending == done;
      return table, counters, 0;
    }
    LowestAddress(pending);
    var c :| c in pending && IsLowest(c, pending);
    var next, counted, first := InsertMigration(snapshot, table, counters, c, done, pending);
    var rest;
    after, counters', rest := InsertMigrations(snapshot, next, counted, done + {c}, pending - {c});
    added := first + rest;
    assert done + {c} + (pending - {c}) == done + pending;
  }

  /**
   One row per candidate, numbered per transaction in the order of the addresses;
   rows that meet a uniqueness constraint are skipped.
   */
  method Backfill(snapshot: Table, updates: set<Update>, withdrawn: set<Pair>) returns (table: Table, inserted: nat)
    ensures Backfilled(snapshot, table, updates, withdrawn)
    ensures inserted == |table| - |snapshot|
  {
    hide *;
    var candidates := Candidates(snapshot, updates, withdrawn);
    NothingDone(snapshot);
    var counters;
    table, counters, inserted := InsertMigrations(snapshot, snapshot, map[], {}, candidates);
    assert {} + candidates == candidates;
    AllDone(snapshot, table, updates, withdrawn, counters);
  }

  /** The rows after the backfill and the status refresh. */
  ghost predicate AfterSync(before: Table, after: Table, updates: set<Update>, withdrawn: set<Pair>, life: Lifecycle) {
    exists mid: Table :: Backfilled(before, mid, updates, withdrawn) && after == Refreshed(mid, life)
  }

  lemma {:induction false} SyncIntro(before: Table, mid: Table, updates: set<Update>, withdrawn: set<Pair>,
      life: Lifecycle)
    requires Backfilled(before, mid, updates, withdrawn)
    ensures AfterSync(before, Refreshed(mid, life), updates, withdrawn, life) && |Refreshed(mid, life)| == |mid|
  {
    hide Backfilled;
    assert Refreshed(mid, life).Keys == mid.Keys;
    assert |mid| == |mid.Keys| && |Refreshed(mid, life)| == |Refreshed(mid, life).Keys|;
  }

  lemma {:induction false} SyncKeepsRows(before: Table, after: Table, updates: set<Update>, withdrawn: set<Pair>,
      life: Lifecycle)
    requires AfterSync(before, after, updates, withdrawn, life)
    ensures before.Keys <= after.Keys
  {
  }

  class ValidatorRollupTable {
    var rows: Table
    var lastIdleSyncMs: int

    constructor ()
      ensures rows == map[] && lastIdleSyncMs == 0
    {
      rows, lastIdleSyncMs := map[], 0;
    }

    /** First writer wins; a second row with the same transaction and log index is an error. */
    method UpsertDeposits(batch: seq<Deposit>) returns (r: Result<(), nat>)
      modifies this`rows
      ensures r.Ok? ==> rows == DepositAll(old(rows), batch) && forall d :: d in batch ==> d.pair in rows
      ensures r.Err? ==> r.error < |batch| && rows == DepositAll(old(rows), batch[..r.error])
      ensures r.Err? ==> var d := batch[r.error]; d.pair !in rows && Taken(rows, d.transaction, d.log)
    {
      for i := 0 to |batch|
        invariant rows == DepositAll(old(rows), batch[..i])
        invariant forall k :: 0 <= k < i ==> batch[k].pair in rows
      {
        var d := batch[i];
        if d.pair !in rows {
          if Taken(rows, d.transaction, d.log) {
            return Err(i);
          }
          rows := rows[d.pair := DepositRow(d)];
        }
        assert batch[..i + 1][..i] == batch[..i];
      }
      assert batch[..|batch|] == batch;
      r := Ok(());
    }

    /** The backfill statement, on the rows as they are. */
    method BackfillMigratedValidators(updates: set<Update>, withdrawn: set<Pair>) returns (inserted: nat)
      modifies this`rows
      ensures Backfilled(old(rows), rows, updates, withdrawn)
      ensures inserted == |rows| - |old(rows)|
    {
      var after, n := Backfill(rows, updates, withdrawn);
      rows := after;
      inserted := n;
    }

    /** Recompute the status of every row of a known validator; the result is the number of rows that changed. */
    method RefreshMigrationStatus(life: Lifecycle) returns (changed: nat)
      modifies this`rows
      ensures rows == Refreshed(old(rows), life)
      ensures changed == |set p | p in old(rows) && rows[p].status != old(rows)[p].status|
    {
      changed := |Stale(rows, life)|;
      rows := map p | p in rows :: if p in Stale(rows, life) then rows[p].(status := StatusOf(p, life)) else rows[p];
      assert Stale(old(rows), life) == set p | p in old(rows) && rows[p].status != old(rows)[p].status;
    }

    /** What follows every batch of deposits and every batch of canonical updates. */
    method Sync(updates: set<Update>, withdrawn: set<Pair>, life: Lifecycle) returns (inserted: nat)
      modifies this`rows
      ensures AfterSync(old(rows), rows, updates, withdrawn, life) && inserted == |rows| - |old(rows)|
    {
      hide *;
      inserted := BackfillMigratedValidators(updates, withdrawn);
      ghost var mid := rows;
      var _ := RefreshMigrationStatus(life);
      SyncIntro(old(rows), mid, updates, withdrawn, life);
    }

    /** A batch: its deposits, and if none is refused the backfill and the status refresh. */
    method MaterializeDeposits(batch: seq<Deposit>, updates: set<Update>, withdrawn: set<Pair>, life: Lifecycle)
      returns (r: Result<(), nat>)
      modifies this`rows
      ensures r.Ok? ==> AfterSync(DepositAll(old(rows), batch), rows, updates, withdrawn, life)
      ensures r.Ok? ==> forall d :: d in batch ==> d.pair in rows
      ensures r.Err? ==> r.error < |batch| && rows == DepositAll(old(rows), batch[..r.error])
      ensures r.Err? ==> var d := batch[r.error]; d.pair !in rows && Taken(rows, d.transaction, d.log)
    {
      r := UpsertDeposits(batch);
      if r.Ok? {
        ghost var deposited := rows;
        var _ := Sync(updates, withdrawn, life);
        SyncKeepsRows(deposited, rows, updates, withdrawn, life);
      }
    }

    /** Sync at most once a minute while there are no deposits to process. */
    method OnIdle(now: int, updates: set<Update>, withdrawn: set<Pair>, life: Lifecycle)
      modifies this
      ensures now - old(lastIdleSyncMs) < 60000
        ==> rows == old(rows) && lastIdleSyncMs == old(lastIdleSyncMs)
      ensures now - old(lastIdleSyncMs) >= 60000 ==>
        lastIdleSyncMs == now && AfterSync(old(rows), rows, updates, withdrawn, life)
    {
      if now - lastIdleSyncMs < IDLE_SYNC_INTERVAL_MS {
        return;
      }
      lastIdleSyncMs := now;
      var _ := Sync(updates, withdrawn, life);
    }

    method DeleteAfterBlock(block: int, life: Lifecycle)
      modifies this`rows
      ensures rows == Refreshed(CutRows(old(rows), block), life)
    {
      rows := map p | p in rows && !(rows[p].block > block) :: rows[p];
      var _ := RefreshMigrationStatus(life);
    }
  }

  function DepositAll(rows: Table, batch: seq<Deposit>): Table {
    if batch == [] then rows
    else
      var before := DepositAll(rows, batch[..|batch| - 1]);
      var d := batch[|batch| - 1];
      if d.pair in before then before else before[d.pair := DepositRow(d)]
  }

  // ---- the backfill ----

  /** No two rows share a transaction and a log index. */
  ghost predicate UniqueLogs(rows: Table) {
    forall p, q :: p in rows && q in rows && p != q && rows[p].transaction == rows[q].transaction
      ==> rows[p].log != rows[q].log
  }

  function Counted(counters: map<nat, nat>, transaction: nat): nat {
    if transaction in counters then counters[transaction] else 0
  }

  ghost predicate AddressesBelow(done: set<Candidate>, pending: set<Candidate>) {
    forall c, d :: c in done && d in pending ==> c.source.address <= d.source.address
  }

  ghost predicate NewRows(before: Table, now: Table, done: set<Candidate>, counters: map<nat, nat>) {
    forall p :: p in now && p !in before ==>
      NewRow(before, done, p, now[p])
      && now[p].log <= NumberedFrom(before, now[p].transaction) + Counted(counters, now[p].transaction)
  }

  /** The backfill with the candidates done so far. */
  ghost predicate InProgress(before: Table, now: Table, done: set<Candidate>, counters: map<nat, nat>) {
    && now.Keys == before.Keys + Targets(done)
    && (forall p :: p in before ==> now[p] == before[p])
    && NewRows(before, now, done, counters)
    && Numbered(before, now)
    && Counting(done, counters)
  }

  ghost predicate Counting(done: set<Candidate>, counters: map<nat, nat>) {
    forall transaction :: Counted(counters, transaction) == |CandidatesOf(done, transaction)|
  }

  lemma CountingNext(done: set<Candidate>, counters: map<nat, nat>, c: Candidate)
    requires Counting(done, counters) && c !in done
    ensures Counting(done + {c}, counters[c.update.transaction := Counted(counters, c.update.transaction) + 1])
  {
    var counters' := counters[c.update.transaction := Counted(counters, c.update.transaction) + 1];
    forall transaction ensures Counted(counters', transaction) == |CandidatesOf(done + {c}, transaction)| {
      if transaction == c.update.transaction {
        assert CandidatesOf(done + {c}, transaction) == CandidatesOf(done, transaction) + {c};
      } else {
        assert CandidatesOf(done + {c}, transaction) == CandidatesOf(done, transaction);
      }
    }
  }

  lemma OldLogsBelow(before: Table, transaction: nat)
    ensures NumberedFrom(before, transaction) >= FIRST_SYNTHETIC
    ensures forall p ::
        p in before && before[p].transaction == transaction ==> before[p].log < NumberedFrom(before, transaction)
  {
    forall p | p in before && before[p].transaction == transaction
      ensures before[p].log < NumberedFrom(before, transaction)
    {
      assert p in RowsOf(before, transaction);
    }
  }

  ghost function Place(before: Table, now: Table, counters: map<nat, nat>, c: Candidate): Table {
    var u := c.update;
    if Target(c) in now then now
    else now[Target(c) := Row(Migration, u.block, u.transaction,
      NumberedFrom(before, u.transaction) + Counted(counters, u.transaction) + 1, Active)]
  }

  /** The next number of a transaction is free, so only the pair can conflict. */
  lemma LogIsFree(before: Table, now: Table, done: set<Candidate>, counters: map<nat, nat>, transaction: nat, log: int)
    requires InProgress(before, now, done, counters)
    requires log > NumberedFrom(before, transaction) + Counted(counters, transaction)
    ensures !Taken(now, transaction, log)
  {
    OldLogsBelow(before, transaction);
    assert forall p :: p in now && p !in before ==> NewRow(before, done, p, now[p]);
  }

  lemma NextLog(before: Table, now: Table, done: set<Candidate>, counters: map<nat, nat>, c: Candidate, log: int)
    requires InProgress(before, now, done, counters)
    requires log == Base(MaxLogOf(before, c.update.transaction)) + Counted(counters, c.update.transaction) + 1
    ensures !Taken(now, c.update.transaction, log)
    ensures Place(before, now, counters, c) ==
      if Target(c) in now then now else now[Target(c) :=
        Row(Migration, c.update.block, c.update.transaction, log, Active)]
  {
    hide InProgress, Counted, Base, MaxLogOf, Taken;
    LogIsFree(before, now, done, counters, c.update.transaction, log);
  }

  lemma NothingDone(rows: Table)
    ensures InProgress(rows, rows, {}, map[]) && forall pending :: AddressesBelow({}, pending)
  {
    assert Targets({}) == {};
    assert forall transaction :: CandidatesOf({}, transaction) == {};
  }

  lemma PlacingNumbers(before: Table, now: Table, done: set<Candidate>, counters: map<nat, nat>, c: Candidate)
    requires InProgress(before, now, done, counters) && AddressesBelow(done, {c})
    ensures Numbered(before, Place(before, now, counters, c))
  {
    hide MaxLogOf, Targets, RowsOf, NumberedFrom;
    var after := Place(before, now, counters, c);
    if Target(c) !in now {
      forall p | p in now && p !in before && now[p].transaction == c.update.transaction
        ensures now[p].log < after[Target(c)].log && p.address <= c.source.address
      {
        assert NewRow(before, done, p, now[p]);
      }
    }
  }

  lemma NewRowStays(before: Table, done: set<Candidate>, c: Candidate, p: Pair, row: Row)
    requires NewRow(before, done, p, row)
    ensures NewRow(before, done + {c}, p, row)
  {
    var d :| d in done && StandsFor(p, row, d);
    assert d in done + {c};
  }

  lemma PlacingRows(before: Table, now: Table, done: set<Candidate>, counters: map<nat, nat>, c: Candidate)
    requires NewRows(before, now, done, counters)
    ensures NewRows(before, Place(before, now, counters, c), done + {c},
                    counters[c.update.transaction := Counted(counters, c.update.transaction) + 1])
  {
    var after := Place(before, now, counters, c);
    assert Target(c) !in now ==> NewRow(before, done + {c}, Target(c), after[Target(c)]) by {
      assert c in done + {c};
      assert Target(c) !in now ==> StandsFor(Target(c), after[Target(c)], c);
    }
    hide MaxLogOf, RowsOf, NumberedFrom, NewRow;
    forall p | p in now && p !in before ensures NewRow(before, done + {c}, p, now[p]) {
      NewRowStays(before, done, c, p, now[p]);
    }
  }

  lemma PlacingKeys(before: Table, now: Table, done: set<Candidate>, counters: map<nat, nat>, c: Candidate)
    requires now.Keys == before.Keys + Targets(done) && forall p :: p in before ==> now[p] == before[p]
    ensures var after := Place(before, now, counters, c);
      after.Keys == before.Keys + Targets(done + {c}) && forall p :: p in before ==> after[p] == before[p]
  {
    hide NumberedFrom, Counted;
    assert Targets(done + {c}) == Targets(done) + {Target(c)};
  }

  lemma PlacingOne(before: Table, now: Table, done: set<Candidate>, counters: map<nat, nat>, c: Candidate)
    requires InProgress(before, now, done, counters) && AddressesBelow(done, {c}) && c !in done
    ensures InProgress(before, Place(before, now, counters, c), done + {c},
                       counters[c.update.transaction := Counted(counters, c.update.transaction) + 1])
  {
    PlacingNumbers(before, now, done, counters, c);
    PlacingRows(before, now, done, counters, c);
    PlacingKeys(before, now, done, counters, c);
    CountingNext(done, counters, c);
    hide Counting, Place, NewRows, Numbered, Targets, Counted;
  }

  lemma Placing(before: Table, now: Table, done: set<Candidate>, pending: set<Candidate>, counters: map<nat, nat>,
      c: Candidate)
    requires InProgress(before, now, done, counters) && AddressesBelow(done, pending)
    requires IsLowest(c, pending) && done !! pending
    ensures InProgress(before, Place(before, now, counters, c), done + {c},
                       counters[c.update.transaction := Counted(counters, c.update.transaction) + 1])
    ensures AddressesBelow(done + {c}, pending - {c})
  {
    hide InProgress, Counted, Place, Counting;
    PlacingOne(before, now, done, counters, c);
  }

  lemma AllDone(before: Table, now: Table, updates: set<Update>, withdrawn: set<Pair>, counters: map<nat, nat>)
    requires InProgress(before, now, Candidates(before, updates, withdrawn), counters)
    ensures Backfilled(before, now, updates, withdrawn)
  {
    hide Candidates, Targets, NewRow, Numbered, Counted;
  }

  /** A second backfill over the same tables finds nothing to insert. */
  lemma BackfillFixpoint(before: Table, after: Table, updates: set<Update>, withdrawn: set<Pair>)
    requires Backfilled(before, after, updates, withdrawn)
    ensures Candidates(after, updates, withdrawn) == {}
    ensures forall again :: Backfilled(after, again, updates, withdrawn) ==> again == after
  {
    var old_ := Candidates(before, updates, withdrawn);
    forall p, u | p in after && u in updates ensures !IsCandidate(after, withdrawn, p, u) {
      if p in before {
        if IsCandidate(before, withdrawn, p, u) {
          assert Candidate(p, u) in old_;
          assert Target(Candidate(p, u)) in Targets(old_);
        }
      } else {
        assert NewRow(before, old_, p, after[p]);
      }
    }
  }

  /** Refreshing twice changes nothing the second time. */
  lemma RefreshFixpoint(rows: Table, life: Lifecycle)
    ensures Stale(Refreshed(rows, life), life) == {} && Refreshed(Refreshed(rows, life), life) == Refreshed(rows, life)
  {
  }

  // ---- what rows and statuses mean ----

  /** The status a validator's row should show, read off the withdrawal tables and its current rollup. */
  ghost predicate ShowsStatus(p: Pair, status: Status, life: Lifecycle) {
    && (status == Exited <==> p in life.finalized)
    && (status == Exiting <==> p in life.initiated && p !in life.finalized)
    && (status == Migrated <==> p !in life.initiated && p !in life.finalized && life.Elsewhere(p))
    && (status == Active <==> p !in life.initiated && p !in life.finalized && !life.Elsewhere(p))
  }

  /** A refresh gives every row of a known validator its status and changes nothing else. */
  lemma {:induction false} RefreshShowsStatus(rows: Table, life: Lifecycle, p: Pair)
    requires p in rows
    ensures var after := Refreshed(rows, life);
      && p in after && after[p] == rows[p].(status := after[p].status)
      && if p.address in life.current then ShowsStatus(p, after[p].status, life) else after[p].status == rows[p].status
  {
  }

  /** After a sync every row of a known validator shows its status, the new migration rows included. */
  lemma {:induction false} SyncShowsStatus(before: Table, after: Table, updates: set<Update>, withdrawn: set<Pair>,
                                           life: Lifecycle, p: Pair)
    requires AfterSync(before, after, updates, withdrawn, life) && p in after
    ensures p.address in life.current ==> ShowsStatus(p, after[p].status, life)
    ensures p in before ==> after[p] == before[p].(status := after[p].status)
  {
    hide Refreshed, Candidates, Targets, NewRow, Numbered, ShowsStatus;
    var mid: Table :| Backfilled(before, mid, updates, withdrawn) && after == Refreshed(mid, life);
    SameRows(mid, life);
    RefreshShowsStatus(mid, life, p);
  }

  lemma {:induction false} SameRows(rows: Table, life: Lifecycle)
    ensures Refreshed(rows, life).Keys == rows.Keys
  {
  }

  /** Where the numbers of a transaction start: after 100001, or the highest log index of its rows and one more. */
  ghost predicate StartsAfter(rows: Table, transaction: nat, base: int) {
    if forall p :: p in rows ==> rows[p].transaction != transaction then base == 100001
    else
      && base >= 100000 && (forall p :: p in rows && rows[p].transaction == transaction ==> rows[p].log < base)
      && (base == 100000 || exists p :: p in rows && rows[p].transaction == transaction && rows[p].log + 1 == base)
  }

  lemma {:induction false} NumbersStart(rows: Table, transaction: nat)
    ensures StartsAfter(rows, transaction, NumberedFrom(rows, transaction))
  {
    var some := RowsOf(rows, transaction);
    if some != {} {
      HasMax(rows, some);
      var m :| m in some && MaxLogOf(rows, transaction) == Some(rows[m].log);
      OldLogsBelow(rows, transaction);
      assert m in rows && rows[m].transaction == transaction;
    } else {
      assert forall p :: p in rows ==> p in some || rows[p].transaction != transaction;
    }
  }

  /**
   A row that a sync adds is a migration row: it has the block and the transaction of an
   update to its rollup, later than an unwithdrawn deposit row of its validator on another
   rollup, and one of the log indexes that follow the transaction's highest, as many as the
   transaction has pairs of such a deposit row and an update.
   */
  lemma {:induction false} SyncAdds(before: Table, after: Table, updates: set<Update>, withdrawn: set<Pair>,
                                    life: Lifecycle, p: Pair)
    requires AfterSync(before, after, updates, withdrawn, life) && p in after && p !in before
    ensures after[p].kind == Migration && (p.address !in life.current ==> after[p].status == Active)
    ensures exists q, u ::
        && q in before && u in updates
        && p.address == q.address && p.rollup == u.instance && q.rollup != u.instance && q !in withdrawn
        && before[q].kind != Migration && before[q].block < u.block
        && after[p].block == u.block && after[p].transaction == u.transaction
    ensures exists base ::
        && StartsAfter(before, after[p].transaction, base)
        && base < after[p].log <= base + |CandidatesOf(Candidates(before, updates, withdrawn), after[p].transaction)|
  {
    hide Refreshed, Numbered, MaxLogOf, NumberedFrom, StartsAfter;
    var mid: Table :| Backfilled(before, mid, updates, withdrawn) && after == Refreshed(mid, life);
    SameRows(mid, life);
    RefreshShowsStatus(mid, life, p);
    var c :| c in Candidates(before, updates, withdrawn) && StandsFor(p, mid[p], c);
    NumbersStart(before, mid[p].transaction);
    assert WithinCount(before, Candidates(before, updates, withdrawn), mid[p]);
    assert c.source in before && c.update in updates;
  }

  /** Of two rows that a sync adds in one transaction, the one with the lower address has the lower log index. */
  lemma {:induction false} SyncOrders(before: Table, after: Table, updates: set<Update>, withdrawn: set<Pair>,
                                      life: Lifecycle, p: Pair, q: Pair)
    requires AfterSync(before, after, updates, withdrawn, life)
    requires p in after && p !in before && q in after && q !in before
    requires p != q && after[p].transaction == after[q].transaction
    ensures after[p].log != after[q].log && (p.address < q.address ==> after[p].log < after[q].log)
  {
    hide Refreshed, NewRow, WithinCount, Candidates, Targets;
    var mid: Table :| Backfilled(before, mid, updates, withdrawn) && after == Refreshed(mid, life);
    SameRows(mid, life);
    RefreshShowsStatus(mid, life, p);
    RefreshShowsStatus(mid, life, q);
  }

  ghost predicate IsFirst(batch: seq<Deposit>, i: int, p: Pair) {
    0 <= i < |batch| && batch[i].pair == p && forall j :: 0 <= j < i ==> batch[j].pair != p
  }

  /** A pair that deposits add gets the row of its first deposit: the kind, where it was logged, and active. */
  lemma {:induction false} FirstDepositWins(rows: Table, batch: seq<Deposit>, p: Pair)
    requires p in DepositAll(rows, batch)
    ensures p in rows ==> DepositAll(rows, batch)[p] == rows[p]
    ensures p !in rows ==> exists i ::
        && IsFirst(batch, i, p)
        && DepositAll(rows, batch)[p] == Row(if batch[i].gse then GseDeposit else RollupDeposit,
                                             batch[i].block, batch[i].transaction, batch[i].log, Active)
  {
    if batch != [] {
      var k := |batch| - 1;
      var before := DepositAll(rows, batch[..k]);
      if p in before {
        FirstDepositWins(rows, batch[..k], p);
        if p !in rows {
          var i :| IsFirst(batch[..k], i, p) && before[p] ==
            Row(if batch[..k][i].gse then GseDeposit else RollupDeposit, batch[..k][i].block, batch[..k][i].transaction,
                batch[..k][i].log, Active);
          assert batch[i] == batch[..k][i] && forall j :: 0 <= j < i ==> batch[..k][j] == batch[j];
          assert IsFirst(batch, i, p);
        }
      } else {
        NoDepositYet(rows, batch[..k], p);
        assert forall j :: 0 <= j < k ==> batch[..k][j] == batch[j];
        assert IsFirst(batch, k, p);
      }
    }
  }

  lemma {:induction false} NoDepositYet(rows: Table, batch: seq<Deposit>, p: Pair)
    requires p !in DepositAll(rows, batch)
    ensures p !in rows && forall j :: 0 <= j < |batch| ==> batch[j].pair != p
  {
    if batch != [] {
      NoDepositYet(rows, batch[..|batch| - 1], p);
    }
  }

  // ---- what every operation keeps ----

  /** Every migration row is implied by a deposit row of the same validator, older and on another rollup. */
  ghost predicate Witnessed(rows: Table) {
    forall p :: p in rows && rows[p].kind == Migration ==> exists q :: IsWitness(rows, p, q)
  }

  ghost predicate IsWitness(rows: Table, p: Pair, q: Pair) {
    && p in rows && q in rows && rows[q].kind != Migration
    && q.address == p.address && q.rollup != p.rollup && rows[q].block < rows[p].block
  }

  ghost predicate SyntheticAbove(rows: Table) {
    forall p :: p in rows && rows[p].kind == Migration ==> rows[p].log > FIRST_SYNTHETIC
  }

  ghost predicate Shape(rows: Table) {
    UniqueLogs(rows) && Witnessed(rows) && SyntheticAbove(rows)
  }

  lemma BackfillKeepsLogs(before: Table, after: Table, updates: set<Update>, withdrawn: set<Pair>)
    requires Backfilled(before, after, updates, withdrawn) && UniqueLogs(before) && SyntheticAbove(before)
    ensures UniqueLogs(after) && SyntheticAbove(after)
  {
    forall p | p in after && p !in before
      ensures after[p].log > FIRST_SYNTHETIC
      ensures forall q :: q in before && before[q].transaction == after[p].transaction ==> before[q].log < after[p].log
    {
      assert NewRow(before, Candidates(before, updates, withdrawn), p, after[p]);
      OldLogsBelow(before, after[p].transaction);
    }
  }

  /** A new row comes from a deposit row that was there and an update that was known. */
  lemma NewRowSource(before: Table, after: Table, updates: set<Update>, withdrawn: set<Pair>, p: Pair)
      returns (q: Pair, u: Update)
    requires Backfilled(before, after, updates, withdrawn) && p in after && p !in before
    ensures q in before && u in updates && IsCandidate(before, withdrawn, q, u)
    ensures p == Pair(q.address, u.instance) && after[p].kind == Migration && after[p].block == u.block
  {
    var candidates := Candidates(before, updates, withdrawn);
    assert NewRow(before, candidates, p, after[p]);
    var c :| c in candidates && StandsFor(p, after[p], c);
    q, u := c.source, c.update;
  }

  lemma BackfillKeepsWitnesses(before: Table, after: Table, updates: set<Update>, withdrawn: set<Pair>)
    requires Backfilled(before, after, updates, withdrawn) && Witnessed(before)
    ensures Witnessed(after)
  {
    hide Candidates, Numbered, NewRow, Targets;
    forall p | p in after && after[p].kind == Migration ensures exists q :: IsWitness(after, p, q) {
      if p in before {
        var q :| IsWitness(before, p, q);
        assert IsWitness(after, p, q);
      } else {
        var q, u := NewRowSource(before, after, updates, withdrawn, p);
        assert IsWitness(after, p, q);
      }
    }
  }

  lemma RefreshKeepsShape(rows: Table, life: Lifecycle)
    requires Shape(rows)
    ensures Shape(Refreshed(rows, life))
  {
    forall p | p in rows && rows[p].kind == Migration ensures exists q :: IsWitness(Refreshed(rows, life), p, q) {
      var q :| IsWitness(rows, p, q);
      assert IsWitness(Refreshed(rows, life), p, q);
    }
  }

  /** A reset cannot orphan a migration row: its witness is older, so it survives too. */
  lemma CutKeepsShape(rows: Table, block: int)
    requires Shape(rows)
    ensures Shape(CutRows(rows, block))
  {
    var cut := CutRows(rows, block);
    forall p | p in cut && cut[p].kind == Migration ensures exists q :: IsWitness(cut, p, q) {
      var q :| IsWitness(rows, p, q);
      assert IsWitness(cut, p, q);
    }
  }

  lemma DepositKeepsShape(rows: Table, d: Deposit)
    requires Shape(rows) && d.pair !in rows && !Taken(rows, d.transaction, d.log)
    ensures Shape(rows[d.pair := DepositRow(d)])
  {
    var after := rows[d.pair := DepositRow(d)];
    forall p | p in after && after[p].kind == Migration ensures exists q :: IsWitness(after, p, q) {
      var q :| IsWitness(rows, p, q);
      assert IsWitness(after, p, q);
    }
  }
}
