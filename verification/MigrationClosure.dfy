/**
 The set of (validator, rollup) pairs over whole runs: deposits, canonical updates,
 withdrawals, syncs and resets in any order.
 */
module MigrationClosure {
  import opened EventLog
  import opened ValidatorRollup

  // ---- runs ----

  /** The rows, what their three source tables have shown of the chain so far, and the deposit cursor. */
  datatype World = World(rows: Table, seen: set<Deposit>, updates: set<Update>, withdrawn: set<Pair>, cursor: Cursor)

  const EMPTY := World(map[], {}, {}, {}, ORIGIN)

  datatype Step =
    | Deposited(deposit: Deposit)
    | Saved(at: Cursor)
    | Announced(update: Update)
    | Withdrew(pair: Pair)
    | Synced(backfilled: Table, life: Lifecycle)
    | Reset(block: int, stillWithdrawn: set<Pair>, life: Lifecycle)

  function KeyOf(d: Deposit): Cursor {
    Cursor(d.block, d.log)
  }

  /** Deposits are fetched after the cursor, and the cursor is saved at one that has been processed. */
  ghost predicate Enabled(s: World, step: Step) {
    match step
    case Deposited(d) => s.cursor.Before(KeyOf(d))
    case Saved(at) => s.cursor.Before(at) && exists d :: d in s.seen && KeyOf(d) == at
    case Synced(backfilled, _) => Backfilled(s.rows, backfilled, s.updates, s.withdrawn)
    case Reset(_, still, _) => still <= s.withdrawn
    case _ => true
  }

  /**
   A deposit that meets the constraint on (transaction, log) is not accepted.  A reset
   forgets what lies past its block, refreshes the rest and moves the cursor to the block's start.
   */
  function Apply(s: World, step: Step): World {
    match step
    case Deposited(d) =>
      if d.pair in s.rows then s.(seen := s.seen + {d})
      else if Taken(s.rows, d.transaction, d.log) then s
      else s.(rows := s.rows[d.pair := DepositRow(d)], seen := s.seen + {d})
    case Saved(at) => s.(cursor := at)
    case Announced(u) => s.(updates := s.updates + {u})
    case Withdrew(p) => s.(withdrawn := s.withdrawn + {p})
    case Synced(backfilled, life) => s.(rows := Refreshed(backfilled, life))
    case Reset(block, still, life) =>
      World(Refreshed(CutRows(s.rows, block), life), SeenBy(s, block), UpdatesBy(s, block), still, Cursor(block, 0))
  }

  function SeenBy(s: World, block: int): set<Deposit> {
    set d | d in s.seen && d.block <= block
  }

  function UpdatesBy(s: World, block: int): set<Update> {
    set u | u in s.updates && u.block <= block
  }

  function Run(s: World, steps: seq<Step>): World
    decreases |steps|
  {
    if steps == [] then s else Run(Apply(s, steps[0]), steps[1..])
  }

  ghost predicate Possible(s: World, steps: seq<Step>)
    decreases |steps|
  {
    steps != [] ==> Enabled(s, steps[0]) && Possible(Apply(s, steps[0]), steps[1..])
  }

  /**
   What a reset leaves: the rows and the sources up to its block, and of all deposits exactly
   those of later blocks, and those of the block itself but for log index zero, to be fetched.
   */
  lemma {:induction false} ResetMeans(s: World, block: int, still: set<Pair>, life: Lifecycle, d: Deposit)
    requires d.log >= 0
    ensures var t := Apply(s, Reset(block, still, life));
      && (forall p :: p in t.rows <==> p in s.rows && s.rows[p].block <= block)
      && (d in t.seen <==> d in s.seen && d.block <= block)
      && (forall u :: u in t.updates <==> u in s.updates && u.block <= block)
      && t.withdrawn == still
      && (Enabled(t, Deposited(d)) <==> d.block > block || (d.block == block && d.log != 0))
  {
  }

  /** Saving the cursor changes nothing else, and only deposits later than it are fetched from then on. */
  lemma {:induction false} SavedMeans(s: World, at: Cursor, d: Deposit)
    ensures var t := Apply(s, Saved(at));
      && t.rows == s.rows && t.seen == s.seen && t.updates == s.updates && t.withdrawn == s.withdrawn
      && (Enabled(t, Deposited(d)) <==> d.block > at.block || (d.block == at.block && d.log > at.log))
  {
  }

  /** What the deposits and updates imply, independently of any order. */
  function Implied(deposits: set<Deposit>, updates: set<Update>): set<Pair> {
    set d, u | d in deposits && u in updates && u.block > d.block && u.instance != d.pair.rollup ::
      Pair(d.pair.address, u.instance)
  }

  function DepositPairs(deposits: set<Deposit>): set<Pair> {
    set d | d in deposits :: d.pair
  }

  /** The pairs of the deposits and those they imply. */
  function Closure(s: World): set<Pair> {
    DepositPairs(s.seen) + Implied(s.seen, s.updates)
  }

  ghost predicate FromDeposit(s: World, p: Pair, d: Deposit) {
    p in s.rows && d in s.seen && d.pair == p && s.rows[p] == DepositRow(d).(status := s.rows[p].status)
  }

  ghost predicate FromUpdate(s: World, p: Pair, d: Deposit, u: Update) {
    && p in s.rows && d in s.seen && u in s.updates
    && s.rows[p].kind == Migration && s.rows[p].block == u.block
    && d.block < u.block && d.pair.rollup != u.instance && p == Pair(d.pair.address, u.instance)
  }

  /** Every row goes back to a deposit, or to a deposit and an update, that has been seen. */
  ghost predicate Justified(s: World) {
    forall p :: p in s.rows ==> (exists d :: FromDeposit(s, p, d)) || (exists d, u :: FromUpdate(s, p, d, u))
  }

  lemma SyncKeepsJustified(s: World, step: Step)
    requires Justified(s) && step.Synced? && Enabled(s, step)
    ensures Justified(Apply(s, step))
  {
    hide Candidates, Numbered, NewRow, Targets, Refreshed, RefreshedRow;
    var s', after := Apply(s, step), step.backfilled;
    RefreshedMeaning(after, step.life);
    forall p | p in s'.rows ensures (exists d :: FromDeposit(s', p, d)) || (exists d, u :: FromUpdate(s', p, d, u)) {
      if p in s.rows {
        if d :| FromDeposit(s, p, d) {
          assert FromDeposit(s', p, d);
        } else {
          var d, u :| FromUpdate(s, p, d, u);
          assert FromUpdate(s', p, d, u);
        }
      } else {
        var q, u := NewRowSource(s.rows, after, s.updates, s.withdrawn, p);
        var d :| FromDeposit(s, q, d);
        assert FromUpdate(s', p, d, u);
      }
    }
  }

  lemma RefreshedMeaning(rows: Table, life: Lifecycle)
    ensures Refreshed(rows, life).Keys == rows.Keys
    ensures forall p :: p in rows ==> Refreshed(rows, life)[p] == rows[p].(status := Refreshed(rows, life)[p].status)
  {
  }

  lemma StepKeepsJustified(s: World, step: Step)
    requires Justified(s) && Enabled(s, step)
    ensures Justified(Apply(s, step))
  {
    match step {
      case Synced(_, _) => SyncKeepsJustified(s, step);
      case Reset(block, still, life) => ResetKeepsJustified(s, block, still, life);
      case Deposited(d) => DepositKeepsJustified(s, d);
      case _ =>
        var s' := Apply(s, step);
        forall p | p in s'.rows ensures (exists d :: FromDeposit(s', p, d))
          || (exists d, u :: FromUpdate(s', p, d, u)) {
          SourceStays(s, s', p);
        }
    }
  }

  lemma {:induction false} DepositKeepsJustified(s: World, d: Deposit)
    requires Justified(s)
    ensures Justified(Apply(s, Deposited(d)))
  {
    var s' := Apply(s, Deposited(d));
    forall p | p in s'.rows ensures (exists e :: FromDeposit(s', p, e)) || (exists e, u :: FromUpdate(s', p, e, u)) {
      if p in s.rows {
        SourceStays(s, s', p);
      } else {
        assert FromDeposit(s', p, d);
      }
    }
  }

  /** A row that only changes its status keeps what it goes back to, as long as that is still known. */
  lemma {:induction false} SourceStays(s: World, s': World, p: Pair)
    requires Justified(s) && p in s.rows && p in s'.rows && s'.rows[p] == s.rows[p].(status := s'.rows[p].status)
    requires forall d :: d in s.seen && d.block <= s.rows[p].block ==> d in s'.seen
    requires forall u :: u in s.updates && u.block <= s.rows[p].block ==> u in s'.updates
    ensures (exists d :: FromDeposit(s', p, d)) || (exists d, u :: FromUpdate(s', p, d, u))
  {
    if d :| FromDeposit(s, p, d) {
      assert FromDeposit(s', p, d);
    } else {
      var d, u :| FromUpdate(s, p, d, u);
      assert FromUpdate(s', p, d, u);
    }
  }

  lemma {:induction false} ResetKeepsJustified(s: World, block: int, still: set<Pair>, life: Lifecycle)
    requires Justified(s)
    ensures Justified(Apply(s, Reset(block, still, life)))
  {
    hide Refreshed;
    RefreshedMeaning(CutRows(s.rows, block), life);
    var s' := Apply(s, Reset(block, still, life));
    forall p | p in s'.rows ensures (exists d :: FromDeposit(s', p, d)) || (exists d, u :: FromUpdate(s', p, d, u)) {
      SourceStays(s, s', p);
    }
  }

  lemma StepKeepsShape(s: World, step: Step)
    requires Shape(s.rows) && Enabled(s, step)
    ensures Shape(Apply(s, step).rows)
  {
    hide Backfilled, Shape, Refreshed, CutRows;
    match step {
      case Deposited(d) =>
        if d.pair !in s.rows && !Taken(s.rows, d.transaction, d.log) {
          DepositKeepsShape(s.rows, d);
        }
      case Synced(backfilled, life) =>
        BackfillKeepsShape(s.rows, backfilled, s.updates, s.withdrawn);
        RefreshKeepsShape(backfilled, life);
      case Reset(block, _, life) =>
        CutKeepsShape(s.rows, block);
        RefreshKeepsShape(CutRows(s.rows, block), life);
      case _ =>
    }
  }

  lemma BackfillKeepsShape(before: Table, after: Table, updates: set<Update>, withdrawn: set<Pair>)
    requires Backfilled(before, after, updates, withdrawn) && Shape(before)
    ensures Shape(after)
  {
    hide Backfilled, UniqueLogs, Witnessed, SyntheticAbove;
    BackfillKeepsLogs(before, after, updates, withdrawn);
    BackfillKeepsWitnesses(before, after, updates, withdrawn);
  }

  /**
   In every run, with withdrawals and resets anywhere: synthetic and real log indexes
   never collide, every migration row keeps its deposit witness, and there is no pair
   that the deposits and updates seen do not imply.
   */
  lemma {:induction false} RunsStaySound(s: World, steps: seq<Step>)
    requires Possible(s, steps) && Shape(s.rows) && Justified(s)
    ensures Shape(Run(s, steps).rows) && Justified(Run(s, steps))
    ensures Run(s, steps).rows.Keys <= Closure(Run(s, steps))
    decreases |steps|
  {
    hide Shape, Enabled, Apply;
    if steps == [] {
      JustifiedBounds(s);
    } else {
      StepKeepsShape(s, steps[0]);
      StepKeepsJustified(s, steps[0]);
      RunsStaySound(Apply(s, steps[0]), steps[1..]);
    }
  }

  lemma JustifiedBounds(s: World)
    requires Justified(s)
    ensures s.rows.Keys <= Closure(s)
  {
    forall p | p in s.rows ensures p in Closure(s) {
      if d :| FromDeposit(s, p, d) {
        assert d.pair in DepositPairs(s.seen);
      } else {
        var d, u :| FromUpdate(s, p, d, u);
        assert Pair(d.pair.address, u.instance) in Implied(s.seen, s.updates);
      }
    }
  }

  /** Two deposits do not share a transaction and a log index, and real log indexes stay below the synthetic ones. */
  ghost predicate RealLog(s: World, d: Deposit) {
    d.log <= 100000 && forall e :: e in s.seen && e.transaction == d.transaction && e.log == d.log ==> e == d
  }

  /** So no deposit of the chain is ever refused. */
  lemma DepositAccepted(s: World, d: Deposit)
    requires Shape(s.rows) && Justified(s) && RealLog(s, d)
    ensures var t := Apply(s, Deposited(d)); d in t.seen && d.pair in t.rows
  {
    forall p | p in s.rows && s.rows[p].transaction == d.transaction ensures s.rows[p].log != d.log || p == d.pair {
      if s.rows[p].kind != Migration {
        var e :| FromDeposit(s, p, e);
      }
    }
  }

  // ---- when a sync completes the pairs ----

  /**
   A row that can carry its validator to a pair: a deposit row elsewhere, older than an update
   to the pair's rollup, not withdrawn.
   */
  ghost predicate Carries(s: World, q: Pair, u: Update, p: Pair) {
    && q in s.rows && s.rows[q].kind != Migration && q !in s.withdrawn
    && u in s.updates && u.block > s.rows[q].block && u.instance != q.rollup
    && p == Pair(q.address, u.instance)
  }

  /** Every pair of the closure has a row, or a row that can still carry its validator there. */
  ghost predicate Complete(s: World) {
    forall p :: p in Closure(s) && p !in s.rows ==> exists q, u :: Carries(s, q, u, p)
  }

  lemma SyncRows(s: World, sync: Step)
    requires sync.Synced? && Enabled(s, sync)
    ensures forall p :: p in Apply(s, sync).rows <==> p in s.rows || exists q, u :: Carries(s, q, u, p)
  {
    var candidates, after := Candidates(s.rows, s.updates, s.withdrawn), sync.backfilled;
    RefreshedMeaning(after, sync.life);
    forall p, q, u | Carries(s, q, u, p) ensures p in after {
      if p !in s.rows {
        assert IsCandidate(s.rows, s.withdrawn, q, u);
        assert Candidate(q, u) in candidates;
        assert Target(Candidate(q, u)) in Targets(candidates);
      }
    }
    forall p | p in after && p !in s.rows ensures exists q, u :: Carries(s, q, u, p) {
      var q, u := NewRowSource(s.rows, after, s.updates, s.withdrawn, p);
      assert Carries(s, q, u, p);
    }
  }

  /**
   Exactly when a sync leaves the pairs of the deposits and those they imply, after any
   run with withdrawals and resets anywhere: every such pair that has no row yet has an
   unwithdrawn deposit row of its validator on another rollup, older than an update.
   */
  lemma {:induction false} ExactAfterSync(steps: seq<Step>, sync: Step)
    requires sync.Synced? && Possible(EMPTY, steps + [sync])
    ensures var t := Run(EMPTY, steps + [sync]);
      t.rows.Keys == Closure(t) <==> Complete(Run(EMPTY, steps))
  {
    hide Run, Possible, Enabled, Apply, Justified, Closure, Carries;
    RunAppend(EMPTY, steps, sync);
    EmptyIsSound();
    RunsStaySound(EMPTY, steps);
    var s, t := Run(EMPTY, steps), Run(EMPTY, steps + [sync]);
    SyncKeepsSources(s, sync);
    SyncRows(s, sync);
    StepKeepsJustified(s, sync);
    JustifiedBounds(t);
    if Complete(s) {
      forall p | p in Closure(t) ensures p in t.rows {
      }
    }
  }

  lemma EmptyIsSound()
    ensures Shape(EMPTY.rows) && Justified(EMPTY)
  {
  }

  lemma SyncKeepsSources(s: World, sync: Step)
    requires sync.Synced?
    ensures SameSources(Apply(s, sync), s) && Closure(Apply(s, sync)) == Closure(s)
  {
  }

  ghost predicate SameSources(x: World, y: World) {
    x.seen == y.seen && x.updates == y.updates && x.withdrawn == y.withdrawn
  }

  /**
   Runs that are complete before their last sync and have seen the same deposits and updates
   end with the same pairs.
   */
  lemma {:induction false} Confluent(steps: seq<Step>, sync: Step, steps': seq<Step>, sync': Step)
    requires sync.Synced? && Possible(EMPTY, steps + [sync]) && Complete(Run(EMPTY, steps))
    requires sync'.Synced? && Possible(EMPTY, steps' + [sync']) && Complete(Run(EMPTY, steps'))
    requires Run(EMPTY, steps + [sync]).seen == Run(EMPTY, steps' + [sync']).seen
    requires Run(EMPTY, steps + [sync]).updates == Run(EMPTY, steps' + [sync']).updates
    ensures Run(EMPTY, steps + [sync]).rows.Keys == Run(EMPTY, steps' + [sync']).rows.Keys
  {
    ExactAfterSync(steps, sync);
    ExactAfterSync(steps', sync');
    hide Run, Possible, Complete;
  }

  // ---- orderly runs ----

  /** An older deposit row of the same validator, able to stand in for a deposit's own. */
  ghost predicate Covers(s: World, d: Deposit, q: Pair) {
    q in s.rows && q.address == d.pair.address && s.rows[q].kind != Migration && s.rows[q].block <= d.block
  }

  /** Every deposit seen has a row for its pair, and a deposit row of its validator no younger than itself. */
  ghost predicate Covered(s: World) {
    forall d :: d in s.seen ==> d.pair in s.rows && exists q :: Covers(s, d, q)
  }

  ghost predicate HasWithdrawn(withdrawn: set<Pair>, address: nat) {
    exists p :: p in withdrawn && p.address == address
  }

  /** Validators with a withdrawal have all the pairs implied so far. */
  ghost predicate WithdrawnAreDone(s: World) {
    forall p :: p in Implied(s.seen, s.updates) && HasWithdrawn(s.withdrawn, p.address) ==> p in s.rows
  }

  /** The reset deletes no row that a deposit at or below its block needs. */
  ghost predicate ResetKeepsDeposits(s: World, block: int) {
    forall d :: d in s.seen && d.block <= block && d.pair in s.rows ==> s.rows[d.pair].block <= block
  }

  /**
   What keeps the pairs completable.  Deposits come in order, and not first for a
   validator that has withdrawn; a withdrawal comes when its validator has all pairs
   implied so far, as after a sync; an update announced later implies nothing new for
   it; a reset deletes no row that a deposit, or a pair implied for such a validator,
   still needs.
   */
  ghost predicate Orderly(s: World, step: Step) {
    match step
    case Deposited(d) =>
      && (d in s.seen || forall e :: e in s.seen ==> e.block <= d.block)
      && (HasWithdrawn(s.withdrawn, d.pair.address) ==> exists e :: e in s.seen && e.pair.address == d.pair.address)
    case Withdrew(w) => forall p :: p in Implied(s.seen, s.updates) && p.address == w.address ==> p in s.rows
    case Announced(u) => forall p :: p in Implied(s.seen, {u}) && HasWithdrawn(s.withdrawn, p.address) ==> p in s.rows
    case Reset(block, still, _) =>
      && ResetKeepsDeposits(s, block)
      && forall p ::
          p in Implied(SeenBy(s, block), UpdatesBy(s, block)) && HasWithdrawn(still, p.address) && p in s.rows
          ==> s.rows[p].block <= block
    case _ => true
  }

  ghost predicate AllOrderly(s: World, steps: seq<Step>)
    decreases |steps|
  {
    steps != [] ==> Orderly(s, steps[0]) && AllOrderly(Apply(s, steps[0]), steps[1..])
  }

  lemma DepositKeepsCovered(s: World, d: Deposit)
    requires Covered(s) && Justified(s) && Orderly(s, Deposited(d))
    ensures Covered(Apply(s, Deposited(d)))
  {
    hide HasWithdrawn;
    var s' := Apply(s, Deposited(d));
    forall e | e in s'.seen ensures e.pair in s'.rows && exists q :: Covers(s', e, q) {
      if e in s.seen {
        var q :| Covers(s, e, q);
        assert Covers(s', e, q);
      } else if d.pair !in s.rows {
        assert Covers(s', d, d.pair);
      } else if b :| FromDeposit(s, d.pair, b) {
        assert Covers(s', d, d.pair);
      } else {
        var b, u :| FromUpdate(s, d.pair, b, u);
        var q :| Covers(s, b, q);
        assert Covers(s', d, q);
      }
    }
  }

  /**
   The exact condition for a reset: every deposit that stays seen keeps its row, or the
   row it shares with an update, if and only if the reset deletes none of those rows.
   */
  lemma {:induction false} ResetCovered(s: World, block: int, still: set<Pair>, life: Lifecycle)
    requires Covered(s)
    ensures Covered(Apply(s, Reset(block, still, life))) <==> ResetKeepsDeposits(s, block)
  {
    hide Refreshed;
    RefreshedMeaning(CutRows(s.rows, block), life);
    var s' := Apply(s, Reset(block, still, life));
    forall d | d in s'.seen ensures exists q :: Covers(s', d, q) {
      var q :| Covers(s, d, q);
      assert Covers(s', d, q);
    }
  }

  lemma StepKeepsCovered(s: World, step: Step)
    requires Covered(s) && Justified(s) && Orderly(s, step) && Enabled(s, step)
    ensures Covered(Apply(s, step))
  {
    hide Candidates, Numbered, NewRow, Targets, Refreshed, Justified, Implied, HasWithdrawn, Covers;
    match step {
      case Deposited(d) => DepositKeepsCovered(s, d);
      case Reset(block, still, life) => ResetCovered(s, block, still, life);
      case Synced(backfilled, life) =>
        RefreshedMeaning(backfilled, life);
        MoreRowsCovered(s, Apply(s, step));
      case _ => MoreRowsCovered(s, Apply(s, step));
    }
  }

  lemma MoreRowsCovered(s: World, t: World)
    requires Covered(s) && t.seen == s.seen
    requires forall p :: p in s.rows ==> p in t.rows && t.rows[p] == s.rows[p].(status := t.rows[p].status)
    ensures Covered(t)
  {
    forall d | d in t.seen ensures exists q :: Covers(t, d, q) {
      var q :| Covers(s, d, q);
      assert Covers(t, d, q);
    }
  }

  lemma DepositKeepsDone(s: World, d: Deposit)
    requires Covered(s) && WithdrawnAreDone(s) && Orderly(s, Deposited(d))
    ensures WithdrawnAreDone(Apply(s, Deposited(d)))
  {
    var t := Apply(s, Deposited(d));
    forall p | p in Implied(t.seen, t.updates) && HasWithdrawn(t.withdrawn, p.address) ensures p in t.rows {
      var e, u :| e in t.seen && u in t.updates && u.block > e.block && u.instance != e.pair.rollup
        && p == Pair(e.pair.address, u.instance);
      if e !in s.seen {
        var f :| f in s.seen && f.pair.address == d.pair.address;
        if u.instance != f.pair.rollup {
          assert Pair(f.pair.address, u.instance) in Implied(s.seen, s.updates);
        }
      } else {
        assert p in Implied(s.seen, s.updates);
      }
    }
  }

  lemma StepKeepsDone(s: World, step: Step)
    requires Covered(s) && WithdrawnAreDone(s) && Orderly(s, step) && Enabled(s, step)
    ensures WithdrawnAreDone(Apply(s, step))
  {
    match step {
      case Deposited(d) => DepositKeepsDone(s, d);
      case Synced(backfilled, life) => RefreshedMeaning(backfilled, life);
      case Announced(u) =>
        assert forall p ::
            p in Implied(s.seen, s.updates + {u}) ==> p in Implied(s.seen, s.updates) || p in Implied(s.seen, {u});
      case Reset(block, still, life) => CutKeepsDone(s, block, still, life);
      case _ =>
    }
  }

  lemma CutKeepsDone(s: World, block: int, still: set<Pair>, life: Lifecycle)
    requires WithdrawnAreDone(s) && still <= s.withdrawn && Orderly(s, Reset(block, still, life))
    ensures WithdrawnAreDone(Apply(s, Reset(block, still, life)))
  {
    RefreshedMeaning(CutRows(s.rows, block), life);
    forall p | p in Implied(SeenBy(s, block), UpdatesBy(s, block)) && HasWithdrawn(still, p.address)
      ensures p in s.rows && s.rows[p].block <= block
    {
      assert p in Implied(s.seen, s.updates);
      var w :| w in still && w.address == p.address;
      assert w in s.withdrawn;
    }
  }

  lemma {:induction false} OrderlyRuns(s: World, steps: seq<Step>)
    requires Possible(s, steps) && AllOrderly(s, steps) && Covered(s) && Justified(s) && WithdrawnAreDone(s)
    ensures var t := Run(s, steps); Covered(t) && Justified(t) && WithdrawnAreDone(t)
    decreases |steps|
  {
    hide Covered, Justified, Enabled, WithdrawnAreDone, Orderly, Apply;
    if steps != [] {
      StepKeepsCovered(s, steps[0]);
      StepKeepsJustified(s, steps[0]);
      StepKeepsDone(s, steps[0]);
      OrderlyRuns(Apply(s, steps[0]), steps[1..]);
    }
  }

  lemma CoveredIsComplete(s: World)
    requires Covered(s) && WithdrawnAreDone(s)
    ensures Complete(s)
  {
    forall p | p in Implied(s.seen, s.updates) && p !in s.rows ensures exists q, u :: Carries(s, q, u, p) {
      var d, u :| d in s.seen && u in s.updates && u.block > d.block && u.instance != d.pair.rollup
        && p == Pair(d.pair.address, u.instance);
      var q :| Covers(s, d, q);
      assert !HasWithdrawn(s.withdrawn, p.address);
      assert Carries(s, q, u, p);
    }
  }

  lemma {:induction false} RunAppend(s: World, steps: seq<Step>, last: Step)
    ensures Run(s, steps + [last]) == Apply(Run(s, steps), last)
    ensures Possible(s, steps + [last]) <==> Possible(s, steps) && Enabled(Run(s, steps), last)
    decreases |steps|
  {
    hide Apply, Enabled;
    if steps == [] {
      assert [last][1..] == [];
    } else {
      assert (steps + [last])[1..] == steps[1..] + [last];
      RunAppend(Apply(s, steps[0]), steps[1..], last);
    }
  }

  lemma {:induction false} OrderlyIsComplete(steps: seq<Step>)
    requires Possible(EMPTY, steps) && AllOrderly(EMPTY, steps)
    ensures Complete(Run(EMPTY, steps))
  {
    hide Run, Possible, AllOrderly;
    assert Covered(EMPTY) && WithdrawnAreDone(EMPTY) && Justified(EMPTY);
    OrderlyRuns(EMPTY, steps);
    CoveredIsComplete(Run(EMPTY, steps));
  }

  /**
   Any interleaving of in-order deposits, retried deposits, updates, syncs, timely
   withdrawals and careful resets that ends in a sync holds exactly the pairs of the
   deposits and those they imply, although a pair first written by a migration keeps
   that row when its own deposit arrives.
   */
  lemma ClosureAfterSync(steps: seq<Step>, sync: Step)
    requires sync.Synced? && Possible(EMPTY, steps + [sync]) && AllOrderly(EMPTY, steps)
    ensures var t := Run(EMPTY, steps + [sync]); t.rows.Keys == Closure(t)
  {
    RunAppend(EMPTY, steps, sync);
    OrderlyIsComplete(steps);
    ExactAfterSync(steps, sync);
  }

  /** Without withdrawals and resets the one requirement is that deposits come in order. */
  lemma SteadyIsOrderly(s: World, step: Step)
    requires s.withdrawn == {} && !step.Withdrew? && !step.Reset?
    requires step.Deposited? ==> step.deposit in s.seen || forall e :: e in s.seen ==> e.block <= step.deposit.block
    ensures Orderly(s, step) && Apply(s, step).withdrawn == {}
  {
  }

  /** Neither withdrawals nor resets, and deposits in order. */
  ghost predicate Steady(s: World, steps: seq<Step>)
    decreases |steps|
  {
    steps != [] ==>
    && !steps[0].Withdrew? && !steps[0].Reset?
    && (steps[0].Deposited? ==> steps[0].deposit in s.seen || forall e ::
        e in s.seen ==> e.block <= steps[0].deposit.block)
    && Steady(Apply(s, steps[0]), steps[1..])
  }

  lemma {:induction false} SteadyRuns(s: World, steps: seq<Step>)
    requires s.withdrawn == {} && Steady(s, steps)
    ensures AllOrderly(s, steps)
    decreases |steps|
  {
    if steps != [] {
      SteadyIsOrderly(s, steps[0]);
      SteadyRuns(Apply(s, steps[0]), steps[1..]);
    }
  }

  /** So without withdrawals and resets any in-order interleaving that ends in a sync has exactly these pairs. */
  lemma {:induction false} SteadyClosure(steps: seq<Step>, sync: Step)
    requires sync.Synced? && Possible(EMPTY, steps + [sync]) && Steady(EMPTY, steps)
    ensures var t := Run(EMPTY, steps + [sync]); t.rows.Keys == Closure(t)
  {
    SteadyRuns(EMPTY, steps);
    ClosureAfterSync(steps, sync);
  }

  // ---- what a reset loses ----

  ghost predicate Mentions(step: Step, p: Pair) {
    step.Reset? || (step.Announced? && step.update.instance == p.rollup)
  }

  /** A deposit whose row a reset deleted stays without one, until another reset or an update to its rollup. */
  lemma {:induction false} LostForGood(s: World, steps: seq<Step>, d: Deposit)
    requires Possible(s, steps) && d.pair !in s.rows && !s.cursor.Before(KeyOf(d))
    requires forall u :: u in s.updates ==> u.instance != d.pair.rollup
    requires forall i :: 0 <= i < |steps| ==> !Mentions(steps[i], d.pair)
    requires forall i ::
        0 <= i < |steps| && steps[i].Deposited? && steps[i].deposit.pair == d.pair ==> steps[i].deposit == d
    ensures d.pair !in Run(s, steps).rows
    decreases |steps|
  {
    if steps != [] {
      var t := Apply(s, steps[0]);
      assert !Mentions(steps[0], d.pair);
      if steps[0].Synced? {
        SyncRows(s, steps[0]);
      }
      assert forall i :: 0 <= i < |steps[1..]| ==> steps[1..][i] == steps[i + 1];
      LostForGood(t, steps[1..], d);
    }
  }

  // ---- where the order does matter ----

  const UNKNOWN := Lifecycle({}, {}, map[])

  lemma RefreshUnknown(rows: Table)
    ensures Refreshed(rows, UNKNOWN) == rows
  {
  }

  /** A backfill with one candidate. */
  lemma BackfillOne(before: Table, updates: set<Update>, withdrawn: set<Pair>, c: Candidate) returns (after: Table)
    requires Candidates(before, updates, withdrawn) == {c}
    ensures Backfilled(before, after, updates, withdrawn)
    ensures exists log :: after == before[Target(c) :=
      Row(Migration, c.update.block, c.update.transaction, log, Active)]
  {
    var transaction := c.update.transaction;
    var log := NumberedFrom(before, transaction) + 1;
    after := before[Target(c) := Row(Migration, c.update.block, transaction, log, Active)];
    assert Targets({c}) == {Target(c)};
    assert StandsFor(Target(c), after[Target(c)], c);
    assert CandidatesOf({c}, transaction) == {c};
  }

  lemma BackfillNone(rows: Table, updates: set<Update>, withdrawn: set<Pair>)
    requires Candidates(rows, updates, withdrawn) == {}
    ensures Backfilled(rows, rows, updates, withdrawn)
  {
    assert Targets({}) == {};
  }

  // One validator: a deposit on rollup 1, rollup 2 becomes canonical, a deposit on
  // rollup 2, a withdrawal from rollup 1, rollup 3 becomes canonical.
  const ON_1 := Pair(1, 1)
  const ON_2 := Pair(1, 2)
  const ON_3 := Pair(1, 3)
  const DEPOSIT_1 := Deposit(ON_1, false, 1, 11, 0)
  const DEPOSIT_2 := Deposit(ON_2, false, 3, 13, 0)
  const UPDATE_2 := Update(0, 2, 2, 12)
  const UPDATE_3 := Update(1, 3, 4, 14)

  /** Adding one step to a possible run. */
  lemma Extend(steps: seq<Step>, step: Step) returns (longer: seq<Step>)
    requires Possible(EMPTY, steps) && Enabled(Run(EMPTY, steps), step)
    ensures longer != [] && longer[|longer| - 1] == step
    ensures Possible(EMPTY, longer) && Run(EMPTY, longer) == Apply(Run(EMPTY, steps), step)
  {
    RunAppend(EMPTY, steps, step);
    longer := steps + [step];
  }

  /** Adding a sync that inserts the one candidate there is. */
  lemma ExtendSync(steps: seq<Step>, c: Candidate) returns (longer: seq<Step>)
    requires Possible(EMPTY, steps)
    requires var s := Run(EMPTY, steps); Candidates(s.rows, s.updates, s.withdrawn) == {c}
    ensures Possible(EMPTY, longer) && longer != [] && longer[|longer| - 1].Synced?
    ensures var s, t := Run(EMPTY, steps), Run(EMPTY, longer); t == s.(rows := t.rows)
    ensures exists log ::
      Run(EMPTY, longer).rows == Run(EMPTY, steps).rows[Target(c) :=
        Row(Migration, c.update.block, c.update.transaction, log, Active)]
  {
    var s := Run(EMPTY, steps);
    var after := BackfillOne(s.rows, s.updates, s.withdrawn, c);
    RefreshUnknown(after);
    longer := Extend(steps, Synced(after, UNKNOWN));
  }

  /** Adding a sync that finds no candidate. */
  lemma ExtendIdle(steps: seq<Step>) returns (longer: seq<Step>)
    requires Possible(EMPTY, steps)
    requires var s := Run(EMPTY, steps); Candidates(s.rows, s.updates, s.withdrawn) == {}
    ensures Possible(EMPTY, longer) && longer != [] && longer[|longer| - 1].Synced?
    ensures Run(EMPTY, longer) == Run(EMPTY, steps)
  {
    var s := Run(EMPTY, steps);
    BackfillNone(s.rows, s.updates, s.withdrawn);
    RefreshUnknown(s.rows);
    longer := Extend(steps, Synced(s.rows, UNKNOWN));
  }

  /** The second deposit processed before the first sync: its row carries the validator on to rollup 3. */
  lemma EarlyDeposit() returns (steps: seq<Step>)
    ensures Possible(EMPTY, steps) && steps != [] && steps[|steps| - 1].Synced?
    ensures var t := Run(EMPTY, steps);
      t.seen == {DEPOSIT_1, DEPOSIT_2} && t.updates == {UPDATE_2, UPDATE_3} && t.withdrawn == {ON_1} && ON_3 in t.rows
  {
    hide Run, Possible;
    steps := Start();
    steps := Extend(steps, Deposited(DEPOSIT_1));
    steps := Extend(steps, Announced(UPDATE_2));
    steps := Extend(steps, Deposited(DEPOSIT_2));
    steps := Extend(steps, Withdrew(ON_1));
    steps := Extend(steps, Announced(UPDATE_3));
    var s := Run(EMPTY, steps);
    assert s.rows == map[ON_1 := DepositRow(DEPOSIT_1), ON_2 := DepositRow(DEPOSIT_2)];
    var c := Candidate(ON_2, UPDATE_3);
    assert IsCandidate(s.rows, s.withdrawn, ON_2, UPDATE_3);
    assert Candidates(s.rows, s.updates, s.withdrawn) == {c};
    steps := ExtendSync(steps, c);
  }

  lemma Start() returns (steps: seq<Step>)
    ensures Possible(EMPTY, steps) && Run(EMPTY, steps) == EMPTY
  {
    steps := [];
  }

  /** Processed after it: the pair is taken by a migration row, which is never a source. */
  lemma LateDeposit() returns (steps: seq<Step>)
    ensures Possible(EMPTY, steps) && steps != [] && steps[|steps| - 1].Synced?
    ensures var t := Run(EMPTY, steps);
      t.seen == {DEPOSIT_1, DEPOSIT_2} && t.updates == {UPDATE_2, UPDATE_3} && t.withdrawn == {ON_1} && ON_3 !in t.rows
  {
    hide Run, Possible;
    steps := Migrated();
    steps := Extend(steps, Deposited(DEPOSIT_2));
    steps := Extend(steps, Withdrew(ON_1));
    steps := Extend(steps, Announced(UPDATE_3));
    var s := Run(EMPTY, steps);
    assert s.rows.Keys == {ON_1, ON_2} && s.rows[ON_2].kind == Migration;
    assert Candidates(s.rows, s.updates, s.withdrawn) == {};
    steps := ExtendIdle(steps);
  }

  /** Runs over the same sources that both end in a sync, with different pairs. */
  ghost predicate Diverge(xs: seq<Step>, ys: seq<Step>) {
    && Possible(EMPTY, xs) && Possible(EMPTY, ys)
    && |xs| > 0 && xs[|xs| - 1].Synced? && |ys| > 0 && ys[|ys| - 1].Synced?
    && SameSources(Run(EMPTY, xs), Run(EMPTY, ys))
    && Run(EMPTY, xs).rows.Keys != Run(EMPTY, ys).rows.Keys
  }

  /** A withdrawal between the update and the sync stops the migration; after the sync it comes too late. */
  lemma EarlyWithdrawal() returns (steps: seq<Step>)
    ensures Possible(EMPTY, steps) && steps != [] && steps[|steps| - 1].Synced?
    ensures var t := Run(EMPTY, steps);
      t.seen == {DEPOSIT_1} && t.updates == {UPDATE_2} && t.withdrawn == {ON_1} && ON_2 !in t.rows
  {
    hide Run, Possible;
    steps := Start();
    steps := Extend(steps, Deposited(DEPOSIT_1));
    steps := Extend(steps, Announced(UPDATE_2));
    steps := Extend(steps, Withdrew(ON_1));
    var s := Run(EMPTY, steps);
    assert s.rows == map[ON_1 := DepositRow(DEPOSIT_1)];
    assert Candidates(s.rows, s.updates, s.withdrawn) == {};
    steps := ExtendIdle(steps);
  }

  lemma LateWithdrawal() returns (steps: seq<Step>)
    ensures Possible(EMPTY, steps) && steps != [] && steps[|steps| - 1].Synced?
    ensures var t := Run(EMPTY, steps);
      t.seen == {DEPOSIT_1} && t.updates == {UPDATE_2} && t.withdrawn == {ON_1} && ON_2 in t.rows
  {
    hide Run, Possible;
    steps := Migrated();
    steps := Extend(steps, Withdrew(ON_1));
    var s := Run(EMPTY, steps);
    assert Candidates(s.rows, s.updates, s.withdrawn) == {};
    steps := ExtendIdle(steps);
  }

  /** The first deposit, an update to rollup 2, and the sync that follows. */
  lemma Migrated() returns (steps: seq<Step>)
    ensures Possible(EMPTY, steps) && steps != []
    ensures var t := Run(EMPTY, steps);
      && t.seen == {DEPOSIT_1} && t.updates == {UPDATE_2} && t.withdrawn == {} && t.cursor == ORIGIN
      && t.rows.Keys == {ON_1, ON_2} && t.rows[ON_1] == DepositRow(DEPOSIT_1)
      && t.rows[ON_2].kind == Migration && t.rows[ON_2].block == UPDATE_2.block
  {
    hide Run, Possible;
    steps := Start();
    steps := Extend(steps, Deposited(DEPOSIT_1));
    steps := Extend(steps, Announced(UPDATE_2));
    var s := Run(EMPTY, steps);
    assert s.rows == map[ON_1 := DepositRow(DEPOSIT_1)];
    assert IsCandidate(s.rows, s.withdrawn, ON_1, UPDATE_2);
    assert Candidates(s.rows, s.updates, s.withdrawn) == {Candidate(ON_1, UPDATE_2)};
    steps := ExtendSync(steps, Candidate(ON_1, UPDATE_2));
  }

  /**
   With withdrawals the interleaving does matter, in two ways: of the withdrawal
   against the sync, and of a second deposit against the sync, when the withdrawn
   deposit is what gave the second one's pair its row.
   */
  lemma WithdrawalsBreakConfluence()
    ensures exists xs: seq<Step>, ys: seq<Step> :: Diverge(xs, ys) && |Run(EMPTY, xs).seen| == 1
    ensures exists xs: seq<Step>, ys: seq<Step> :: Diverge(xs, ys) && |Run(EMPTY, xs).seen| == 2
  {
    hide Run, Possible;
    var xs := EarlyWithdrawal();
    var ys := LateWithdrawal();
    assert ON_2 in Run(EMPTY, ys).rows.Keys && ON_2 !in Run(EMPTY, xs).rows.Keys;
    assert Diverge(xs, ys);
    xs := EarlyDeposit();
    ys := LateDeposit();
    assert ON_3 in Run(EMPTY, xs).rows.Keys && ON_3 !in Run(EMPTY, ys).rows.Keys;
    assert Diverge(xs, ys);
  }

  const SECOND_LATER := UPDATE_2.(block := 5)
  const HARMFUL := Reset(4, {}, UNKNOWN)

  /** The deposit on rollup 2 (block 3) arrives when its pair already has the row of an update of block 5. */
  lemma DepositBehindUpdate() returns (steps: seq<Step>)
    ensures Possible(EMPTY, steps)
    ensures var t := Run(EMPTY, steps);
      && t.seen == {DEPOSIT_1, DEPOSIT_2} && t.updates == {SECOND_LATER} && t.withdrawn == {}
      && t.rows.Keys == {ON_1, ON_2} && t.rows[ON_1] == DepositRow(DEPOSIT_1) && t.rows[ON_2].block == 5
  {
    hide Run, Possible;
    steps := Start();
    steps := Extend(steps, Deposited(DEPOSIT_1));
    steps := Extend(steps, Announced(SECOND_LATER));
    var s := Run(EMPTY, steps);
    assert s.rows == map[ON_1 := DepositRow(DEPOSIT_1)];
    assert IsCandidate(s.rows, s.withdrawn, ON_1, SECOND_LATER);
    assert Candidates(s.rows, s.updates, s.withdrawn) == {Candidate(ON_1, SECOND_LATER)};
    steps := ExtendSync(steps, Candidate(ON_1, SECOND_LATER));
    steps := Extend(steps, Deposited(DEPOSIT_2));
    assert Run(EMPTY, steps).rows[ON_2].block == 5;
  }

  /**
   A reset can lose a deposit for good.  The reorg takes the update of block 5 away, the
   reset to block 4 deletes the row, and the cursor is then past the deposit of block 3:
   the run ends in a sync without the pair, and no continuation on a chain without an
   update to that rollup brings it back, short of another reset.
   */
  lemma ResetLosesDeposit() returns (steps: seq<Step>)
    ensures Possible(EMPTY, steps) && steps != [] && steps[|steps| - 1].Synced?
    ensures DEPOSIT_2 in Run(EMPTY, steps).seen && ON_2 !in Run(EMPTY, steps).rows
    ensures forall more: seq<Step> ::
      && Possible(Run(EMPTY, steps), more)
      && (forall i :: 0 <= i < |more| ==> !Mentions(more[i], ON_2))
      && (forall i ::
          0 <= i < |more| && more[i].Deposited? && more[i].deposit.pair == ON_2 ==> more[i].deposit == DEPOSIT_2)
      ==> ON_2 !in Run(Run(EMPTY, steps), more).rows
  {
    hide Run, Possible;
    steps := DepositBehindUpdate();
    var before := Run(EMPTY, steps);
    steps := Extend(steps, HARMFUL);
    RefreshUnknown(CutRows(before.rows, 4));
    var s := Run(EMPTY, steps);
    assert s.rows == map[ON_1 := DepositRow(DEPOSIT_1)] && s.updates == {};
    assert Candidates(s.rows, s.updates, s.withdrawn) == {};
    steps := ExtendIdle(steps);
    forall more: seq<Step> |
      && Possible(Run(EMPTY, steps), more)
      && (forall i :: 0 <= i < |more| ==> !Mentions(more[i], ON_2))
      && (forall i ::
          0 <= i < |more| && more[i].Deposited? && more[i].deposit.pair == ON_2 ==> more[i].deposit == DEPOSIT_2)
      ensures ON_2 !in Run(Run(EMPTY, steps), more).rows
    {
      LostForGood(Run(EMPTY, steps), more, DEPOSIT_2);
    }
  }

  // ---- statuses over runs ----

  /** No step is a reset, and every sync finds the pair's withdrawal finalized, or initiated, if it was so. */
  ghost predicate Growing(steps: seq<Step>, p: Pair, finalized: bool, initiated: bool) {
    forall i :: 0 <= i < |steps| ==>
      && !steps[i].Reset?
      && (steps[i].Synced? && finalized ==> p in steps[i].life.finalized)
      && (steps[i].Synced? && initiated ==> p in steps[i].life.initiated)
  }

  /**
   A status does not go back.  Once a sync has seen the withdrawal of a known validator's
   pair initiated, or finalized, and rows are not taken out of the withdrawal tables, the
   pair's row stays at least exiting, or exited, whatever steps but resets follow.
   */
  lemma {:induction false} StatusNeverBack(s: World, steps: seq<Step>, p: Pair, finalized: bool, initiated: bool)
    requires Possible(s, steps) && p in s.rows && Growing(steps, p, finalized, initiated)
    requires (finalized ==> s.rows[p].status == Exited) && (initiated ==> s.rows[p].status in {Exiting, Exited})
    ensures p in Run(s, steps).rows
    ensures finalized ==> Run(s, steps).rows[p].status == Exited
    ensures initiated ==> Run(s, steps).rows[p].status in {Exiting, Exited}
    decreases |steps|
  {
    if steps != [] {
      var step, t := steps[0], Apply(s, steps[0]);
      assert forall i :: 0 <= i < |steps[1..]| ==> steps[1..][i] == steps[i + 1];
      if step.Synced? {
        SyncedStatus(s, step, p);
      }
      hide Apply, Enabled;
      StatusNeverBack(t, steps[1..], p, finalized, initiated);
    }
  }

  lemma {:induction false} SyncedStatus(s: World, step: Step, p: Pair)
    requires step.Synced? && Enabled(s, step) && p in s.rows
    ensures var t := Apply(s, step);
      p in t.rows && if p.address in step.life.current then ShowsStatus(p, t.rows[p].status, step.life)
        else t.rows[p].status == s.rows[p].status
  {
    hide Refreshed, ShowsStatus;
    SameRows(step.backfilled, step.life);
    RefreshShowsStatus(step.backfilled, step.life, p);
  }
}
