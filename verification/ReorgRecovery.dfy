/**
 The detector and an event-copy materializer together, as the main loop runs them:
 a check, the reset it may order, then a poll, over and over.
 */
module ReorgRecovery {
  import opened EventLog
  import opened Replay
  import opened EventCopy
  import opened ReorgDetector
  import opened ReorgWalk

  /** The batch size of a poll, and the row at which it fails (none if past the batch). */
  datatype PollCall = PollCall(batchSize: nat, failAt: nat)

  ghost function Polled<B(!new)>(log: seq<Event<B>>, v: View<Table<B>>, call: PollCall): View<Table<B>> {
    PollView(CopyRow<B>, log, v, call.batchSize, call.failAt)
  }

  /** Rounds of the main loop while Ponder's tables stay as they are. */
  ghost function Rounds<B(!new)>(d: Memory, v: View<Table<B>>, rows: seq<BlockHash>, log: seq<Event<B>>,
      polls: seq<PollCall>): View<Table<B>>
    decreases |polls|
  {
    if polls == [] then v
    else
      var (after, verdict) := Check(d, rows);
      var obeyed := Obey(v, CutAfter<B>, verdict);
      Rounds(after, Polled(log, obeyed, polls[0]), rows, log, polls[1..])
  }

  function AsOps(polls: seq<PollCall>): (ops: seq<Op>)
    ensures |ops| == |polls|
  {
    if polls == [] then [] else [Poll(polls[0].batchSize, polls[0].failAt)] + AsOps(polls[1..])
  }

  lemma {:induction false} PollsAreBackward<B(!new)>(log: seq<Event<B>>, v: View<Table<B>>, polls: seq<PollCall>,
      floor: nat)
    ensures Backward(CopyRow<B>, log, v, AsOps(polls), floor)
    decreases |polls|
  {
    if polls != [] {
      PollsAreBackward(log, Polled(log, v, polls[0]), polls[1..], floor);
      assert AsOps(polls)[1..] == AsOps(polls[1..]);
    }
  }

  /** Once the detector is quiet the rounds are plain polls. */
  lemma {:induction false} QuietRounds<B(!new)>(d: Memory, v: View<Table<B>>, rows: seq<BlockHash>,
      log: seq<Event<B>>, polls: seq<PollCall>)
    requires Windowed(d) && Check(d, rows).1.Quiet?
    ensures Rounds(d, v, rows, log, polls) == Run(CopyRow<B>, log, v, AsOps(polls))
    decreases |polls|
  {
    hide Check;
    if polls != [] {
      CheckKeeps(d, rows);
      SecondCheck(d, rows);
      QuietRounds(Check(d, rows).0, Polled(log, v, polls[0]), rows, log, polls[1..]);
      assert AsOps(polls)[1..] == AsOps(polls[1..]);
    }
  }

  // ---- between the first reset and the last ----

  /** The new chain's rows at or below (block, 0) are in t exactly when they are in t0. */
  ghost predicate SameBelow<B(!new)>(new_: seq<Event<B>>, t0: Table<B>, block: int, t: Table<B>) {
    forall e :: e in new_ && !Cursor(block, 0).Before(e.key)
      ==> ((e.id in t && t[e.id] == e) <==> (e.id in t0 && t0[e.id] == e))
  }

  /** What all steps between the first reset and the one to the given block keep. */
  ghost predicate Underway<B(!new)>(new_: seq<Event<B>>, t0: Table<B>, block: int, v: View<Table<B>>) {
    && Rank(new_, Cursor(block, 0)) <= Rank(new_, v.cursor)
    && SoundUpTo(new_, v.table, block) && SameBelow(new_, t0, block, v.table)
  }

  lemma UnderwayParts<B(!new)>(new_: seq<Event<B>>, t0: Table<B>, block: int, v: View<Table<B>>)
    requires Underway(new_, t0, block, v)
    ensures SoundUpTo(new_, v.table, block) && SameBelow(new_, t0, block, v.table)
  {
  }

  lemma AgreeBelow<B(!new)>(old_: seq<Event<B>>, new_: seq<Event<B>>, block: int, lower: int)
    requires AgreeUpTo(old_, new_, block) && lower <= block
    ensures AgreeUpTo(old_, new_, lower)
  {
  }

  /** Copying a row past (block, 0) leaves everything at or below it alone. */
  lemma CopyKeepsBelow<B(!new)>(new_: seq<Event<B>>, t0: Table<B>, block: int, t: Table<B>, e: Event<B>)
    requires UniqueIds(new_) && e in new_ && Cursor(block, 0).Before(e.key) && ORIGIN.Before(e.key)
    requires SoundUpTo(new_, t, block) && SameBelow(new_, t0, block, t)
    ensures SoundUpTo(new_, CopyRow(t, e), block) && SameBelow(new_, t0, block, CopyRow(t, e))
  {
    forall x | x in new_ && !Cursor(block, 0).Before(x.key) ensures x.id != e.id {
      var k :| 0 <= k < |new_| && new_[k] == x;
      var j :| 0 <= j < |new_| && new_[j] == e;
    }
  }

  lemma PollKeepsUnderway<B(!new)>(new_: seq<Event<B>>, t0: Table<B>, block: int, v: View<Table<B>>, call: PollCall)
    requires Sorted(new_) && UniqueIds(new_) && Rank(new_, ORIGIN) <= Rank(new_, Cursor(block, 0))
    requires Underway(new_, t0, block, v)
    ensures Underway(new_, t0, block, Polled(new_, v, call))
  {
    var floor := Rank(new_, Cursor(block, 0));
    var J := (t: Table<B>, i: nat) => SoundUpTo(new_, t, block) && SameBelow(new_, t0, block, t);
    assert Replayable(CopyRow<B>, new_, floor, J) by {
      hide SoundUpTo, SameBelow, CopyRow, UniqueIds, Rank;
      forall t, i | floor <= i < |new_| && J(t, i) ensures J(CopyRow(t, new_[i]), i + 1) {
        RankSplits(new_, ORIGIN);
        RankSplits(new_, Cursor(block, 0));
        CopyKeepsBelow(new_, t0, block, t, new_[i]);
      }
    }
    PollKeeps(CopyRow<B>, new_, floor, J, v, call.batchSize, call.failAt);
  }

  lemma ResetKeepsUnderway<B(!new)>(new_: seq<Event<B>>, t0: Table<B>, block: int, v: View<Table<B>>, later: int)
    requires Sorted(new_) && block <= later
    requires SoundUpTo(new_, v.table, block) && SameBelow(new_, t0, block, v.table)
    ensures Underway(new_, t0, block, ResetView(v, later))
  {
    RankMonotone(new_, Cursor(block, 0), Cursor(later, 0));
  }

  lemma {:induction false} PendingSame<B(!new)>(new_: seq<Event<B>>, t0: Table<B>, block: int, t: Table<B>)
    requires SameBelow(new_, t0, block, t)
    ensures NothingPending(new_, t, block) <==> NothingPending(new_, t0, block)
  {
  }

  /**
   The last reset, the poll of its round, and the quiet rounds after it: exact if and only if
   nothing was pending at the start.
   */
  lemma {:induction false} LastReset<B(!new)>(after: Memory, v: View<Table<B>>, rows: seq<BlockHash>,
      new_: seq<Event<B>>, polls: seq<PollCall>,
                           t0: Table<B>, block: int)
    requires Windowed(after) && Check(after, rows).1.Quiet? && polls != []
    requires Sorted(new_) && UniqueIds(new_) && Rank(new_, ORIGIN) <= Rank(new_, Cursor(block, 0))
    requires SoundUpTo(new_, v.table, block) && SameBelow(new_, t0, block, v.table)
    requires Idle(new_, Rounds(after, Polled(new_, ResetView(v, block), polls[0]), rows, new_, polls[1..]))
    ensures IsCopyOf(Rounds(after, Polled(new_, ResetView(v, block), polls[0]), rows, new_, polls[1..]).table,
      After(new_, ORIGIN))
            <==> NothingPending(new_, t0, block)
  {
    hide Check, SoundUpTo, SameBelow, NothingPending, IsCopyOf, Sorted, UniqueIds, After, Rank, Windowed, CopyRow;
    PendingSame(new_, t0, block, v.table);
    QuietRounds(after, Polled(new_, ResetView(v, block), polls[0]), rows, new_, polls[1..]);
    PollsAreBackward(new_, ResetView(v, block), polls, Rank(new_, Cursor(block, 0)));
    assert AsOps(polls)[1..] == AsOps(polls[1..]);
    ResetThenIdle(new_, block, v, AsOps(polls));
  }

  lemma WalkingIsWindowed(d: Memory, rows: seq<BlockHash>, lo: nat, top: nat, fork: nat, prev: nat)
    requires Walking(d, rows, lo, top, fork, prev)
    ensures Windowed(d)
  {
  }

  /** A round whose check reports a reorg: the reset it orders, then its poll. */
  lemma {:induction false} ReportRound<B(!new)>(d: Memory, v: View<Table<B>>, rows: seq<BlockHash>,
      new_: seq<Event<B>>, polls: seq<PollCall>, block: nat)
    requires Check(d, rows).1 == Reorg(block, false) && polls != []
    ensures Rounds(d, v, rows, new_, polls)
            == Rounds(Check(d, rows).0, Polled(new_, ResetView(v, block - SAFETY_MARGIN), polls[0]), rows, new_,
              polls[1..])
  {
    hide Check;
  }

  /** After a report, while the fork still lies below it. */
  lemma {:induction false} WalkRounds<B(!new)>(
    d: Memory, v: View<Table<B>>, rows: seq<BlockHash>, new_: seq<Event<B>>, polls: seq<PollCall>,
    lo: nat, top: nat, fork: nat, prev: nat, t0: Table<B>)
    requires Walking(d, rows, lo, top, fork, prev) && fork < prev && |polls| >= |WalkDown(prev, fork)|
    requires Sorted(new_) && UniqueIds(new_) && Rank(new_, ORIGIN) <= Rank(new_, Cursor(fork - SAFETY_MARGIN, 0))
    requires Underway(new_, t0, fork - SAFETY_MARGIN, v)
    requires Idle(new_, Rounds(d, v, rows, new_, polls))
    ensures IsCopyOf(Rounds(d, v, rows, new_, polls).table, After(new_, ORIGIN))
            <==> NothingPending(new_, t0, fork - SAFETY_MARGIN)
    decreases prev
  {
    hide Check, Walking, Underway, SoundUpTo, SameBelow, NothingPending, IsCopyOf, Idle, Sorted, UniqueIds, Polled,
      ResetView;
    UnderwayParts(new_, t0, fork - SAFETY_MARGIN, v);
    StepDown(d, rows, lo, top, fork, prev);
    var next, after, block := NextReport(prev, fork), Check(d, rows).0, fork - SAFETY_MARGIN;
    var reset := ResetView(v, next - SAFETY_MARGIN);
    ReportRound(d, v, rows, new_, polls, next);
    if next == fork {
      WalkingIsWindowed(after, rows, lo, top, fork, next);
      LastCheck(after, rows, lo, top, fork, next);
      LastReset(after, v, rows, new_, polls, t0, block);
    } else {
      ResetKeepsUnderway(new_, t0, block, v, next - SAFETY_MARGIN);
      PollKeepsUnderway(new_, t0, block, reset, polls[0]);
      WalkRounds(after, Polled(new_, reset, polls[0]), rows, new_, polls[1..], lo, top, fork, next, t0);
    }
  }

  /**
   The whole recovery, from the regression to the idle table.  Ponder has regressed to
   top and carries the new chain, which agrees with the old one below the fork; the
   table was materialized from the old chain.  After at least as many rounds as the
   walk back takes, with any batch sizes and failures, an idle table is exactly the
   new chain's events if and only if, before the first check, nothing was pending at
   or below the block of the last reset.
   */
  lemma {:induction false} RecoveryEndToEnd<B(!new)>(
    d: Memory, v: View<Table<B>>, rows: seq<BlockHash>, old_: seq<Event<B>>, new_: seq<Event<B>>, polls: seq<PollCall>,
    lo: nat, top: nat, fork: nat)
    requires Regressed(d, rows, lo, top, fork) && |polls| > |WalkDown(top, fork)|
    requires Sorted(old_) && Sorted(new_) && UniqueIds(new_) && AgreeUpTo(old_, new_, fork - 1)
    requires Materialized(old_, v)
    requires Rank(new_, ORIGIN) <= Rank(new_, Cursor((if fork < top then fork else top) - SAFETY_MARGIN, 0))
    requires Idle(new_, Rounds(d, v, rows, new_, polls))
    ensures IsCopyOf(Rounds(d, v, rows, new_, polls).table, After(new_, ORIGIN))
            <==> NothingPending(new_, v.table, (if fork < top then fork else top) - SAFETY_MARGIN)
  {
    hide Check, Walking, Regressed, Underway, SoundUpTo, NothingPending, IsCopyOf, Idle, Sorted, UniqueIds, Polled,
      ResetView, Materialized;
    FirstReport(d, rows, lo, top, fork);
    var after, block := Check(d, rows).0, (if fork < top then fork else top) - SAFETY_MARGIN;
    var reset := ResetView(v, top - SAFETY_MARGIN);
    ReportRound(d, v, rows, new_, polls, top);
    AgreeBelow(old_, new_, fork - 1, block);
    MaterializedIsSound(old_, new_, block, v);
    if fork < top {
      ResetKeepsUnderway(new_, v.table, block, v, top - SAFETY_MARGIN);
      PollKeepsUnderway(new_, v.table, block, reset, polls[0]);
      WalkRounds(after, Polled(new_, reset, polls[0]), rows, new_, polls[1..], lo, top, fork, top, v.table);
    } else {
      WalkingIsWindowed(after, rows, lo, top, fork, top);
      LastCheck(after, rows, lo, top, fork, top);
      LastReset(after, v, rows, new_, polls, v.table, block);
    }
  }

  // ---- reorgs that are not seen, and resets that stop halfway ----

  lemma {:induction false} RoundsExactIff<B(!new)>(d: Memory, v: View<Table<B>>, rows: seq<BlockHash>,
      new_: seq<Event<B>>,
                                                   polls: seq<PollCall>)
    requires Windowed(d) && Check(d, rows).1.Quiet?
    requires Sorted(new_) && UniqueIds(new_) && Rank(new_, ORIGIN) <= Rank(new_, v.cursor)
    requires Idle(new_, Rounds(d, v, rows, new_, polls))
    ensures IsCopyOf(Rounds(d, v, rows, new_, polls).table, After(new_, ORIGIN))
            <==> AllSound(new_, v.table) && NothingBehind(new_, v.table, v.cursor)
  {
    hide *;
    QuietRounds(d, v, rows, new_, polls);
    PollsAreBackward(new_, v, polls, Rank(new_, v.cursor));
    CatchUpExactIff(new_, v, AsOps(polls));
  }

  /**
   A reorg that Ponder has been through by the next check, having grown back to the
   checkpoint.  Nothing is reset, and whatever rounds follow, an idle table is exactly the
   new chain's events if and only if it held no row of the old chain only, and none of the
   new chain's events lies behind the cursor without its row.
   */
  lemma {:induction false} UnseenReorg<B(!new)>(d: Memory, v: View<Table<B>>, rows: seq<BlockHash>, new_: seq<Event<B>>,
                                                polls: seq<PollCall>)
    requires Windowed(d) && NoneAbove(d) && d.checkpoint <= MaxBlock(rows)
    requires Sorted(new_) && UniqueIds(new_) && Rank(new_, ORIGIN) <= Rank(new_, v.cursor)
    requires Idle(new_, Rounds(d, v, rows, new_, polls))
    ensures IsCopyOf(Rounds(d, v, rows, new_, polls).table, After(new_, ORIGIN))
            <==> AllSound(new_, v.table) && NothingBehind(new_, v.table, v.cursor)
  {
    hide *;
    SeenIff(d, rows);
    VerdictCases(Check(d, rows).1);
    RoundsExactIff(d, v, rows, new_, polls);
  }

  /** Then a row of the old chain stays, with or without an idle poll at the end. */
  lemma {:induction false} OrphanStays<B(!new)>(d: Memory, v: View<Table<B>>, rows: seq<BlockHash>, new_: seq<Event<B>>,
                                                polls: seq<PollCall>, id: nat)
    requires Windowed(d) && NoneAbove(d) && d.checkpoint <= MaxBlock(rows) && Sorted(new_) && id in v.table
    ensures var w := Rounds(d, v, rows, new_, polls); id in w.table && w.table[id] == v.table[id]
  {
    hide *;
    SeenIff(d, rows);
    VerdictCases(Check(d, rows).1);
    QuietRounds(d, v, rows, new_, polls);
    PollsAreBackward(new_, v, polls, Rank(new_, v.cursor));
    RowStays(new_, v, AsOps(polls), id);
  }

  lemma {:induction false} VerdictCases(v: Verdict)
    ensures v.Quiet? || v.Reorg?
  {
  }

  lemma {:induction false} InterruptedWindow(d: Memory, block: nat)
    requires Windowed(d)
    ensures Windowed(Interrupted(d, block))
  {
  }

  /**
   A later reset of the walk back that stops after the tables are reset and cached hashes
   deleted, and before the checkpoint moves.  The walk is over, and whatever rounds follow,
   an idle table is exactly the new chain's events if and only if, up to the block of that
   reset, it held no row of the old chain only and nothing was pending.
   */
  lemma {:induction false} InterruptedRecovery<B(!new)>(
    d: Memory, v: View<Table<B>>, rows: seq<BlockHash>, new_: seq<Event<B>>, polls: seq<PollCall>,
    lo: nat, top: nat, fork: nat, prev: nat)
    requires Walking(d, rows, lo, top, fork, prev) && fork < prev
    requires Sorted(new_) && UniqueIds(new_)
    requires var block := NextReport(prev, fork) - SAFETY_MARGIN;
      && Rank(new_, ORIGIN) <= Rank(new_, Cursor(block, 0))
      && Idle(new_, Rounds(Interrupted(d, NextReport(prev, fork)), ResetView(v, block), rows, new_, polls))
    ensures var block := NextReport(prev, fork) - SAFETY_MARGIN;
      IsCopyOf(Rounds(Interrupted(d, NextReport(prev, fork)), ResetView(v, block), rows, new_, polls).table,
        After(new_, ORIGIN))
      <==> SoundUpTo(new_, v.table, block) && NothingPending(new_, v.table, block)
  {
    hide Check, Walking, Windowed, Interrupted, Rounds, Sorted, UniqueIds, Rank, Idle, After, IsCopyOf;
    var block, cut := NextReport(prev, fork) - SAFETY_MARGIN, Interrupted(d, NextReport(prev, fork));
    WalkingIsWindowed(d, rows, lo, top, fork, prev);
    InterruptedWindow(d, NextReport(prev, fork));
    InterruptedWalk(d, rows, lo, top, fork, prev);
    RoundsExactIff(cut, ResetView(v, block), rows, new_, polls);
    CutMeans(new_, v.table, block);
  }

  /**
   So if that reset went below the fork, as it does from nine blocks above the fork on, the
   table recovers as it would have, although the cache keeps hashes of the old chain.
   */
  lemma {:induction false} InterruptedNearFork<B(!new)>(
    d: Memory, v: View<Table<B>>, rows: seq<BlockHash>, new_: seq<Event<B>>, polls: seq<PollCall>,
    lo: nat, top: nat, fork: nat, prev: nat)
    requires Walking(d, rows, lo, top, fork, prev) && fork < prev && NextReport(prev, fork) <= fork + 9
    requires Sorted(new_) && UniqueIds(new_) && SoundUpTo(new_, v.table, fork - 1)
    requires var block := NextReport(prev, fork) - SAFETY_MARGIN;
      && Rank(new_, ORIGIN) <= Rank(new_, Cursor(block, 0))
      && Idle(new_, Rounds(Interrupted(d, NextReport(prev, fork)), ResetView(v, block), rows, new_, polls))
    ensures var block := NextReport(prev, fork) - SAFETY_MARGIN;
      IsCopyOf(Rounds(Interrupted(d, NextReport(prev, fork)), ResetView(v, block), rows, new_, polls).table,
        After(new_, ORIGIN))
      <==> NothingPending(new_, v.table, block)
  {
    hide Check, Walking, Interrupted, Rounds, Sorted, UniqueIds, Rank, Idle, After, IsCopyOf, NothingPending;
    var block := NextReport(prev, fork) - SAFETY_MARGIN;
    assert SoundUpTo(new_, v.table, block);
    InterruptedRecovery(d, v, rows, new_, polls, lo, top, fork, prev);
  }

  /**
   What a regression does to the rows.  If Ponder is more than two hundred blocks behind
   the checkpoint it is indexing anew, and every row stays; otherwise exactly the rows of the
   blocks up to ten below its top stay.  The cursor goes back in both cases.
   */
  lemma {:induction false} RegressionRows<B(!new)>(d: Memory, rows: seq<BlockHash>, v: View<Table<B>>, id: nat)
    requires 0 < MaxBlock(rows) < d.checkpoint
    ensures var w := Obey(v, CutAfter<B>, Check(d, rows).1);
      && w.cursor == Cursor(MaxBlock(rows) - 10, 0)
      && (id in w.table <==>
            id in v.table && (d.checkpoint - MaxBlock(rows) > 200 || v.table[id].key.block <= MaxBlock(rows) - 10))
      && (id in w.table ==> w.table[id] == v.table[id])
  {
    hide MaxBlock, AfterReorg;
  }
}
