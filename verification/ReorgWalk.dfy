/**
 The walk back to the fork: after a regression, repeated checks step down the cache
 in strides of nine blocks until they report the first block that differs.
 */
module ReorgWalk {
  import opened ReorgDetector

  ghost predicate DistinctBlocks(rows: seq<BlockHash>) {
    forall i, j :: 0 <= i < j < |rows| ==> rows[i].block != rows[j].block
  }

  /**
   Cache and Ponder log against each other: both hold every block from lo on, the log
   up to top, and up to top they agree exactly on the blocks below fork.
   */
  ghost predicate Aligned(cache: map<nat, nat>, rows: seq<BlockHash>, lo: nat, top: nat, fork: nat) {
    && DistinctBlocks(rows) && MaxBlock(rows) == top && 0 < top
    && lo <= fork
    && (forall b: nat :: b in cache ==> lo <= b)
    && (forall b: nat :: lo <= b <= top ==> b in HashMap(rows))
    && (forall b: nat :: b in cache && b <= top && b in HashMap(rows) ==> (cache[b] == HashMap(rows)[b] <==> b < fork))
  }

  /** Before the first check: a dense cache reaching down to lo, Ponder regressed to top, the fork still cached. */
  ghost predicate Regressed(d: Memory, rows: seq<BlockHash>, lo: nat, top: nat, fork: nat) {
    && Windowed(d) && Aligned(d.cache, rows, lo, top, fork)
    && top < d.checkpoint <= top + CACHE_DEPTH
    && fork in d.cache
    && (forall b: nat :: lo <= b < d.checkpoint ==> b in d.cache)
  }

  /** After a report of block prev. */
  ghost predicate Walking(d: Memory, rows: seq<BlockHash>, lo: nat, top: nat, fork: nat, prev: nat) {
    && Aligned(d.cache, rows, lo, top, fork)
    && prev <= top <= lo + CACHE_DEPTH && (prev == top || fork <= prev)
    && d.checkpoint == prev - SAFETY_MARGIN
    && (forall b: nat :: b in d.cache <==> lo <= b < prev)
  }

  /** The block reported after prev. */
  function NextReport(prev: nat, fork: nat): (next: nat)
    requires fork < prev
    ensures fork <= next < prev
  {
    if prev - 9 >= fork then prev - 9 else fork
  }

  /** All reports after the one of prev. */
  function WalkDown(prev: nat, fork: nat): seq<nat>
    decreases prev
  {
    if fork < prev then
      var next := NextReport(prev, fork);
      [next] + WalkDown(next, fork)
    else []
  }

  /** The first k verdicts against a frozen log. */
  function Verdicts(d: Memory, rows: seq<BlockHash>, k: nat): seq<Verdict>
    decreases k
  {
    if k == 0 then []
    else
      var (after, verdict) := Check(d, rows);
      [verdict] + Verdicts(after, rows, k - 1)
  }

  function Reports(blocks: seq<nat>): seq<Verdict> {
    if blocks == [] then [] else [Reorg(blocks[0], false)] + Reports(blocks[1..])
  }

  lemma {:induction false} HashMapExact(rows: seq<BlockHash>, r: BlockHash)
    requires DistinctBlocks(rows) && r in rows
    ensures r.block in HashMap(rows) && HashMap(rows)[r.block] == r.hash
  {
    if r != rows[0] {
      var k :| 0 <= k < |rows| && rows[k] == r;
      assert rows[1..][k - 1] == r;
      HashMapExact(rows[1..], r);
    }
  }

  lemma {:induction false} BetweenDistinct(rows: seq<BlockHash>, lo: int, hi: int)
    requires DistinctBlocks(rows)
    ensures DistinctBlocks(Between(rows, lo, hi))
  {
    if rows != [] {
      BetweenDistinct(rows[1..], lo, hi);
      forall x | x in Between(rows[1..], lo, hi) ensures x.block != rows[0].block {
        var k :| 0 <= k < |rows[1..]| && rows[1..][k] == x;
        assert rows[k + 1] == x;
      }
    }
  }

  // ---- how the cache fills ----

  /**
   What a quiet check that finds new blocks remembers: among the blocks of the last two
   hundred below the log's top, those cached before, with their hash, and those logged
   above the checkpoint, with Ponder's; and nothing else.
   */
  lemma {:induction false} QuietRemembers(d: Memory, rows: seq<BlockHash>, b: nat)
    requires DistinctBlocks(rows) && Check(d, rows).1.Quiet? && 0 < MaxBlock(rows) && d.checkpoint < MaxBlock(rows)
    ensures var after := Check(d, rows).0;
      && after.checkpoint == MaxBlock(rows)
      && (b in after.cache <==>
            && MaxBlock(rows) - 200 <= b
            && (b in d.cache || exists r :: r in rows && r.block == b && d.checkpoint < b))
      && (b in after.cache && b in d.cache ==> after.cache[b] == d.cache[b])
      && (b in after.cache && b !in d.cache ==> BlockHash(b, after.cache[b]) in rows)
  {
    hide MaxBlock, Between, FirstMismatch, HashMap, IsMismatch;
    var fetched := Between(rows, d.checkpoint, MaxBlock(rows));
    HashMapRows(fetched);
    assert forall r :: r in rows ==> r.block <= MaxBlock(rows) by { TopBounds(rows); }
  }

  lemma {:induction false} TopBounds(rows: seq<BlockHash>)
    ensures forall r :: r in rows ==> r.block <= MaxBlock(rows)
  {
  }

  /** Ponder's log of a chain: one row for every block from a first one on, up to the top. */
  ghost predicate LogOf(rows: seq<BlockHash>, chain: nat -> nat, first: nat) {
    && DistinctBlocks(rows)
    && (forall r :: r in rows ==> first <= r.block && r.hash == chain(r.block))
    && (forall b: nat :: first <= b <= MaxBlock(rows) ==> BlockHash(b, chain(b)) in rows)
  }

  /** The cache holds the checkpoint and the two hundred blocks below it, or all there are, with the chain's hashes. */
  ghost predicate Holds(d: Memory, chain: nat -> nat, first: nat) {
    forall b: nat ::
      && (b in d.cache <==> first <= b && d.checkpoint - 200 <= b <= d.checkpoint)
      && (b in d.cache ==> d.cache[b] == chain(b))
  }

  lemma {:induction false} HoldsStep(d: Memory, rows: seq<BlockHash>, chain: nat -> nat, first: nat)
    requires Holds(d, chain, first) && LogOf(rows, chain, first) && 0 < first
    requires MaxBlock(rows) == 0 || d.checkpoint <= MaxBlock(rows)
    ensures Check(d, rows).1.Quiet? && Holds(Check(d, rows).0, chain, first)
    ensures Check(d, rows).0.checkpoint == if MaxBlock(rows) == 0 then d.checkpoint else MaxBlock(rows)
  {
    hide Check, MaxBlock, DistinctBlocks;
    SeenIff(d, rows);
    VerdictKinds(Check(d, rows).1);
    if MaxBlock(rows) == 0 || MaxBlock(rows) == d.checkpoint {
      NothingNew(d, rows);
    } else {
      var after := Check(d, rows).0;
      TopBounds(rows);
      forall b: nat
        ensures b in after.cache <==> first <= b && after.checkpoint - 200 <= b <= after.checkpoint
        ensures b in after.cache ==> after.cache[b] == chain(b)
      {
        QuietRemembers(d, rows, b);
        if first <= b && d.checkpoint < b <= MaxBlock(rows) {
          assert BlockHash(b, chain(b)) in rows && BlockHash(b, chain(b)).block == b;
        }
      }
    }
  }

  lemma {:induction false} VerdictKinds(v: Verdict)
    ensures v.Quiet? || v.Reorg?
  {
  }

  lemma {:induction false} NothingNew(d: Memory, rows: seq<BlockHash>)
    requires MaxBlock(rows) == 0 || MaxBlock(rows) == d.checkpoint
    ensures Check(d, rows) == (d, Quiet)
  {
  }

  /** While Ponder follows one chain and never falls back, of whatever height, the cache stays filled. */
  lemma {:induction false} FilledByRuns(d: Memory, logs: seq<seq<BlockHash>>, chain: nat -> nat, first: nat)
    requires Holds(d, chain, first) && 0 < first && NeverLower(d.checkpoint, logs)
    requires forall rows :: rows in logs ==> LogOf(rows, chain, first)
    ensures Holds(Checks(d, logs), chain, first)
    decreases |logs|
  {
    hide Check, MaxBlock, LogOf, Holds;
    if logs != [] {
      HoldsStep(d, logs[0], chain, first);
      FilledByRuns(Check(d, logs[0]).0, logs[1..], chain, first);
    }
  }

  lemma {:induction false} LogHashes(rows: seq<BlockHash>, chain: nat -> nat, first: nat, b: nat)
    requires LogOf(rows, chain, first) && first <= b <= MaxBlock(rows)
    ensures b in HashMap(rows) && HashMap(rows)[b] == chain(b)
  {
    hide MaxBlock;
    HashMapExact(rows, BlockHash(b, chain(b)));
  }

  /**
   So the situation from which the walk back starts is reached: after any such run from
   the beginning, when Ponder comes back on another chain, lower but by no more than two
   hundred blocks, and the first block that differs is cached.
   */
  lemma {:induction false} RegressedIsReached(logs: seq<seq<BlockHash>>, rows: seq<BlockHash>,
                                              chain: nat -> nat, other: nat -> nat, first: nat, fork: nat)
    requires 0 < first && NeverLower(0, logs) && forall log :: log in logs ==> LogOf(log, chain, first)
    requires LogOf(rows, other, first)
    requires var d := Checks(Memory(0, map[]), logs);
      && 0 < MaxBlock(rows) < d.checkpoint <= MaxBlock(rows) + 200
      && first <= fork && d.checkpoint - 200 <= fork <= d.checkpoint
    requires forall b: nat :: b <= MaxBlock(rows) ==> (chain(b) == other(b) <==> b < fork)
    ensures var d := Checks(Memory(0, map[]), logs);
      Regressed(d, rows, if d.checkpoint - 200 > first then d.checkpoint - 200 else first, MaxBlock(rows), fork)
  {
    hide Aligned, Windowed, LogOf, Holds, Checks, NeverLower, MaxBlock;
    assert Holds(Memory(0, map[]), chain, first) by { HoldsAtStart(chain, first); }
    FilledByRuns(Memory(0, map[]), logs, chain, first);
    FilledIsRegressed(Checks(Memory(0, map[]), logs), rows, chain, other, first, fork);
  }

  lemma {:induction false} HoldsAtStart(chain: nat -> nat, first: nat)
    requires 0 < first
    ensures Holds(Memory(0, map[]), chain, first)
  {
  }

  lemma {:induction false} FilledIsAligned(d: Memory, rows: seq<BlockHash>, chain: nat -> nat, other: nat -> nat,
                                           first: nat, lo: nat, fork: nat)
    requires Holds(d, chain, first) && LogOf(rows, other, first) && 0 < MaxBlock(rows) && first <= lo <= fork
    requires lo <= d.checkpoint - 200 || lo == first
    requires forall b :: b in d.cache ==> lo <= b
    requires forall b: nat :: b <= MaxBlock(rows) ==> (chain(b) == other(b) <==> b < fork)
    ensures Aligned(d.cache, rows, lo, MaxBlock(rows), fork)
  {
    hide MaxBlock, HashMap, DistinctBlocks;
    forall b: nat | first <= b <= MaxBlock(rows) ensures b in HashMap(rows) && HashMap(rows)[b] == other(b) {
      LogHashes(rows, other, first, b);
    }
  }

  lemma {:induction false} FilledIsRegressed(d: Memory, rows: seq<BlockHash>, chain: nat -> nat, other: nat -> nat,
                                             first: nat, fork: nat)
    requires Holds(d, chain, first) && LogOf(rows, other, first)
    requires 0 < MaxBlock(rows) < d.checkpoint <= MaxBlock(rows) + 200
    requires first <= fork && d.checkpoint - 200 <= fork <= d.checkpoint
    requires forall b: nat :: b <= MaxBlock(rows) ==> (chain(b) == other(b) <==> b < fork)
    ensures Regressed(d, rows, if d.checkpoint - 200 > first then d.checkpoint - 200 else first, MaxBlock(rows), fork)
  {
    hide MaxBlock, HashMap, Aligned, LogOf;
    var lo: nat := if d.checkpoint - 200 > first then d.checkpoint - 200 else first;
    FilledIsAligned(d, rows, chain, other, first, lo, fork);
  }

  /** Distinct blocks above lo, up to hi, number at most hi - lo. */
  lemma FewBlocks(rows: seq<BlockHash>, lo: int, hi: int)
    requires DistinctBlocks(rows) && lo <= hi
    requires forall r :: r in rows ==> lo < r.block <= hi
    ensures |rows| <= hi - lo
  {
    DistinctSize(rows);
    SubsetSize(Blocks(rows), Window(lo, hi));
  }

  ghost function Blocks(rows: seq<BlockHash>): set<int> {
    set r | r in rows :: r.block as int
  }

  ghost function Window(lo: int, hi: int): (w: set<int>)
    ensures forall b :: b in w <==> lo < b <= hi
    ensures lo <= hi ==> |w| == hi - lo
    decreases hi - lo
  {
    if lo < hi then Window(lo, hi - 1) + {hi} else {}
  }

  lemma {:induction false} DistinctSize(rows: seq<BlockHash>)
    requires DistinctBlocks(rows)
    ensures |Blocks(rows)| == |rows|
  {
    if rows != [] {
      DistinctSize(rows[1..]);
      assert rows == [rows[0]] + rows[1..];
      assert Blocks(rows) == Blocks(rows[1..]) + {rows[0].block as int};
    }
  }

  /**
   A block among the fetched rows is a mismatch exactly when it is cached, above the checkpoint
   and not below the fork.
   */
  lemma {:induction false} FetchedMismatches(d: Memory, rows: seq<BlockHash>, lo: nat, top: nat, fork: nat)
    requires Aligned(d.cache, rows, lo, top, fork) && d.checkpoint < top
    requires forall b :: b in d.cache ==> b < top
    ensures forall b ::
        IsMismatch(Between(rows, d.checkpoint, top), d.cache, b) <==> b in d.cache && d.checkpoint < b && fork <= b
  {
    hide MaxBlock, Between, HashMap;
    var fetched := Between(rows, d.checkpoint, top);
    forall b: nat ensures IsMismatch(fetched, d.cache, b) <==> b in d.cache && d.checkpoint < b && fork <= b {
      HashMapRows(rows);
      forall r | r in fetched && r.block == b ensures HashMap(rows)[b] == r.hash {
        HashMapExact(rows, r);
      }
      if b in d.cache && d.checkpoint < b && fork <= b {
        assert BlockHash(b, HashMap(rows)[b]) in fetched;
      }
    }
  }

  /** The regression itself is reported first, as a reorg that deletes rows. */
  lemma FirstReport(d: Memory, rows: seq<BlockHash>, lo: nat, top: nat, fork: nat)
    requires Regressed(d, rows, lo, top, fork)
    ensures var (after, verdict) := Check(d, rows);
      verdict == Reorg(top, false) && Walking(after, rows, lo, top, fork, top)
  {
    assert lo < d.checkpoint ==> lo in d.cache;
  }

  /**
   While the fork lies below the last report, the next check reports the lower of nine blocks
   further down and the fork.
   */
  lemma StepDown(d: Memory, rows: seq<BlockHash>, lo: nat, top: nat, fork: nat, prev: nat)
    requires Walking(d, rows, lo, top, fork, prev) && fork < prev
    ensures var (after, verdict) := Check(d, rows);
      verdict == Reorg(NextReport(prev, fork), false) && Walking(after, rows, lo, top, fork, NextReport(prev, fork))
  {
    hide MaxBlock, Between, FirstMismatch, HashMap, IsMismatch;
    var fetched := Between(rows, d.checkpoint, top);
    FetchedMismatches(d, rows, lo, top, fork);
    BetweenDistinct(rows, d.checkpoint, top);
    FewBlocks(fetched, d.checkpoint, top);
    assert IsMismatch(fetched, d.cache, NextReport(prev, fork));
  }

  /** Once the fork has been reported the next check finds no mismatch and adopts Ponder's hashes. */
  lemma LastCheck(d: Memory, rows: seq<BlockHash>, lo: nat, top: nat, fork: nat, prev: nat)
    requires Walking(d, rows, lo, top, fork, prev) && prev <= fork
    ensures var (after, verdict) := Check(d, rows);
      verdict == Quiet && after.checkpoint == top && Adopted(after, rows)
  {
    hide MaxBlock, Between, FirstMismatch, HashMap, IsMismatch;
    var fetched := Between(rows, d.checkpoint, top);
    FetchedMismatches(d, rows, lo, top, fork);
    HashMapRows(fetched);
    HashMapRows(rows);
    forall b | b in HashMap(fetched) ensures b in HashMap(rows) && HashMap(fetched)[b] == HashMap(rows)[b] {
      HashMapExact(rows, BlockHash(b, HashMap(fetched)[b]));
    }
  }

  /** All cached hashes are Ponder's. */
  ghost predicate Adopted(d: Memory, rows: seq<BlockHash>) {
    forall b :: b in d.cache ==> b in HashMap(rows) && d.cache[b] == HashMap(rows)[b]
  }

  lemma {:induction false} WalkFrom(d: Memory, rows: seq<BlockHash>, lo: nat, top: nat, fork: nat, prev: nat)
    requires Walking(d, rows, lo, top, fork, prev)
    ensures var down := WalkDown(prev, fork);
      && Verdicts(d, rows, |down| + 1) == Reports(down) + [Quiet]
      && Frozen(d, rows, |down| + 1).checkpoint == top
      && Adopted(Frozen(d, rows, |down| + 1), rows)
    decreases prev
  {
    hide Check, Walking, Adopted;
    var after := Check(d, rows).0;
    if fork < prev {
      StepDown(d, rows, lo, top, fork, prev);
      var next := NextReport(prev, fork);
      WalkFrom(after, rows, lo, top, fork, next);
      var down := WalkDown(next, fork);
      assert WalkDown(prev, fork) == [next] + down;
      assert Reports([next] + down) == [Reorg(next, false)] + Reports(down);
    } else {
      LastCheck(d, rows, lo, top, fork, prev);
      assert Frozen(d, rows, 1) == Frozen(after, rows, 0);
      assert Verdicts(d, rows, 1) == [Quiet] + Verdicts(after, rows, 0);
    }
  }

  /** The reports descend to the fork in strides of nine, the last one possibly shorter. */
  lemma {:induction false} WalkDownShape(prev: nat, fork: nat)
    ensures var down := WalkDown(prev, fork);
      && |down| == (if fork < prev then (prev - fork + 8) / 9 else 0)
      && forall i :: 0 <= i < |down| ==> down[i] == if prev - 9 * (i + 1) >= fork then prev - 9 * (i + 1) else fork
    decreases prev
  {
    if fork < prev {
      WalkDownShape(NextReport(prev, fork), fork);
    }
  }

  /**
   The walk back lands on the fork: the reports are top, then nine blocks further
   down each time, then the fork itself if it lies below top; the last reset goes at
   least the margin below the fork; the next check is quiet, and the cache then
   carries Ponder's hashes only.
   */
  lemma {:induction false} WalkBackLandsOnFork(d: Memory, rows: seq<BlockHash>, lo: nat, top: nat, fork: nat)
    requires Regressed(d, rows, lo, top, fork)
    ensures var reports := [top] + WalkDown(top, fork);
      && Verdicts(d, rows, |reports| + 1) == Reports(reports) + [Quiet]
      && reports[|reports| - 1] == (if fork < top then fork else top)
      && reports[|reports| - 1] - SAFETY_MARGIN <= fork - SAFETY_MARGIN
      && Check(Frozen(d, rows, |reports| + 1), rows) == (Frozen(d, rows, |reports| + 1), Quiet)
      && Adopted(Frozen(d, rows, |reports| + 1), rows)
  {
    hide Check, Walking, Adopted, MaxBlock;
    FirstReport(d, rows, lo, top, fork);
    var down, after := WalkDown(top, fork), Check(d, rows).0;
    WalkFrom(after, rows, lo, top, fork, top);
    WalkDownShape(top, fork);
    assert Verdicts(d, rows, |down| + 2) == [Reorg(top, false)] + Verdicts(after, rows, |down| + 1);
    assert Reports([top] + down) == [Reorg(top, false)] + Reports(down);
    EqualTop(Frozen(after, rows, |down| + 1), rows);
  }

  /** A reset that stops between the deletion of cached hashes and the update of the checkpoint. */
  function Interrupted(d: Memory, block: nat): Memory {
    d.(cache := AfterReorg(d, block).cache)
  }

  /** The reset of a regression may stop there: the next check reports it again, with the same outcome. */
  lemma InterruptedRegression(d: Memory, rows: seq<BlockHash>)
    requires 0 < MaxBlock(rows) < d.checkpoint
    ensures Check(Interrupted(d, MaxBlock(rows)), rows) == Check(d, rows)
  {
    var top := MaxBlock(rows);
    assert AfterReorg(Interrupted(d, top), top).cache == AfterReorg(d, top).cache;
  }

  lemma {:induction false} FetchedHashes(rows: seq<BlockHash>, lo: int, hi: int)
    requires DistinctBlocks(rows)
    ensures var fetched := HashMap(Between(rows, lo, hi));
      forall b :: b in fetched ==> b in HashMap(rows) && fetched[b] == HashMap(rows)[b]
  {
    hide HashMap, Between, DistinctBlocks;
    var fetched := Between(rows, lo, hi);
    HashMapRows(fetched);
    HashMapRows(rows);
    forall b | b in HashMap(fetched) ensures b in HashMap(rows) && HashMap(fetched)[b] == HashMap(rows)[b] {
      HashMapExact(rows, BlockHash(b, HashMap(fetched)[b]));
    }
  }

  lemma {:induction false} InterruptedIsQuiet(d: Memory, rows: seq<BlockHash>, lo: nat, top: nat, fork: nat, prev: nat)
    requires Walking(d, rows, lo, top, fork, prev) && fork < prev
    ensures var cut := Interrupted(d, NextReport(prev, fork));
      Check(cut, rows) == (AfterQuiet(cut, Between(rows, cut.checkpoint, top), top), Quiet)
  {
    hide MaxBlock, Between, FirstMismatch, HashMap, IsMismatch, AfterQuiet;
    var cut := Interrupted(d, NextReport(prev, fork));
    FetchedMismatches(cut, rows, lo, top, fork);
  }

  /**
   Where an interruption does harm.  If a later reset of the walk back stops after the cached
   hashes are deleted and before the checkpoint moves, the next check finds no mismatch
   and the walk is over: cached hashes of the abandoned chain stay, unless the reset was
   the last one anyway.
   */
  lemma InterruptedWalk(d: Memory, rows: seq<BlockHash>, lo: nat, top: nat, fork: nat, prev: nat)
    requires Walking(d, rows, lo, top, fork, prev) && fork < prev
    ensures var (after, verdict) := Check(Interrupted(d, NextReport(prev, fork)), rows);
      && verdict == Quiet && after.checkpoint == top
      && (Adopted(after, rows) <==> NextReport(prev, fork) == fork)
  {
    hide MaxBlock, Between, FirstMismatch, HashMap, IsMismatch, Check;
    var cut := Interrupted(d, NextReport(prev, fork));
    InterruptedIsQuiet(d, rows, lo, top, fork, prev);
    FetchedHashes(rows, cut.checkpoint, top);
    assert fork in d.cache;
  }
}
