/**
 The reorg detector: a cache of block hashes, a checkpoint, a ten-block safety margin
 and a cache two hundred blocks deep.
 */
module ReorgDetector {
  import opened Wrappers
  import opened EventLog
  import opened Replay

  const SAFETY_MARGIN := 10
  const CACHE_DEPTH := 200
  const CHUNK := 10000

  /** A row of Ponder's block_hash_log, which holds one row per block, in no particular order. */
  datatype BlockHash = BlockHash(block: nat, hash: nat)

  /** What the detector remembers between checks. */
  datatype Memory = Memory(checkpoint: int, cache: map<nat, nat>)

  datatype Verdict = Quiet | Reorg(block: nat, keepRows: bool)

  /** The highest logged block, 0 for an empty log. */
  function MaxBlock(rows: seq<BlockHash>): (m: nat)
    ensures forall r :: r in rows ==> r.block <= m
    ensures m == 0 || exists r :: r in rows && r.block == m
  {
    if rows == [] then 0
    else
      var m := MaxBlock(rows[1..]);
      if rows[0].block > m then
        assert rows[0] in rows;
        rows[0].block
      else m
  }

  /** The rows of the blocks above lo, up to hi. */
  function Between(rows: seq<BlockHash>, lo: int, hi: int): (r: seq<BlockHash>)
    ensures forall x :: x in r <==> x in rows && lo < x.block <= hi
  {
    if rows == [] then []
    else (if lo < rows[0].block <= hi then [rows[0]] else []) + Between(rows[1..], lo, hi)
  }

  /** A logged block whose cached hash is another one. */
  ghost predicate IsMismatch(rows: seq<BlockHash>, cache: map<nat, nat>, block: nat) {
    exists r :: r in rows && r.block == block && block in cache && cache[block] != r.hash
  }

  /** The lowest mismatch among the rows. */
  function LowestMismatch(rows: seq<BlockHash>, cache: map<nat, nat>): (m: Option<nat>)
    ensures m.None? ==> forall b :: !IsMismatch(rows, cache, b)
    ensures m.Some? ==> IsMismatch(rows, cache, m.value) && forall b :: IsMismatch(rows, cache, b) ==> m.value <= b
  {
    if rows == [] then None
    else
      var m := LowestMismatch(rows[1..], cache);
      var b := rows[0].block;
      assert rows == [rows[0]] + rows[1..];
      assert forall c :: IsMismatch(rows, cache, c) ==> c == b || IsMismatch(rows[1..], cache, c);
      assert forall c :: IsMismatch(rows[1..], cache, c) ==> IsMismatch(rows, cache, c);
      if b in cache && cache[b] != rows[0].hash then
        assert rows[0] in rows;
        if m.None? || b < m.value then Some(b) else m
      else
        assert IsMismatch(rows, cache, b) ==> IsMismatch(rows[1..], cache, b);
        m
  }

  /** The comparison goes through the rows in chunks and stops at the first chunk with a mismatch. */
  function FirstMismatch(rows: seq<BlockHash>, cache: map<nat, nat>): (m: Option<nat>)
    ensures m.None? <==> forall b :: !IsMismatch(rows, cache, b)
    ensures m.Some? ==> IsMismatch(rows, cache, m.value)
    ensures m.Some? && |rows| <= CHUNK ==> forall b :: IsMismatch(rows, cache, b) ==> m.value <= b
  {
    if |rows| <= CHUNK then LowestMismatch(rows, cache)
    else
      assert rows == rows[..CHUNK] + rows[CHUNK..];
      assert forall b ::
          IsMismatch(rows, cache, b) <==> IsMismatch(rows[..CHUNK], cache, b) || IsMismatch(rows[CHUNK..], cache, b);
      var m := LowestMismatch(rows[..CHUNK], cache);
      if m.Some? then m else FirstMismatch(rows[CHUNK..], cache)
  }

  /** Rows as a block-to-hash map. */
  function HashMap(rows: seq<BlockHash>): map<nat, nat> {
    if rows == [] then map[] else HashMap(rows[1..])[rows[0].block := rows[0].hash]
  }

  /** Forget the reorged block and everything above it; step back by the safety margin. */
  function AfterReorg(d: Memory, block: nat): Memory {
    Memory(block - SAFETY_MARGIN, map b | b in d.cache && b < block :: d.cache[b])
  }

  /** Remember the new hashes without overwriting cached ones, and forget the blocks beyond the depth. */
  function AfterQuiet(d: Memory, fetched: seq<BlockHash>, top: nat): Memory {
    var cache := HashMap(fetched) + d.cache;
    Memory(top, if top - CACHE_DEPTH > 0 then map b | b in cache && b >= top - CACHE_DEPTH :: cache[b] else cache)
  }

  /** One check. */
  function Check(d: Memory, rows: seq<BlockHash>): (Memory, Verdict) {
    var top := MaxBlock(rows);
    if top == 0 || top == d.checkpoint then (d, Quiet)
    else if top < d.checkpoint then (AfterReorg(d, top), Reorg(top, d.checkpoint - top > CACHE_DEPTH))
    else
      var fetched := Between(rows, d.checkpoint, top);
      match FirstMismatch(fetched, d.cache)
      case Some(block) => (AfterReorg(d, block), Reorg(block, false))
      case None => (AfterQuiet(d, fetched, top), Quiet)
  }

  // ---- the detector as it runs ----

  class ReorgDetector {
    var lastPonderMaxBlock: nat
    var checkpoint: int
    var cachedRows: nat
    var cache: map<nat, nat>

    ghost function Remembered(): Memory
      reads this
    {
      Memory(checkpoint, cache)
    }

    constructor ()
      ensures Remembered() == Memory(0, map[])
    {
      lastPonderMaxBlock, checkpoint, cachedRows, cache := 0, 0, 0, map[];
    }

    method FindHashMismatch(hashes: seq<BlockHash>) returns (block: Option<nat>)
      ensures block == FirstMismatch(hashes, cache)
    {
      var i := 0;
      while i < |hashes|
        invariant 0 <= i <= |hashes|
        invariant FirstMismatch(hashes, cache) == FirstMismatch(hashes[i..], cache)
      {
        var next := if i + CHUNK < |hashes| then i + CHUNK else |hashes|;
        block := LowestMismatch(hashes[i..next], cache);
        if block.Some? || next == |hashes| {
          assert hashes[i..][..next - i] == hashes[i..next];
          assert next == |hashes| ==> hashes[i..next] == hashes[i..];
          return;
        }
        assert hashes[i..][..CHUNK] == hashes[i..next];
        assert hashes[i..][CHUNK..] == hashes[next..];
        i := next;
      }
      block := None;
    }

    method HandleReorg<B(!new), T>(reorgBlock: nat, materializers: seq<Materializer<B, T>>, keepRows: bool)
      requires forall i, j :: 0 <= i < j < |materializers| ==> materializers[i] != materializers[j]
      modifies this, materializers
      ensures Remembered() == AfterReorg(old(Remembered()), reorgBlock) && cachedRows == |cache|
      ensures lastPonderMaxBlock == old(lastPonderMaxBlock)
      ensures forall m ::
          m in materializers ==> m.State() == ResetState(old(m.State()), m.cut, reorgBlock - 10, keepRows)
    {
      var resetBlock := reorgBlock - SAFETY_MARGIN;
      for i := 0 to |materializers|
        invariant Remembered() == old(Remembered()) && lastPonderMaxBlock == old(lastPonderMaxBlock)
        invariant forall k :: 0 <= k < i ==>
          materializers[k].State() == ResetState(old(materializers[k].State()), materializers[k].cut, resetBlock,
            keepRows)
        invariant forall k :: i <= k < |materializers| ==> materializers[k].State() == old(materializers[k].State())
      {
        materializers[i].ResetToBlock(resetBlock, keepRows);
      }
      cache := map b | b in cache && b < reorgBlock :: cache[b];
      checkpoint, cachedRows := resetBlock, |cache|;
    }

    /** Insert the new hashes, skipping cached blocks, prune beyond the depth, move the checkpoint. */
    method Adopt(fetched: seq<BlockHash>, top: nat)
      modifies this`cache, this`checkpoint, this`cachedRows
      ensures Remembered() == AfterQuiet(old(Remembered()), fetched, top) && cachedRows == |cache|
    {
      hide HashMap;
      cache := HashMap(fetched) + cache;
      var pruneBelow := top - CACHE_DEPTH;
      if pruneBelow > 0 {
        cache := map b | b in cache && b >= pruneBelow :: cache[b];
      }
      checkpoint, cachedRows := top, |cache|;
    }

    /** Compare Ponder's log with the cache; on a reorg, reset every materializer. */
    method CheckAndReset<B(!new), T>(rows: seq<BlockHash>, materializers: seq<Materializer<B, T>>) returns (reorg: bool)
      requires forall i, j :: 0 <= i < j < |materializers| ==> materializers[i] != materializers[j]
      modifies this, materializers
      ensures lastPonderMaxBlock == MaxBlock(rows)
      ensures var (after, verdict) := Check(old(Remembered()), rows);
        && Remembered() == after
        && reorg == verdict.Reorg?
        && forall m :: m in materializers ==> m.State() == Obey(old(m.State()), m.cut, verdict)
    {
      hide MaxBlock, Between, FirstMismatch, HashMap, AfterQuiet, AfterReorg;
      var top := MaxBlock(rows);
      lastPonderMaxBlock := top;
      if top == 0 {
        return false;
      }
      var lastCached := checkpoint;
      if top < lastCached {
        var depth := lastCached - top;
        HandleReorg(top, materializers, depth > CACHE_DEPTH);
        return true;
      }
      if top == lastCached {
        return false;
      }
      var fetched := Between(rows, lastCached, top);
      var block := FindHashMismatch(fetched);
      if block.Some? {
        HandleReorg(block.value, materializers, false);
        return true;
      }
      Adopt(fetched, top);
      reorg := false;
    }
  }

  /** What a reset does to a materializer. */
  ghost function ResetState<T>(v: View<T>, cut: (T, int) -> T, block: int, keepRows: bool): View<T> {
    View(if keepRows then v.table else cut(v.table, block), Cursor(block, 0))
  }

  /** What a verdict does to a materializer. */
  ghost function Obey<T>(v: View<T>, cut: (T, int) -> T, verdict: Verdict): View<T> {
    match verdict
    case Quiet => v
    case Reorg(block, keepRows) => ResetState(v, cut, block - SAFETY_MARGIN, keepRows)
  }

  // ---- what every check keeps ----

  /** Cached blocks lie within the depth below the checkpoint and the margin above it. */
  ghost predicate Windowed(d: Memory) {
    forall b :: b in d.cache ==> d.checkpoint - CACHE_DEPTH <= b < d.checkpoint + SAFETY_MARGIN
  }

  lemma {:induction false} HashMapRows(rows: seq<BlockHash>)
    ensures forall b :: b in HashMap(rows) ==> BlockHash(b, HashMap(rows)[b]) in rows
    ensures forall r :: r in rows ==> r.block in HashMap(rows)
  {
    if rows != [] {
      HashMapRows(rows[1..]);
      assert rows == [rows[0]] + rows[1..];
      assert rows[0] == BlockHash(rows[0].block, rows[0].hash);
    }
  }

  /**
   Every check keeps the cache windowed; a reported reorg strictly lowers the
   checkpoint, a compared one also shrinks the cache, and a regression deeper than
   the cache (rows kept) empties it.
   */
  lemma {:induction false} CheckKeeps(d: Memory, rows: seq<BlockHash>)
    requires Windowed(d)
    ensures var (after, verdict) := Check(d, rows);
      && Windowed(after)
      && (verdict.Reorg? ==> after.checkpoint < d.checkpoint && after.cache.Keys <= d.cache.Keys)
      && (verdict.Reorg? && d.checkpoint < MaxBlock(rows) ==> after.cache.Keys < d.cache.Keys)
      && (verdict.Reorg? && verdict.keepRows ==> after.cache == map[])
  {
    hide MaxBlock, Between, FirstMismatch, HashMap;
    var top := MaxBlock(rows);
    if top != 0 && top > d.checkpoint {
      var fetched := Between(rows, d.checkpoint, top);
      HashMapRows(fetched);
      if FirstMismatch(fetched, d.cache).Some? {
        assert FirstMismatch(fetched, d.cache).value in d.cache;
      }
    }
  }

  /** Repeated checks, each against the log as it then stands. */
  function Checks(d: Memory, logs: seq<seq<BlockHash>>): Memory
    decreases |logs|
  {
    if logs == [] then d else Checks(Check(d, logs[0]).0, logs[1..])
  }

  lemma {:induction false} ChecksKeepWindow(d: Memory, logs: seq<seq<BlockHash>>)
    requires Windowed(d)
    ensures Windowed(Checks(d, logs))
    decreases |logs|
  {
    if logs != [] {
      CheckKeeps(d, logs[0]);
      ChecksKeepWindow(Check(d, logs[0]).0, logs[1..]);
    }
  }

  /** In every reachable state, whatever Ponder's log did between the checks, the cache is windowed. */
  lemma ReachableWindowed(logs: seq<seq<BlockHash>>)
    ensures Windowed(Checks(Memory(0, map[]), logs))
  {
    ChecksKeepWindow(Memory(0, map[]), logs);
  }

  // ---- when a reorg is seen ----

  /** No block above the checkpoint is cached: so after a quiet check, but not while walking back. */
  ghost predicate NoneAbove(d: Memory) {
    forall b :: b in d.cache ==> b <= d.checkpoint
  }

  /**
   Outside a walk back a check reports a reorg if and only if Ponder is behind the
   checkpoint: the hashes of the blocks it has indexed anew are compared with nothing.
   */
  lemma {:induction false} SeenIff(d: Memory, rows: seq<BlockHash>)
    requires NoneAbove(d)
    ensures var (after, verdict) := Check(d, rows);
      && (verdict.Reorg? <==> 0 < MaxBlock(rows) < d.checkpoint)
      && (verdict.Quiet? ==> NoneAbove(after) && after.checkpoint == if MaxBlock(rows) == 0 then d.checkpoint
        else MaxBlock(rows))
  {
    hide MaxBlock, Between, FirstMismatch, HashMap;
    var top := MaxBlock(rows);
    if top != 0 && top > d.checkpoint {
      var fetched := Between(rows, d.checkpoint, top);
      HashMapRows(fetched);
      assert forall b :: !IsMismatch(fetched, d.cache, b);
    }
  }

  ghost predicate AllQuiet(d: Memory, logs: seq<seq<BlockHash>>)
    decreases |logs|
  {
    logs != [] ==> var (after, verdict) := Check(d, logs[0]); verdict.Quiet? && AllQuiet(after, logs[1..])
  }

  /** At every check Ponder's log is empty, or has grown back at least to where it was at the last one. */
  ghost predicate NeverLower(top: int, logs: seq<seq<BlockHash>>)
    decreases |logs|
  {
    logs != [] ==>
    && (MaxBlock(logs[0]) == 0 || top <= MaxBlock(logs[0]))
    && NeverLower(if MaxBlock(logs[0]) == 0 then top else MaxBlock(logs[0]), logs[1..])
  }

  /**
   Whatever Ponder's logs are at the checks that follow, no reorg is ever reported if and
   only if none of the logs is lower than the one before: how the chain changed does not
   count.  A log that has grown back in time is never reported afterwards either.
   */
  lemma {:induction false} UnseenIff(d: Memory, logs: seq<seq<BlockHash>>)
    requires NoneAbove(d)
    ensures AllQuiet(d, logs) <==> NeverLower(d.checkpoint, logs)
    decreases |logs|
  {
    hide Check, NoneAbove, MaxBlock;
    if logs != [] {
      SeenIff(d, logs[0]);
      if Check(d, logs[0]).1.Quiet? {
        UnseenIff(Check(d, logs[0]).0, logs[1..]);
      }
    }
  }

  /** The same check k times over: Ponder's log is frozen. */
  function Frozen(d: Memory, rows: seq<BlockHash>, k: nat): Memory
    decreases k
  {
    if k == 0 then d else Frozen(Check(d, rows).0, rows, k - 1)
  }

  /** After a quiet check the same log is quiet again; after a reported reorg the checkpoint is below the log's top. */
  lemma SecondCheck(d: Memory, rows: seq<BlockHash>)
    requires Windowed(d)
    ensures var (after, verdict) := Check(d, rows);
      if verdict.Quiet? then Check(after, rows) == (after, Quiet) else after.checkpoint < MaxBlock(rows)
  {
  }

  /** With Ponder frozen the checks go quiet for good after at most |cache| + 2 of them. */
  lemma {:induction false} GoesQuiet(d: Memory, rows: seq<BlockHash>, k: nat)
    requires Windowed(d)
    requires k >= |d.cache| + if MaxBlock(rows) < d.checkpoint then 2 else 1
    ensures Check(Frozen(d, rows, k), rows) == (Frozen(d, rows, k), Quiet)
    decreases k
  {
    hide Check;
    var (after, verdict) := Check(d, rows);
    CheckKeeps(d, rows);
    SecondCheck(d, rows);
    FewerKeys(after.cache, d.cache);
    if verdict.Quiet? {
      StaysQuiet(after, rows, k - 1);
    } else {
      EqualTop(d, rows);
      GoesQuiet(after, rows, k - 1);
    }
  }

  lemma EqualTop(d: Memory, rows: seq<BlockHash>)
    ensures MaxBlock(rows) == d.checkpoint ==> Check(d, rows) == (d, Quiet)
  {
  }

  lemma FewerKeys(a: map<nat, nat>, b: map<nat, nat>)
    ensures a.Keys <= b.Keys ==> |a| <= |b|
    ensures a.Keys < b.Keys ==> |a| < |b|
  {
    SubsetSize(a.Keys, b.Keys);
  }

  lemma {:induction false} SubsetSize<A>(a: set<A>, b: set<A>)
    ensures a <= b ==> |a| <= |b|
    ensures a < b ==> |a| < |b|
  {
    if a <= b {
      assert b == a + (b - a);
    }
  }

  lemma {:induction false} StaysQuiet(d: Memory, rows: seq<BlockHash>, k: nat)
    requires Check(d, rows) == (d, Quiet)
    ensures Frozen(d, rows, k) == d
  {
    if k > 0 {
      StaysQuiet(d, rows, k - 1);
    }
  }
}
