/**
 Which mismatch the comparison of hashes reports: it goes through the rows in chunks,
 in whatever order the log returned them.
 */
module HashCompare {
  import opened Wrappers
  import opened ReorgDetector

  /** Row number i differs from the cached hash of its block. */
  predicate Differs(rows: seq<BlockHash>, cache: map<nat, nat>, i: int) {
    0 <= i < |rows| && rows[i].block in cache && cache[rows[i].block] != rows[i].hash
  }

  /** A row of the block differs, and none that differs lies in an earlier chunk. */
  ghost predicate InFirstBadChunk(rows: seq<BlockHash>, cache: map<nat, nat>, block: nat) {
    exists i :: Differs(rows, cache, i) && rows[i].block == block && forall j ::
        Differs(rows, cache, j) ==> i / 10000 <= j / 10000
  }

  ghost predicate IsLowestMismatch(rows: seq<BlockHash>, cache: map<nat, nat>, block: nat) {
    IsMismatch(rows, cache, block) && forall b :: IsMismatch(rows, cache, b) ==> block <= b
  }

  lemma MismatchRows(rows: seq<BlockHash>, cache: map<nat, nat>)
    ensures forall i :: Differs(rows, cache, i) ==> IsMismatch(rows, cache, rows[i].block)
    ensures forall b :: IsMismatch(rows, cache, b) ==> exists i :: Differs(rows, cache, i) && rows[i].block == b
  {
    forall i | Differs(rows, cache, i) ensures IsMismatch(rows, cache, rows[i].block) {
      assert rows[i] in rows;
    }
    forall b | IsMismatch(rows, cache, b) ensures exists i :: Differs(rows, cache, i) && rows[i].block == b {
      var r :| r in rows && r.block == b && b in cache && cache[b] != r.hash;
      var i :| 0 <= i < |rows| && rows[i] == r;
      assert Differs(rows, cache, i);
    }
  }

  ghost predicate FirstChunkAgrees(rows: seq<BlockHash>, cache: map<nat, nat>) {
    |rows| > CHUNK && forall i :: i < CHUNK ==> !Differs(rows, cache, i)
  }

  lemma ShiftRow(rows: seq<BlockHash>, cache: map<nat, nat>, i: int)
    requires FirstChunkAgrees(rows, cache)
    ensures Differs(rows, cache, i) <==> Differs(rows[CHUNK..], cache, i - CHUNK)
    ensures Differs(rows, cache, i)
      ==> i >= CHUNK && rows[i] == rows[CHUNK..][i - CHUNK] && (i - CHUNK) / CHUNK == i / CHUNK - 1
  {
  }

  /** Past a chunk without a mismatch everything is as in the remaining rows. */
  lemma SkipChunk(rows: seq<BlockHash>, cache: map<nat, nat>, block: nat)
    requires FirstChunkAgrees(rows, cache)
    ensures IsMismatch(rows, cache, block) <==> IsMismatch(rows[CHUNK..], cache, block)
    ensures InFirstBadChunk(rows, cache, block) <==> InFirstBadChunk(rows[CHUNK..], cache, block)
  {
    hide IsMismatch;
    var rest := rows[CHUNK..];
    MismatchRows(rows, cache);
    MismatchRows(rest, cache);
    if i :| Differs(rows, cache, i) && rows[i].block == block {
      ShiftRow(rows, cache, i);
    }
    if i :| Differs(rest, cache, i) && rest[i].block == block {
      ShiftRow(rows, cache, i + CHUNK);
    }
    SkipUp(rows, cache, block);
    SkipDown(rows, cache, block);
    hide InFirstBadChunk;
  }

  lemma SkipUp(rows: seq<BlockHash>, cache: map<nat, nat>, block: nat)
    requires FirstChunkAgrees(rows, cache)
    ensures InFirstBadChunk(rows, cache, block) ==> InFirstBadChunk(rows[CHUNK..], cache, block)
  {
    var rest := rows[CHUNK..];
    if InFirstBadChunk(rows, cache, block) {
      var i :| Differs(rows, cache, i) && rows[i].block == block && forall j ::
          Differs(rows, cache, j) ==> i / CHUNK <= j / CHUNK;
      ShiftRow(rows, cache, i);
      var k := i - CHUNK;
      forall j | Differs(rest, cache, j) ensures k / CHUNK <= j / CHUNK {
        ShiftRow(rows, cache, j + CHUNK);
      }
      assert Differs(rest, cache, k);
    }
  }

  lemma SkipDown(rows: seq<BlockHash>, cache: map<nat, nat>, block: nat)
    requires FirstChunkAgrees(rows, cache)
    ensures InFirstBadChunk(rows[CHUNK..], cache, block) ==> InFirstBadChunk(rows, cache, block)
  {
    var rest := rows[CHUNK..];
    if InFirstBadChunk(rest, cache, block) {
      var k :| Differs(rest, cache, k) && rest[k].block == block && forall j ::
          Differs(rest, cache, j) ==> k / CHUNK <= j / CHUNK;
      var i := k + CHUNK;
      ShiftRow(rows, cache, i);
      forall j | Differs(rows, cache, j) ensures i / CHUNK <= j / CHUNK {
        ShiftRow(rows, cache, j);
      }
      assert Differs(rows, cache, i);
    }
  }

  /**
   The reported mismatch is the earliest if and only if the earliest one lies in the
   first chunk that has any.
   */
  lemma {:induction false} EarliestIff(rows: seq<BlockHash>, cache: map<nat, nat>, lowest: nat)
    requires IsLowestMismatch(rows, cache, lowest)
    ensures FirstMismatch(rows, cache) == Some(lowest) <==> InFirstBadChunk(rows, cache, lowest)
  {
    hide IsMismatch;
    MismatchRows(rows, cache);
    if FirstChunkAgrees(rows, cache) {
      forall b ensures IsMismatch(rows, cache, b) <==> IsMismatch(rows[CHUNK..], cache, b) {
        SkipChunk(rows, cache, b);
      }
      SkipChunk(rows, cache, lowest);
      NoneInChunk(rows, cache);
      EarliestIff(rows[CHUNK..], cache, lowest);
    } else {
      FirstChunkDecides(rows, cache, lowest);
    }
  }

  lemma {:induction false} NoneInChunk(rows: seq<BlockHash>, cache: map<nat, nat>)
    requires FirstChunkAgrees(rows, cache)
    ensures FirstMismatch(rows, cache) == FirstMismatch(rows[CHUNK..], cache)
  {
    MismatchRows(rows[..CHUNK], cache);
    assert forall i :: Differs(rows[..CHUNK], cache, i) ==> Differs(rows, cache, i);
    hide IsMismatch;
  }

  lemma {:induction false} FirstChunkDecides(rows: seq<BlockHash>, cache: map<nat, nat>, lowest: nat)
    requires IsLowestMismatch(rows, cache, lowest)
    requires |rows| > CHUNK ==> exists i :: i < CHUNK && Differs(rows, cache, i)
    ensures FirstMismatch(rows, cache) == Some(lowest) <==> InFirstBadChunk(rows, cache, lowest)
  {
    var chunk := if |rows| > CHUNK then rows[..CHUNK] else rows;
    MismatchRows(rows, cache);
    MismatchRows(chunk, cache);
    hide IsMismatch;
    assert forall i :: Differs(chunk, cache, i) <==> i < CHUNK && Differs(rows, cache, i);
    assert FirstMismatch(rows, cache) == LowestMismatch(chunk, cache);
    hide FirstMismatch;
    if InFirstBadChunk(rows, cache, lowest) {
      var i :| Differs(rows, cache, i) && rows[i].block == lowest && forall j ::
          Differs(rows, cache, j) ==> i / CHUNK <= j / CHUNK;
      var first :| Differs(chunk, cache, first);
      assert Differs(rows, cache, first) && first / CHUNK == 0;
      assert Differs(chunk, cache, i);
    }
    if IsMismatch(chunk, cache, lowest) {
      var i :| Differs(chunk, cache, i) && chunk[i].block == lowest;
      assert Differs(rows, cache, i) && i / CHUNK == 0;
    }
  }

  // ---- a later mismatch reported ----

  /** Blocks 2, 3, ... in a chunk of their own, then block 1; the hashes of the new chain. */
  function LateRows(): seq<BlockHash> {
    seq(CHUNK, i requires 0 <= i < CHUNK => BlockHash(i + 2, 1)) + [BlockHash(1, 1)]
  }

  /** What the detector remembers of the old chain after blocks 1 to 4 and a regression to block 3. */
  const REMEMBERED := Memory(-7, map[1 := 0, 2 := 0])

  lemma {:induction false} MaxIs(rows: seq<BlockHash>, r: BlockHash)
    requires r in rows && r.block > 0 && forall x :: x in rows ==> x.block <= r.block
    ensures MaxBlock(rows) == r.block
  {
    hide MaxBlock;
  }

  /** The first check of a short log remembers the log. */
  lemma {:induction false} FirstCheck(rows: seq<BlockHash>, top: nat)
    requires MaxBlock(rows) == top && 0 < top <= 200 && forall i :: 0 <= i < |rows| ==> rows[i].block > 0
    ensures Check(Memory(0, map[]), rows) == (Memory(top, HashMap(rows)), Quiet)
  {
    hide MaxBlock, Between, HashMap, FirstMismatch;
    BetweenAll(rows, 0, top);
    NothingCached(rows);
    assert HashMap(rows) + map[] == HashMap(rows);
  }

  lemma {:induction false} NothingCached(rows: seq<BlockHash>)
    ensures FirstMismatch(rows, map[]) == None
  {
    hide FirstMismatch;
    assert forall b :: !IsMismatch(rows, map[], b);
  }

  lemma HashMapFront(r: BlockHash, rest: seq<BlockHash>)
    ensures HashMap([r] + rest) == HashMap(rest)[r.block := r.hash]
  {
    assert ([r] + rest)[1..] == rest;
  }

  lemma HashMapOfFour(a: BlockHash, b: BlockHash, c: BlockHash, d: BlockHash)
    ensures HashMap([a, b, c, d]) == map[][d.block := d.hash][c.block := c.hash][b.block := b.hash][a.block := a.hash]
  {
    HashMapFront(a, [b, c, d]);
    HashMapFront(b, [c, d]);
    HashMapFront(c, [d]);
    HashMapFront(d, []);
    assert [a] + [b, c, d] == [a, b, c, d] && [b] + [c, d] == [b, c, d] && [c] + [d] == [c, d] && [d] + [] == [d];
    assert HashMap([]) == map[];
    hide HashMap;
  }

  lemma {:induction false} ChecksFront(d: Memory, log: seq<BlockHash>, rest: seq<seq<BlockHash>>)
    ensures Checks(d, [log] + rest) == Checks(Check(d, log).0, rest)
  {
    hide Check;
    assert ([log] + rest)[1..] == rest;
  }

  lemma {:induction false} RegressionCheck(d: Memory, rows: seq<BlockHash>)
    requires 0 < MaxBlock(rows) < d.checkpoint
    ensures Check(d, rows).0 == AfterReorg(d, MaxBlock(rows))
  {
    hide MaxBlock, AfterReorg;
  }

  /** The detector can come to remember this. */
  lemma RememberedIsReachable()
    ensures exists logs :: Checks(Memory(0, map[]), logs) == REMEMBERED
  {
    hide *;
    var a, b, c, d := BlockHash(1, 0), BlockHash(2, 0), BlockHash(3, 0), BlockHash(4, 0);
    var first, second := [a, b, c, d], [BlockHash(1, 1), BlockHash(2, 1), BlockHash(3, 1)];
    assert first[3] in first && second[2] in second;
    MaxIs(first, first[3]);
    MaxIs(second, second[2]);
    FirstCheck(first, 4);
    HashMapOfFour(a, b, c, d);
    var after := Memory(4, HashMap(first));
    RegressionCheck(after, second);
    BelowThree(after);
    ChecksFront(Memory(0, map[]), first, [second]);
    ChecksFront(after, second, []);
    assert [second] + [] == [second];
    NoChecks(REMEMBERED);
  }

  lemma BelowThree(d: Memory)
    requires d.cache == map[][4 := 0][3 := 0][2 := 0][1 := 0]
    ensures AfterReorg(d, 3) == REMEMBERED
  {
  }

  lemma NoChecks(d: Memory)
    ensures Checks(d, []) == d
  {
  }

  lemma {:induction false} BetweenAll(rows: seq<BlockHash>, lo: int, hi: int)
    requires forall r :: r in rows ==> lo < r.block <= hi
    ensures Between(rows, lo, hi) == rows
  {
    if rows != [] {
      assert rows[0] in rows;
      BetweenAll(rows[1..], lo, hi);
      assert rows == [rows[0]] + rows[1..];
    }
  }

  /** Both cached blocks have a new hash, block 1 among them, and block 2 is found first. */
  lemma LaterMismatchFound()
    ensures IsLowestMismatch(LateRows(), REMEMBERED.cache, 1) && FirstMismatch(LateRows(), REMEMBERED.cache) == Some(2)
  {
    var rows, cache := LateRows(), REMEMBERED.cache;
    assert rows[0] == BlockHash(2, 1) && rows[CHUNK] == BlockHash(1, 1);
    assert Differs(rows, cache, 0) && Differs(rows, cache, CHUNK);
    assert forall i :: Differs(rows, cache, i) ==> i == 0 || i == CHUNK;
    MismatchRows(rows, cache);
    EarliestIff(rows, cache, 1);
  }

  /** So the check reports the later of two mismatches. */
  lemma LaterMismatchReported()
    ensures IsLowestMismatch(LateRows(), REMEMBERED.cache, 1) && Check(REMEMBERED, LateRows()).1 == Reorg(2, false)
  {
    hide IsLowestMismatch, FirstMismatch, Between, MaxBlock, HashMap;
    LaterMismatchFound();
    var rows := LateRows();
    assert rows[0] == BlockHash(2, 1) && rows[0] in rows;
    assert forall r :: r in rows ==> 0 < r.block <= MaxBlock(rows);
    BetweenAll(rows, -7, MaxBlock(rows));
  }
}
