/**
 The validator queue after a reorg.  The reset deletes later adds and goes back to the
 start of its block, but what the old chain's removes have taken stays gone, and removes
 of the reset block itself come again.
 */
module QueueRecovery {
  import opened EventLog
  import opened Replay
  import opened ValidatorQueue
  import opened QueueMerge
  import EventCopy

  // ---- the queue a catch-up starts from, and the one it should have been ----

  /** What a reset leaves comes from the new chain too. */
  lemma CutIsFaithful(old_: Log, new_: Log, t: Queue, block: int)
    requires EventCopy.AgreeUpTo(old_, new_, block) && Faithful(t, old_)
    ensures Faithful(CutQueue(t, block), new_)
  {
    forall id | id in CutQueue(t, block)
      ensures exists i :: 0 <= i < |new_| && new_[i].id == id && new_[i].body.Add? && t[id] == EntryOf(new_[i])
    {
      var a := AddOf(old_, t, id);
      assert old_[a] in old_;
      var i :| 0 <= i < |new_| && new_[i] == old_[a];
    }
  }

  /** The queue of the rows before row k, and what the rows from k on make of it. */
  lemma TruthAt(log: Log, k: nat)
    requires UniqueIds(log) && k <= |log|
    ensures Faithful(Replayed(log[..k]), log) && Fresh(Replayed(log[..k]), log, k)
    ensures Replayed(log) == Fold(ApplyQueue, Replayed(log[..k]), log[k..])
  {
    assert log == log[..k] + log[k..];
    FoldAppend(ApplyQueue, map[], log[..k], log[k..]);
    ReplayedIsFaithful(log[..k]);
    hide Fold;
    var y := Replayed(log[..k]);
    forall id | id in y
      ensures id !in Ahead(log, k) && exists i ::
        0 <= i < |log| && log[i].id == id && log[i].body.Add? && y[id] == EntryOf(log[i])
    {
      var a := AddOf(log[..k], y, id);
      assert log[a] == log[..k][a];
      NotAhead(log, k, a);
    }
  }

  /** Every pair of the kept entries comes to hold what the new chain's rows leave of it. */
  ghost predicate AllMerge(log: Log, t: Queue, k: nat)
    requires k <= |log|
  {
    forall p :: PairMerges(log, k, Behind(t, log, k), Replayed(log[..k]), p)
  }

  lemma BehindKept(log: Log, t: Queue, k: nat)
    requires k <= |log| && Faithful(t, log)
    ensures Faithful(Behind(t, log, k), log) && Fresh(Behind(t, log, k), log, k)
  {
    hide Ahead;
    forall id | id in Behind(t, log, k)
      ensures exists i ::
          0 <= i < |log| && log[i].id == id && log[i].body.Add? && Behind(t, log, k)[id] == EntryOf(log[i])
    {
      var a := AddOf(log, t, id);
    }
  }

  /** Rows from k on forget the entries they add again. */
  lemma {:induction false} CatchUpForgets(log: Log, t: Queue, k: nat)
    requires UniqueIds(log) && Timely(log) && Faithful(t, log) && k <= |log|
    ensures Fold(ApplyQueue, t, log[k..]) == Fold(ApplyQueue, Behind(t, log, k), log[k..])
  {
    hide Behind, Fold, UniqueIds, Timely, Faithful;
    BehindFold(log, t, k, |log|);
    assert log[k..|log|] == log[k..];
    NothingAhead(log, Fold(ApplyQueue, t, log[k..]));
  }

  lemma {:induction false} CatchUpIff(log: Log, t: Queue, k: nat)
    requires UniqueIds(log) && Timely(log) && Faithful(t, log) && k <= |log|
    ensures Fold(ApplyQueue, t, log[k..]) == Replayed(log) <==> AllMerge(log, t, k)
  {
    hide Behind, Fold, UniqueIds, Timely, Faithful, Fresh, PairMerges, Replayed;
    CatchUpForgets(log, t, k);
    TruthAt(log, k);
    BehindKept(log, t, k);
    EndSameIff(log, k, Behind(t, log, k), Replayed(log[..k]));
  }

  /**
   Recovery of the queue without failures.  After the deletion and the move to (block, 0),
   polls of any sizes that become idle leave the new chain's queue if and only if for every
   pair the kept entries and the queue at the reset position merge: the remaining rows
   empty the pair from both, or as many entries wait in both and those the remaining
   removes do not reach are the same.
   */
  lemma {:induction false} RecoveryIff(old_: Log, new_: Log, t: Queue, block: int, ops: seq<Op>)
    requires Sorted(new_) && UniqueIds(new_) && Timely(new_) && EventCopy.AgreeUpTo(old_, new_, block)
      && Faithful(t, old_)
    requires NoFailures(ops) && Idle(new_, Run(ApplyQueue, new_, View(CutQueue(t, block), Cursor(block, 0)), ops))
    ensures Run(ApplyQueue, new_, View(CutQueue(t, block), Cursor(block, 0)), ops).table == Replayed(new_)
            <==> AllMerge(new_, CutQueue(t, block), Rank(new_, Cursor(block, 0)))
  {
    hide UniqueIds, Timely, Faithful, AllMerge, CutQueue, Fold, Run, NoFailures;
    var v := View(CutQueue(t, block), Cursor(block, 0));
    var k := Rank(new_, v.cursor);
    CutIsFaithful(old_, new_, t, block);
    CleanRunIsFold(ApplyQueue, new_, v, ops);
    assert new_[k..|new_|] == new_[k..];
    CatchUpIff(new_, v.table, k);
  }

  // ---- failures and rewinds ----

  ghost predicate IsLastRemove(log: Log, l: nat, p: Pair) {
    && l < |log| && log[l].body == Remove(p)
    && forall i :: l < i < |log| ==> log[i].body != Remove(p)
  }

  ghost predicate NoRemoves(log: Log, k: nat, p: Pair) {
    forall i :: k <= i < |log| ==> log[i].body != Remove(p)
  }

  /** The queue after the rows from k up to j. */
  function At(log: Log, k: nat, q: Queue, j: nat): Queue
    requires k <= j <= |log|
  {
    Fold(ApplyQueue, q, log[k..j])
  }

  /** The pair's last remove, if there is one from row k on, finds at most one entry. */
  ghost predicate LastAlone(log: Log, k: nat, q: Queue, p: Pair) {
    forall l :: k <= l && IsLastRemove(log, l, p) ==> |Waiting(At(log, k, q, l), p)| <= 1
  }

  lemma AtNext(log: Log, k: nat, q: Queue, j: nat)
    requires k <= j < |log|
    ensures At(log, k, q, j + 1) == ApplyQueue(At(log, k, q, j), log[j])
  {
    assert log[k..j + 1][..j - k] == log[k..j] && log[k..j + 1][..j - k + 1] == log[k..j + 1];
    FoldNext(ApplyQueue, q, log[k..j + 1], j - k);
  }

  lemma AtRest(log: Log, k: nat, q: Queue, j: nat)
    requires k <= j <= |log|
    ensures Fold(ApplyQueue, At(log, k, q, j), log[j..]) == Fold(ApplyQueue, q, log[k..]) == At(log, k, q, |log|)
  {
    assert log[k..j] + log[j..] == log[k..] && log[k..|log|] == log[k..];
    FoldAppend(ApplyQueue, q, log[k..j], log[j..]);
  }

  lemma {:induction false} AtKept(log: Log, k: nat, q: Queue, j: nat)
    requires UniqueIds(log) && k <= j <= |log| && Faithful(q, log) && Fresh(q, log, k)
    ensures Faithful(At(log, k, q, j), log) && Fresh(At(log, k, q, j), log, j)
    decreases j
  {
    hide ApplyQueue, Faithful, Fresh, UniqueIds;
    if k < j {
      AtKept(log, k, q, j - 1);
      AtNext(log, k, q, j - 1);
      FaithfulStep(log, At(log, k, q, j - 1), j - 1);
      FreshStep(log, At(log, k, q, j - 1), j - 1);
    } else {
      assert log[k..j] == [];
    }
  }

  /** The entries of one queue are all in another. */
  ghost predicate Part(a: Queue, b: Queue) {
    forall id :: id in a ==> id in b && a[id] == b[id]
  }

  lemma PartStep(a: Queue, b: Queue, e: Event<QueueEvent>)
    requires Part(a, b)
    ensures Part(ApplyQueue(a, e), ApplyQueue(b, e))
  {
    if e.body.Remove? {
      var p := e.body.pair;
      if Waiting(b, p) != {} && Oldest(b, p) in a {
        IsOldestUnique(a, p, Oldest(b, p));
      } else if Waiting(a, p) != {} {
        assert Oldest(a, p) in Waiting(b, p);
      }
    }
  }

  /**
   A queue met at row i while the rows from k on are delivered, possibly not for the first
   time: behind every row reached it holds nothing that a single pass does not, and what
   is left at the end of a single pass is there once its add lies behind.
   */
  ghost predicate Delivered(log: Log, k: nat, q: Queue, t: Queue, i: nat) {
    && k <= i <= |log| && Faithful(t, log)
    && (forall j :: k <= j <= i ==> Part(Behind(t, log, j), At(log, k, q, j)))
    && (forall id :: id in At(log, k, q, |log|) && id !in Ahead(log, i) ==> id in t)
  }

  lemma AheadShrinks(log: Log, i: nat, j: nat)
    requires i <= j <= |log|
    ensures Ahead(log, j) <= Ahead(log, i)
  {
  }

  lemma DeliveredEarlier(log: Log, k: nat, q: Queue, t: Queue, j: nat, i: nat)
    requires k <= j <= i && Delivered(log, k, q, t, i)
    ensures Delivered(log, k, q, t, j)
  {
    AheadShrinks(log, j, i);
    hide Ahead, Behind, At, Faithful;
  }

  /** A row reached again leaves nothing new behind an earlier row. */
  lemma BehindShrinks(log: Log, t: Queue, i: nat, j: nat)
    requires UniqueIds(log) && j <= i < |log|
    ensures Part(Behind(ApplyQueue(t, log[i]), log, j), Behind(t, log, j))
  {
    assert log[i].body.Add? ==> log[i].id in Ahead(log, j);
  }

  lemma PartOfPart(a: Queue, b: Queue, c: Queue)
    requires Part(a, b) && Part(b, c)
    ensures Part(a, c)
  {
  }

  lemma DeliveredPart(log: Log, k: nat, q: Queue, t: Queue, i: nat, j: nat)
    requires UniqueIds(log) && Timely(log) && i < |log| && Delivered(log, k, q, t, i) && k <= j <= i + 1
    ensures Part(Behind(ApplyQueue(t, log[i]), log, j), At(log, k, q, j))
  {
    hide Ahead, Behind, At, Faithful, Part, UniqueIds, Timely, ApplyQueue;
    if j == i + 1 {
      BehindStep(log, t, i);
      assert Part(Behind(t, log, i), At(log, k, q, i));
      PartStep(Behind(t, log, i), At(log, k, q, i), log[i]);
      AtNext(log, k, q, i);
    } else {
      BehindShrinks(log, t, i, j);
      PartOfPart(Behind(ApplyQueue(t, log[i]), log, j), Behind(t, log, j), At(log, k, q, j));
    }
  }

  lemma {:induction false} LastRemove(log: Log, i: nat, p: Pair) returns (l: nat)
    requires i < |log| && log[i].body == Remove(p)
    ensures i <= l && IsLastRemove(log, l, p)
    decreases |log| - i
  {
    if j :| i < j < |log| && log[j].body == Remove(p) {
      l := LastRemove(log, j, p);
    } else {
      l := i;
    }
  }

  /** After a last remove that finds at most one entry none is left. */
  lemma NoneAfterLast(log: Log, k: nat, q: Queue, l: nat, p: Pair)
    requires k <= l && IsLastRemove(log, l, p) && LastAlone(log, k, q, p)
    ensures Waiting(At(log, k, q, l + 1), p) == {}
  {
    AtNext(log, k, q, l);
    var before := At(log, k, q, l);
    hide At, Fold;
    if Waiting(before, p) != {} {
      assert Waiting(ApplyQueue(before, log[l]), p) == Waiting(before, p) - {Oldest(before, p)};
      OnlyOne(Waiting(before, p), Oldest(before, p));
    }
  }

  lemma OnlyOne(s: set<nat>, x: nat)
    requires |s| <= 1 && x in s
    ensures s - {x} == {}
  {
    assert |s - {x}| == 0;
  }

  lemma NoneWaiting(q: Queue, p: Pair, id: nat)
    requires Waiting(q, p) == {} && id in q
    ensures q[id].pair != p
  {
    assert id in q && q[id].pair == p ==> id in Waiting(q, p);
  }

  /** So what is left at the end of a single pass was added after the pair's last remove. */
  lemma LeftIsLate(log: Log, k: nat, q: Queue, i: nat, id: nat)
    requires UniqueIds(log) && Faithful(q, log) && k <= i < |log| && Fresh(q, log, k)
    requires id in At(log, k, q, |log|) && LastAlone(log, k, q, At(log, k, q, |log|)[id].pair)
    requires log[i].body == Remove(At(log, k, q, |log|)[id].pair)
    ensures id in Ahead(log, i + 1)
  {
    hide Ahead, At, Fold, Faithful, UniqueIds, Fresh, Waiting;
    var final := At(log, k, q, |log|);
    var p := final[id].pair;
    var l := LastRemove(log, i, p);
    var after := At(log, k, q, l + 1);
    NoneAfterLast(log, k, q, l, p);
    AtKept(log, k, q, l + 1);
    AtKept(log, k, q, |log|);
    AtRest(log, k, q, l + 1);
    AheadShrinks(log, i + 1, l + 1);
    if id in after {
      SameOwner(log, after, final, id);
      NoneWaiting(after, p, id);
    } else if id !in Ahead(log, l + 1) {
      GoneStays(log, after, l + 1, id);
    }
  }

  lemma DeliveredLeft(log: Log, k: nat, q: Queue, t: Queue, i: nat, id: nat)
    requires UniqueIds(log) && Faithful(q, log) && k <= |log| && Fresh(q, log, k) && i < |log|
      && Delivered(log, k, q, t, i)
    requires forall p :: LastAlone(log, k, q, p)
    requires id in At(log, k, q, |log|) && id !in Ahead(log, i + 1)
    ensures id in ApplyQueue(t, log[i])
  {
    hide Ahead, Behind, At, Faithful, Part, UniqueIds, LastAlone, Fresh;
    var final := At(log, k, q, |log|);
    AheadNext(log, i);
    AtKept(log, k, q, |log|);
    if log[i].body.Remove? {
      SameOwner(log, t, final, id);
      if log[i].body.pair == final[id].pair {
        LeftIsLate(log, k, q, i, id);
      }
    }
  }

  lemma DeliveredStep(log: Log, k: nat, q: Queue, t: Queue, i: nat)
    requires UniqueIds(log) && Timely(log) && Faithful(q, log) && k <= |log| && Fresh(q, log, k)
    requires forall p :: LastAlone(log, k, q, p)
    requires i < |log| && Delivered(log, k, q, t, i)
    ensures Delivered(log, k, q, ApplyQueue(t, log[i]), i + 1)
  {
    FaithfulStep(log, t, i);
    hide Ahead, Behind, At, Faithful, Part, UniqueIds, Timely, LastAlone, Fresh, ApplyQueue;
    forall j | k <= j <= i + 1 ensures Part(Behind(ApplyQueue(t, log[i]), log, j), At(log, k, q, j)) {
      DeliveredPart(log, k, q, t, i, j);
    }
    forall id | id in At(log, k, q, |log|) && id !in Ahead(log, i + 1) ensures id in ApplyQueue(t, log[i]) {
      DeliveredLeft(log, k, q, t, i, id);
    }
  }

  ghost function DeliveryInvariant(log: Log, k: nat, q: Queue): (Queue, nat) -> bool {
    (t, i) => Delivered(log, k, q, t, i)
  }

  lemma DeliveryMeaning(log: Log, k: nat, q: Queue)
    ensures forall t, i :: DeliveryInvariant(log, k, q)(t, i) <==> Delivered(log, k, q, t, i)
  {
  }

  lemma DeliveredReplayable(log: Log, k: nat, q: Queue)
    requires UniqueIds(log) && Timely(log) && Faithful(q, log) && k <= |log| && Fresh(q, log, k)
    requires forall p :: LastAlone(log, k, q, p)
    ensures Replayable(ApplyQueue, log, k, DeliveryInvariant(log, k, q))
  {
    hide *;
    var J := DeliveryInvariant(log, k, q);
    DeliveryMeaning(log, k, q);
    forall t, i | k <= i < |log| && J(t, i) ensures J(ApplyQueue(t, log[i]), i + 1) {
      DeliveredStep(log, k, q, t, i);
    }
    forall t, i, j | k <= j <= i <= |log| && J(t, i) ensures J(t, j) {
      DeliveredEarlier(log, k, q, t, j, i);
    }
    ReplayableIntro(ApplyQueue, log, k, J);
  }

  lemma DeliveredAtStart(log: Log, k: nat, t: Queue)
    requires UniqueIds(log) && Faithful(t, log) && k <= |log|
    ensures Delivered(log, k, Behind(t, log, k), t, k)
  {
    var q := Behind(t, log, k);
    assert log[k..k] == [];
    AtRest(log, k, q, k);
    hide Ahead, Faithful, UniqueIds, Fold;
    forall id | id in At(log, k, q, |log|) && id !in Ahead(log, k) ensures id in t {
      if id !in q {
        GoneStays(log, q, k, id);
      }
    }
  }

  lemma DeliveredAtEnd(log: Log, k: nat, q: Queue, t: Queue)
    requires UniqueIds(log) && Faithful(q, log) && k <= |log| && Fresh(q, log, k) && Delivered(log, k, q, t, |log|)
    ensures t == At(log, k, q, |log|)
  {
    NothingAhead(log, t);
    assert Part(Behind(t, log, |log|), At(log, k, q, |log|));
  }

  /**
   If every pair's last remove finds at most one entry, passes that reach the end of the log
   end like a single one.
   */
  lemma {:induction false} PassesDeliver(log: Log, k: nat, t: Queue, passes: seq<Stretch>)
    requires UniqueIds(log) && Timely(log) && Faithful(t, log) && k <= |log|
    requires forall p :: LastAlone(log, k, Behind(t, log, k), p)
    requires Chained(k, |log|, k, passes) && Reached(k, passes) == |log|
    ensures RunPasses(ApplyQueue, log, t, passes) == Fold(ApplyQueue, t, log[k..])
  {
    hide Ahead, Behind, At, Faithful, UniqueIds, Timely, LastAlone, Fresh, ApplyQueue, Fold, RunPasses, Chained,
      Reached, Delivered,
      Replayable;
    var q := Behind(t, log, k);
    BehindKept(log, t, k);
    DeliveredAtStart(log, k, t);
    DeliveryMeaning(log, k, q);
    DeliveredReplayable(log, k, q);
    PassesKeep(ApplyQueue, log, k, DeliveryInvariant(log, k, q), t, k, passes);
    DeliveredAtEnd(log, k, q, RunPasses(ApplyQueue, log, t, passes));
    AtRest(log, k, q, k);
    CatchUpForgets(log, t, k);
  }

  lemma {:induction false} RunDelivers(log: Log, v: View<Queue>, ops: seq<Op>)
    requires Sorted(log) && UniqueIds(log) && Timely(log) && Faithful(v.table, log)
    requires var k := Rank(log, v.cursor); forall p :: LastAlone(log, k, Behind(v.table, log, k), p)
    requires Backward(ApplyQueue, log, v, ops, Rank(log, v.cursor)) && Idle(log, Run(ApplyQueue, log, v, ops))
    ensures Run(ApplyQueue, log, v, ops).table == Fold(ApplyQueue, v.table, log[Rank(log, v.cursor)..])
  {
    var k := Rank(log, v.cursor);
    var passes := RunIsPasses(ApplyQueue, log, k, v, ops, k);
    hide Behind, Faithful, UniqueIds, Timely, LastAlone, ApplyQueue, Fold, RunPasses, Run, Chained, Sorted, After;
    PassesDeliver(log, k, v.table, passes);
  }

  // ---- the exact condition ----

  /**
   A pair is safe: whether the catch-up starts from the kept entries or from the queue at
   the reset position, the pair's last remove finds at most one entry; and a pair without
   removes has the same entries in both.
   */
  ghost predicate PairSafe(log: Log, k: nat, x: Queue, y: Queue, p: Pair)
    requires k <= |log|
  {
    && LastAlone(log, k, x, p) && LastAlone(log, k, y, p)
    && (NoRemoves(log, k, p) ==> Waiting(x, p) == Waiting(y, p))
  }

  /** Whatever polls, failures and rewinds follow, an idle queue is that of the whole log. */
  ghost predicate EveryRunExact(log: Log, v: View<Queue>) {
    forall ops :: Backward(ApplyQueue, log, v, ops, Rank(log, v.cursor)) && Idle(log, Run(ApplyQueue, log, v, ops))
      ==> Run(ApplyQueue, log, v, ops).table == Replayed(log)
  }

  lemma {:induction false} RemovesNone(log: Log, i: nat, p: Pair)
    requires i <= |log| && NoRemoves(log, i, p)
    ensures Removes(log[i..], p) == 0
    decreases |log| - i
  {
    if i < |log| {
      Unfold(map[], log, i);
      RemovesNone(log, i + 1, p);
    }
  }

  lemma {:induction false} StaysLeft(log: Log, q: Queue, i: nat, p: Pair, id: nat)
    requires UniqueIds(log) && Timely(log) && Faithful(q, log) && i <= |log| && Fresh(q, log, i)
    requires NoRemoves(log, i, p) && id in Waiting(q, p)
    ensures id in Fold(ApplyQueue, q, log[i..])
  {
    hide Fold, UniqueIds, Timely, Faithful, Fresh;
    RemovesNone(log, i, p);
    SurvivesIff(log, q, i, p, id);
  }

  lemma {:induction false} SuffixMax(log: Log, k: nat, j: nat, p: Pair)
    requires k <= j <= |log|
    ensures MaxExcess(log[j..], p) <= MaxExcess(log[k..], p)
    decreases j - k
  {
    if k < j {
      Unfold(map[], log, k);
      SuffixMax(log, k + 1, j, p);
    }
  }

  lemma IsRow(log: Log, l: nat, p: Pair)
    requires IsLastRemove(log, l, p)
    ensures l < |log| && log[l].body == Remove(p)
  {
  }

  /** A pair whose last remove finds at most one entry is empty at some point. */
  lemma Emptied(log: Log, k: nat, q: Queue, l: nat, p: Pair)
    requires UniqueIds(log) && Faithful(q, log) && k <= |log| && Fresh(q, log, k)
    requires k <= l && IsLastRemove(log, l, p) && LastAlone(log, k, q, p)
    ensures RunsEmpty(|Waiting(q, p)|, log[k..], p)
  {
    hide Fold, UniqueIds, Faithful, Fresh, LastAlone, IsLastRemove, Excess, MaxExcess, At;
    IsRow(log, l, p);
    NoneAfterLast(log, k, q, l, p);
    AtKept(log, k, q, l + 1);
    AtRest(log, k, q, l + 1);
    CountLeft(log, q, k, p);
    CountLeft(log, At(log, k, q, l + 1), l + 1, p);
    MaxExcessBounds(log[l + 1..], p);
    SuffixMax(log, k, l + 1, p);
  }

  lemma UnreachedZero(q: Queue, p: Pair)
    ensures Unreached(q, p, 0) == Waiting(q, p)
  {
  }

  lemma SafeMerges(log: Log, k: nat, x: Queue, y: Queue, p: Pair)
    requires UniqueIds(log) && k <= |log| && Faithful(x, log) && Faithful(y, log) && Fresh(x, log, k)
      && Fresh(y, log, k)
    requires PairSafe(log, k, x, y, p)
    ensures PairMerges(log, k, x, y, p)
  {
    hide UniqueIds, Faithful, Fresh, Waiting, LastAlone, Unreached, Removes, IsLastRemove, Excess, MaxExcess;
    if NoRemoves(log, k, p) {
      RemovesNone(log, k, p);
      UnreachedZero(x, p);
      UnreachedZero(y, p);
    } else {
      var i :| k <= i < |log| && log[i].body == Remove(p);
      var l := LastRemove(log, i, p);
      Emptied(log, k, x, l, p);
      Emptied(log, k, y, l, p);
    }
  }

  /** What waits after the last remove is left at the end. */
  lemma AfterLastStays(log: Log, k: nat, q: Queue, l: nat, p: Pair, id: nat)
    requires UniqueIds(log) && Timely(log) && Faithful(q, log) && k <= |log| && Fresh(q, log, k)
    requires k <= l && IsLastRemove(log, l, p) && id in Waiting(At(log, k, q, l + 1), p)
    ensures id in At(log, k, q, |log|) && id !in Ahead(log, l + 1) && At(log, k, q, |log|)[id].pair == p
  {
    hide Fold, UniqueIds, Timely, Faithful, At, Ahead;
    AtKept(log, k, q, l + 1);
    AtKept(log, k, q, |log|);
    AtRest(log, k, q, l + 1);
    StaysLeft(log, At(log, k, q, l + 1), l + 1, p, id);
    SameOwner(log, At(log, k, q, l + 1), At(log, k, q, |log|), id);
  }

  lemma SomeLeft(q: Queue, e: Event<QueueEvent>, p: Pair)
    requires e.body == Remove(p) && |Waiting(q, p)| > 1
    ensures Waiting(ApplyQueue(q, e), p) != {}
  {
    var o := Oldest(q, p);
    assert Waiting(ApplyQueue(q, e), p) == Waiting(q, p) - {o};
    assert |Waiting(q, p) - {o}| == |Waiting(q, p)| - 1;
  }

  lemma OldestTaken(q: Queue, e: Event<QueueEvent>, p: Pair)
    requires e.body == Remove(p) && Waiting(q, p) != {}
    ensures Oldest(q, p) in Waiting(q, p) && Oldest(q, p) !in ApplyQueue(q, e)
  {
  }

  /** Behind a remove applied once more stands the queue after it. */
  lemma BehindTwice(log: Log, k: nat, t: Queue, l: nat)
    requires UniqueIds(log) && Timely(log) && Faithful(t, log) && k <= l < |log| && log[l].body.Remove?
    ensures var once := ApplyQueue(At(log, k, t, l), log[l]);
      && Faithful(once, log) && Behind(once, log, l) == At(log, k, Behind(t, log, k), l + 1)
  {
    BehindFold(log, t, k, l);
    var before := At(log, k, t, l);
    assert At(log, k, Behind(t, log, k), l) == Behind(before, log, l);
    FaithfulStep(log, before, l);
    BehindStep(log, before, l);
    AtNext(log, k, Behind(t, log, k), l);
    AheadNext(log, l);
    hide ApplyQueue, Ahead, Fold, UniqueIds, Timely, Faithful, At;
    assert Ahead(log, l) == Ahead(log, l + 1);
  }

  /** A last remove that finds two entries takes both when it is applied twice. */
  lemma TwiceTakesTwo(log: Log, k: nat, t: Queue, l: nat, p: Pair)
    requires UniqueIds(log) && Timely(log) && Faithful(t, log) && k <= l && IsLastRemove(log, l, p)
    requires |Waiting(At(log, k, Behind(t, log, k), l), p)| > 1
    ensures Fold(ApplyQueue, ApplyQueue(At(log, k, t, l), log[l]), log[l..]) != At(log, k, Behind(t, log, k), |log|)
  {
    hide ApplyQueue, Behind, Ahead, Fold, UniqueIds, Timely, Faithful, At, Waiting;
    var q := Behind(t, log, k);
    var once, after := ApplyQueue(At(log, k, t, l), log[l]), At(log, k, q, l + 1);
    BehindKept(log, t, k);
    BehindTwice(log, k, t, l);
    CatchUpForgets(log, once, l);
    AtNext(log, k, q, l);
    SomeLeft(At(log, k, q, l), log[l], p);
    OldestTaken(after, log[l], p);
    var o := Oldest(after, p);
    AfterLastStays(log, k, q, l, p, o);
    Unfold(after, log, l);
    GoneStays(log, ApplyQueue(after, log[l]), l + 1, o);
  }

  /** If a run that repeats the last remove is exact, it finds at most one entry. */
  lemma ExactIsAlone(log: Log, v: View<Queue>, p: Pair)
    requires Sorted(log) && UniqueIds(log) && Timely(log) && Faithful(v.table, log) && EveryRunExact(log, v)
    requires var k := Rank(log, v.cursor); Fold(ApplyQueue, v.table, log[k..]) == Replayed(log)
    ensures var k := Rank(log, v.cursor); LastAlone(log, k, Behind(v.table, log, k), p)
  {
    hide ApplyQueue, Behind, Ahead, Fold, UniqueIds, Timely, Faithful, Waiting, Run, Backward, Sorted, Rank, Replayed;
    var k := Rank(log, v.cursor);
    var q := Behind(v.table, log, k);
    CatchUpForgets(log, v.table, k);
    AtRest(log, k, q, k);
    forall l | k <= l && IsLastRemove(log, l, p) ensures |Waiting(At(log, k, q, l), p)| <= 1 {
      TwiceAtRun(ApplyQueue, log, v, l);
      if |Waiting(At(log, k, q, l), p)| > 1 {
        TwiceTakesTwo(log, k, v.table, l, p);
      }
    }
  }

  /** Of two queues that end the same, both last removes find at most one entry if one does. */
  lemma AloneInBoth(log: Log, k: nat, x: Queue, y: Queue, p: Pair)
    requires UniqueIds(log) && Timely(log) && Faithful(x, log) && Faithful(y, log) && k <= |log| && Fresh(x, log, k)
      && Fresh(y, log, k)
    requires At(log, k, x, |log|) == At(log, k, y, |log|) && LastAlone(log, k, x, p)
    ensures LastAlone(log, k, y, p)
  {
    hide ApplyQueue, Ahead, Fold, UniqueIds, Timely, Faithful, Fresh, At, Waiting;
    forall l | k <= l && IsLastRemove(log, l, p) ensures |Waiting(At(log, k, y, l), p)| <= 1 {
      if |Waiting(At(log, k, y, l), p)| > 1 {
        AtNext(log, k, y, l);
        SomeLeft(At(log, k, y, l), log[l], p);
        var o :| o in Waiting(At(log, k, y, l + 1), p);
        AfterLastStays(log, k, y, l, p, o);
        LeftIsLate(log, k, x, l, o);
      }
    }
  }

  lemma {:induction false} WaitingMoves(log: Log, k: nat, x: Queue, y: Queue, p: Pair, id: nat)
    requires UniqueIds(log) && Timely(log) && Faithful(x, log) && Faithful(y, log) && k <= |log| && Fresh(x, log, k)
      && Fresh(y, log, k)
    requires Fold(ApplyQueue, x, log[k..]) == Fold(ApplyQueue, y, log[k..]) && NoRemoves(log, k, p)
      && id in Waiting(x, p)
    ensures id in Waiting(y, p)
  {
    hide ApplyQueue, Ahead, Fold, UniqueIds, Timely, Faithful;
    StaysLeft(log, x, k, p, id);
    if id !in y {
      GoneStays(log, y, k, id);
    }
    SameOwner(log, x, y, id);
  }

  lemma {:induction false} EndSameIsSafe(log: Log, k: nat, x: Queue, y: Queue, p: Pair)
    requires UniqueIds(log) && Timely(log) && Faithful(x, log) && Faithful(y, log) && k <= |log| && Fresh(x, log, k)
      && Fresh(y, log, k)
    requires Fold(ApplyQueue, x, log[k..]) == Fold(ApplyQueue, y, log[k..]) && LastAlone(log, k, x, p)
    ensures PairSafe(log, k, x, y, p)
  {
    hide ApplyQueue, Ahead, Fold, UniqueIds, Timely, Faithful, Fresh, LastAlone, NoRemoves, Waiting, At;
    AtRest(log, k, x, k);
    AtRest(log, k, y, k);
    AloneInBoth(log, k, x, y, p);
    if NoRemoves(log, k, p) {
      forall id ensures id in Waiting(x, p) <==> id in Waiting(y, p) {
        if id in Waiting(x, p) {
          WaitingMoves(log, k, x, y, p, id);
        }
        if id in Waiting(y, p) {
          WaitingMoves(log, k, y, x, p, id);
        }
      }
    }
  }

  /** All pairs are safe, counting from the cursor. */
  ghost predicate AllSafe(log: Log, v: View<Queue>) {
    var k := Rank(log, v.cursor);
    forall p :: PairSafe(log, k, Behind(v.table, log, k), Replayed(log[..k]), p)
  }

  lemma SafeRunsExact(log: Log, v: View<Queue>)
    requires Sorted(log) && UniqueIds(log) && Timely(log) && Faithful(v.table, log) && AllSafe(log, v)
    ensures EveryRunExact(log, v)
  {
    hide ApplyQueue, Behind, Ahead, Fold, UniqueIds, Timely, Faithful, Fresh, LastAlone, NoRemoves, Waiting, At, Run,
      Backward, Sorted,
      Rank, Replayed, PairMerges;
    var k := Rank(log, v.cursor);
    var x, y := Behind(v.table, log, k), Replayed(log[..k]);
    BehindKept(log, v.table, k);
    TruthAt(log, k);
    forall p ensures PairMerges(log, k, x, y, p) && LastAlone(log, k, x, p) {
      assert PairSafe(log, k, x, y, p);
      SafeMerges(log, k, x, y, p);
    }
    CatchUpIff(log, v.table, k);
    forall ops | Backward(ApplyQueue, log, v, ops, k) && Idle(log, Run(ApplyQueue, log, v, ops))
      ensures Run(ApplyQueue, log, v, ops).table == Replayed(log)
    {
      RunDelivers(log, v, ops);
    }
  }

  lemma ExactRunsSafe(log: Log, v: View<Queue>)
    requires Sorted(log) && UniqueIds(log) && Timely(log) && Faithful(v.table, log) && EveryRunExact(log, v)
    ensures AllSafe(log, v)
  {
    hide ApplyQueue, Behind, Ahead, Fold, UniqueIds, Timely, Faithful, Fresh, LastAlone, NoRemoves, Waiting, At, Run,
      Backward, Sorted,
      Rank, Replayed, PairSafe;
    var k := Rank(log, v.cursor);
    var x, y := Behind(v.table, log, k), Replayed(log[..k]);
    CatchUpRun(ApplyQueue, log, v);
    BehindKept(log, v.table, k);
    TruthAt(log, k);
    CatchUpForgets(log, v.table, k);
    forall p ensures PairSafe(log, k, x, y, p) {
      ExactIsAlone(log, v, p);
      EndSameIsSafe(log, k, x, y, p);
    }
  }

  /**
   The exact condition under failures: every run of polls of any sizes, polls failing at
   any row and rewinds down to the cursor's position that becomes idle ends in the log's
   queue if and only if every pair is safe.
   */
  lemma EveryRunExactIff(log: Log, v: View<Queue>)
    requires Sorted(log) && UniqueIds(log) && Timely(log) && Faithful(v.table, log)
    ensures EveryRunExact(log, v) <==> AllSafe(log, v)
  {
    hide *;
    if EveryRunExact(log, v) {
      ExactRunsSafe(log, v);
    }
    if AllSafe(log, v) {
      SafeRunsExact(log, v);
    }
  }

  /** The same for a reset of any queue of the old chain. */
  lemma RecoveryUnderFailuresIff(old_: Log, new_: Log, t: Queue, block: int)
    requires Sorted(new_) && UniqueIds(new_) && Timely(new_) && EventCopy.AgreeUpTo(old_, new_, block)
      && Faithful(t, old_)
    ensures var kept: Queue := map id | id in t && t[id].block <= block :: t[id];
      var v := View(kept, Cursor(block, 0)); EveryRunExact(new_, v) <==> AllSafe(new_, v)
  {
    CutIsFaithful(old_, new_, t, block);
    assert CutQueue(t, block) == map id | id in t && t[id].block <= block :: t[id];
    EveryRunExactIff(new_, View(CutQueue(t, block), Cursor(block, 0)));
  }

  /** And for a queue filled from the start: it takes that every pair's last remove finds at most one entry. */
  lemma DeliveryIff(log: Log)
    requires Sorted(log) && UniqueIds(log) && Timely(log) && Rank(log, ORIGIN) == 0
    ensures EveryRunExact(log, View(map[], ORIGIN)) <==> forall p :: LastAlone(log, 0, map[], p)
  {
    hide Rank, Sorted, UniqueIds, Timely, LastAlone, NoRemoves, EveryRunExact, AllSafe;
    EveryRunExactIff(log, View(map[], ORIGIN));
    SafeFromStart(log);
  }

  lemma SafeFromStart(log: Log)
    requires Rank(log, ORIGIN) == 0
    ensures AllSafe(log, View(map[], ORIGIN)) <==> forall p :: LastAlone(log, 0, map[], p)
  {
    hide Rank, LastAlone, NoRemoves;
    var none := Replayed(log[..0]);
    assert none == map[];
    assert Behind(map[], log, 0) == none;
    forall p ensures PairSafe(log, 0, Behind(map[], log, 0), none, p) <==> LastAlone(log, 0, map[], p) {
    }
  }

  // ---- two ways to lose an add ----

  lemma WaitingOne(id: nat, e: Entry)
    ensures Waiting(map[id := e], e.pair) == {id} && Oldest(map[id := e], e.pair) == id
  {
    assert id in Waiting(map[id := e], e.pair);
  }

  /** The old chain removed, past the reset block, what the new chain keeps. */
  lemma OrphanRemoveTakesAdd() returns (old_: Log, new_: Log, block: int)
    ensures Sorted(old_) && Sorted(new_) && UniqueIds(new_) && Timely(new_) && EventCopy.AgreeUpTo(old_, new_, block)
    ensures Idle(new_, View(CutQueue(Replayed(old_), block), Cursor(block, 0)))
    ensures CutQueue(Replayed(old_), block) != Replayed(new_)
  {
    var p := Pair(1, 2);
    var added: Event<QueueEvent>, removed: Event<QueueEvent> :=
      Event(Cursor(5, 0), 0, Add(p, 1, 50)), Event(Cursor(8, 0), 1, Remove(p));
    old_, new_, block := [added, removed], [added], 6;
    assert [added] + [removed] == old_;
    ReplayedAppend([added], removed);
    FoldOne(ApplyQueue, map[], added);
    WaitingOne(added.id, EntryOf(added));
    hide Fold;
    assert Replayed(new_) == map[added.id := EntryOf(added)];
    assert Replayed(old_) == map[];
  }

  /** On one and the same chain: a remove in the reset block is replayed over an add the reset kept. */
  lemma ResetReplaysRemove() returns (log: Log, block: int, ops: seq<Op>)
    ensures Sorted(log) && UniqueIds(log) && Timely(log) && NoFailures(ops)
    ensures var w := Run(ApplyQueue, log, View(CutQueue(Replayed(log), block), Cursor(block, 0)), ops);
      Idle(log, w) && w.table != Replayed(log)
  {
    var p := Pair(1, 2);
    var a: Event<QueueEvent>, b: Event<QueueEvent>, c: Event<QueueEvent> :=
      Event(Cursor(3, 0), 0, Add(p, 1, 30)), Event(Cursor(4, 0), 1, Add(p, 1, 40)), Event(Cursor(5, 1), 2, Remove(p));
    log, block, ops := [a, b, c], 5, CatchUp(3);
    TwoThenRemove(a, b, c);
    hide Fold, Run, After, Oldest, Idle, Replayed, NoFailures, ApplyQueue;
    var v := View(CutQueue(Replayed(log), block), Cursor(block, 0));
    assert v.table == map[b.id := EntryOf(b)];
    assert b.id in Replayed(log);
    RemoveComesAgain(log, v, b, c);
  }

  lemma {:induction false} RemoveComesAgain(log: Log, v: View<Queue>, b: Event<QueueEvent>, c: Event<QueueEvent>)
    requires Sorted(log) && |log| == 3 && log[1] == b && log[2] == c && b.body.Add? && c.body == Remove(b.body.pair)
    requires !v.cursor.Before(b.key) && v.cursor.Before(c.key) && v.table == map[b.id := EntryOf(b)]
    ensures NoFailures(CatchUp(3)) && Idle(log, Run(ApplyQueue, log, v, CatchUp(3)))
    ensures Run(ApplyQueue, log, v, CatchUp(3)).table == map[]
  {
    hide Fold, Run, Rank, After, Sorted, Oldest, Idle, NoFailures, ApplyQueue;
    RankSplits(log, v.cursor);
    CatchUpRun(ApplyQueue, log, v);
    assert log[2..] == [c];
    FoldOne(ApplyQueue, v.table, c);
    RemoveLast(b, c);
  }

  lemma RemoveLast(b: Event<QueueEvent>, c: Event<QueueEvent>)
    requires b.body.Add? && c.body == Remove(b.body.pair)
    ensures ApplyQueue(map[b.id := EntryOf(b)], c) == map[]
  {
    WaitingOne(b.id, EntryOf(b));
  }

  lemma TwoThenRemove(a: Event<QueueEvent>, b: Event<QueueEvent>, c: Event<QueueEvent>)
    requires a.body.Add? && b.body.Add? && a.body.pair == b.body.pair && c.body == Remove(a.body.pair)
    requires a.id != b.id && a.body.queuedAt < b.body.queuedAt
    ensures Replayed([a, b, c]) == map[b.id := EntryOf(b)]
  {
    FoldOne(ApplyQueue, map[], a);
    assert [a] + [b] == [a, b] && [a, b] + [c] == [a, b, c];
    ReplayedAppend([a], b);
    ReplayedAppend([a, b], c);
    var q: Queue := map[a.id := EntryOf(a), b.id := EntryOf(b)];
    assert IsOldest(q, a.body.pair, a.id);
    IsOldestUnique(q, a.body.pair, a.id);
  }
}
