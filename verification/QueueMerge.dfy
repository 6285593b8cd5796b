/**
 Two validator queues under the same rows: what each row does to the entries that the
 rows still to come do not add again, how many entries are left, and when both queues
 end the same.
 */
module QueueMerge {
  import opened EventLog
  import opened ValidatorQueue

  type Log = seq<Event<QueueEvent>>

  // ---- entries whose add lies behind a row ----

  /** The ids added at or after row i. */
  function Ahead(log: Log, i: nat): set<nat>
    requires i <= |log|
  {
    set a | i <= a < |log| && log[a].body.Add? :: log[a].id
  }

  /** The entries not added again by the rows from i on. */
  function Behind(q: Queue, log: Log, i: nat): Queue
    requires i <= |log|
  {
    map id | id in q && id !in Ahead(log, i) :: q[id]
  }

  lemma AheadNext(log: Log, i: nat)
    requires UniqueIds(log) && i < |log|
    ensures Ahead(log, i) == Ahead(log, i + 1) + if log[i].body.Add? then {log[i].id} else {}
    ensures log[i].id !in Ahead(log, i + 1)
  {
  }

  /** The add an entry comes from. */
  lemma AddOf(log: Log, q: Queue, id: nat) returns (a: nat)
    requires Faithful(q, log) && id in q
    ensures a < |log| && log[a].id == id && log[a].body.Add? && q[id] == EntryOf(log[a])
  {
    a :| 0 <= a < |log| && log[a].id == id && log[a].body.Add? && q[id] == EntryOf(log[a]);
  }

  lemma IsOldestUnique(q: Queue, p: Pair, id: nat)
    requires IsOldest(q, p, id)
    ensures Waiting(q, p) != {} && Oldest(q, p) == id
  {
    assert id in Waiting(q, p);
  }

  /** An entry behind row i was queued before any entry of its pair that is not. */
  lemma BehindIsOlder(log: Log, q: Queue, i: nat, id: nat, later: nat)
    requires UniqueIds(log) && Timely(log) && Faithful(q, log) && i <= |log|
    requires id in q && later in q && q[id].pair == q[later].pair && id !in Ahead(log, i) && later in Ahead(log, i)
    ensures q[id].queuedAt < q[later].queuedAt
  {
    var a := AddOf(log, q, id);
    var b := AddOf(log, q, later);
    assert a < i <= b;
  }

  lemma OldestIsBehind(log: Log, q: Queue, i: nat, p: Pair)
    requires UniqueIds(log) && Timely(log) && Faithful(q, log) && i <= |log| && Waiting(Behind(q, log, i), p) != {}
    ensures Waiting(q, p) != {} && Oldest(q, p) == Oldest(Behind(q, log, i), p)
  {
    hide Ahead, UniqueIds, Timely, Faithful;
    var behind := Behind(q, log, i);
    var o := Oldest(behind, p);
    forall other | other in q && q[other].pair == p
      ensures q[o].queuedAt < q[other].queuedAt || (q[o].queuedAt == q[other].queuedAt && o <= other)
    {
      if other in Ahead(log, i) {
        BehindIsOlder(log, q, i, o, other);
      } else {
        assert other in behind;
      }
    }
    IsOldestUnique(q, p, o);
  }

  lemma BehindRemove(log: Log, q: Queue, i: nat)
    requires UniqueIds(log) && Timely(log) && Faithful(q, log) && i < |log| && log[i].body.Remove?
    ensures Behind(ApplyQueue(q, log[i]), log, i + 1) == ApplyQueue(Behind(q, log, i), log[i])
  {
    hide Ahead, UniqueIds, Timely, Faithful;
    AheadNext(log, i);
    var p, behind := log[i].body.pair, Behind(q, log, i);
    if Waiting(behind, p) != {} {
      OldestIsBehind(log, q, i, p);
    } else if Waiting(q, p) != {} {
      var o := Oldest(q, p);
      assert o in behind ==> o in Waiting(behind, p);
    }
  }

  /** Applying a row acts on the entries behind it as if there were no others. */
  lemma BehindStep(log: Log, q: Queue, i: nat)
    requires UniqueIds(log) && Timely(log) && Faithful(q, log) && i < |log|
    ensures Behind(ApplyQueue(q, log[i]), log, i + 1) == ApplyQueue(Behind(q, log, i), log[i])
  {
    if log[i].body.Add? {
      AheadNext(log, i);
    } else {
      BehindRemove(log, q, i);
    }
  }

  lemma {:induction false} BehindFold(log: Log, q: Queue, i: nat, j: nat)
    requires UniqueIds(log) && Timely(log) && Faithful(q, log) && i <= j <= |log|
    ensures Faithful(Fold(ApplyQueue, q, log[i..j]), log)
    ensures Behind(Fold(ApplyQueue, q, log[i..j]), log, j) == Fold(ApplyQueue, Behind(q, log, i), log[i..j])
    decreases j
  {
    hide ApplyQueue, Behind, UniqueIds, Timely, Faithful;
    if i < j {
      var part := log[i..j];
      assert part[..j - 1 - i] == log[i..j - 1];
      assert part[..j - 1 - i + 1] == part;
      BehindFold(log, q, i, j - 1);
      FoldNext(ApplyQueue, q, part, j - 1 - i);
      FoldNext(ApplyQueue, Behind(q, log, i), part, j - 1 - i);
      FaithfulStep(log, Fold(ApplyQueue, q, log[i..j - 1]), j - 1);
      BehindStep(log, Fold(ApplyQueue, q, log[i..j - 1]), j - 1);
    }
  }

  lemma NothingAhead(log: Log, q: Queue)
    ensures Behind(q, log, |log|) == q
  {
  }

  // ---- how many entries are left, and which ----

  function Max(a: int, b: int): int {
    if a > b then a else b
  }

  function Removes(log: Log, p: Pair): nat {
    if log == [] then 0 else (if log[0].body == Remove(p) then 1 else 0) + Removes(log[1..], p)
  }

  /** The rows empty the pair at some point, if it starts with n entries. */
  predicate RunsEmpty(n: nat, log: Log, p: Pair) {
    n + Excess(log, p) <= MaxExcess(log, p)
  }

  /** The sizes of a pair before and after a row, when the row's own add is new. */
  lemma SizeStep(q: Queue, e: Event<QueueEvent>, p: Pair)
    requires e.body.Add? ==> e.id !in q
    ensures |Waiting(ApplyQueue(q, e), p)| == Max(|Waiting(q, p)| + Delta(e, p), 0)
  {
    var before, after := Waiting(q, p), Waiting(ApplyQueue(q, e), p);
    match e.body {
      case Add(owner, _, _) =>
        assert after == if owner == p then before + {e.id} else before;
      case Remove(owner) =>
        if Waiting(q, owner) != {} {
          assert after == if owner == p then before - {Oldest(q, owner)} else before;
        }
    }
  }

  /** No id of the rows is in the queue yet. */
  ghost predicate Fresh(q: Queue, log: Log, i: nat)
    requires i <= |log|
  {
    forall id :: id in q ==> id !in Ahead(log, i)
  }

  lemma FreshStep(log: Log, q: Queue, i: nat)
    requires UniqueIds(log) && i < |log| && Fresh(q, log, i)
    ensures Fresh(ApplyQueue(q, log[i]), log, i + 1)
    ensures log[i].body.Add? ==> log[i].id !in q
  {
    AheadNext(log, i);
    hide Ahead;
  }

  lemma Unfold(q: Queue, log: Log, i: nat)
    requires i < |log|
    ensures Fold(ApplyQueue, q, log[i..]) == Fold(ApplyQueue, ApplyQueue(q, log[i]), log[i + 1..])
    ensures forall p :: Excess(log[i..], p) == Delta(log[i], p) + Excess(log[i + 1..], p)
    ensures forall p :: MaxExcess(log[i..], p) == Max(Excess(log[i..], p), MaxExcess(log[i + 1..], p))
    ensures forall p :: Removes(log[i..], p) == (if log[i].body == Remove(p) then 1 else 0) + Removes(log[i + 1..], p)
  {
    assert log[i..][1..] == log[i + 1..];
  }

  lemma {:induction false} MaxExcessBounds(log: Log, p: Pair)
    ensures Excess(log, p) <= MaxExcess(log, p) <= Excess(log, p) + Removes(log, p)
  {
    if log != [] {
      MaxExcessBounds(log[1..], p);
    }
  }

  /** How many of a pair's entries are left at the end. */
  lemma {:induction false} CountLeft(log: Log, q: Queue, i: nat, p: Pair)
    requires UniqueIds(log) && i <= |log| && Fresh(q, log, i)
    ensures |Waiting(Fold(ApplyQueue, q, log[i..]), p)|
      == Max(|Waiting(q, p)| + Excess(log[i..], p), MaxExcess(log[i..], p))
    decreases |log| - i
  {
    hide ApplyQueue, Waiting, Fresh, UniqueIds;
    if i < |log| {
      Unfold(q, log, i);
      FreshStep(log, q, i);
      SizeStep(q, log[i], p);
      CountLeft(log, ApplyQueue(q, log[i]), i + 1, p);
      MaxExcessBounds(log[i + 1..], p);
    }
  }

  /** What is neither in the queue nor added by a row is not there at the end. */
  lemma {:induction false} GoneStays(log: Log, q: Queue, i: nat, id: nat)
    requires UniqueIds(log) && i <= |log| && id !in q && id !in Ahead(log, i)
    ensures id !in Fold(ApplyQueue, q, log[i..])
    decreases |log| - i
  {
    if i < |log| {
      Unfold(q, log, i);
      AheadNext(log, i);
      hide Ahead, Fold, UniqueIds;
      GoneStays(log, ApplyQueue(q, log[i]), i + 1, id);
    }
  }

  /** A pair's entries queued before a given one. */
  function Older(q: Queue, p: Pair, id: nat): set<nat>
    requires id in q
  {
    set o | o in Waiting(q, p) && q[o].queuedAt < q[id].queuedAt
  }

  lemma FaithfulTimes(log: Log, q: Queue, a: nat, b: nat)
    requires UniqueIds(log) && Timely(log) && Faithful(q, log)
    requires a in q && b in q && q[a].pair == q[b].pair && q[a].queuedAt == q[b].queuedAt
    ensures a == b
  {
    var i := AddOf(log, q, a);
    var j := AddOf(log, q, b);
  }

  lemma OlderAdd(log: Log, q: Queue, i: nat, p: Pair, id: nat)
    requires UniqueIds(log) && Timely(log) && Faithful(q, log) && i < |log| && Fresh(q, log, i) && id in Waiting(q, p)
    requires log[i].body.Add?
    ensures var after := ApplyQueue(q, log[i]); id in Waiting(after, p) && Older(after, p, id) == Older(q, p, id)
  {
    var after := ApplyQueue(q, log[i]);
    FaithfulStep(log, q, i);
    AheadNext(log, i);
    hide Ahead, UniqueIds, Timely, Faithful;
    assert id !in Ahead(log, i) && log[i].id in Ahead(log, i);
    if log[i].body.pair == p {
      BehindIsOlder(log, after, i, id, log[i].id);
    }
  }

  lemma OlderRemove(log: Log, q: Queue, p: Pair, id: nat)
    requires UniqueIds(log) && Timely(log) && Faithful(q, log) && id in Waiting(q, p)
    ensures var o := Oldest(q, p);
      if o == id then Older(q, p, id) == {} else o in Older(q, p, id)
  {
    var o := Oldest(q, p);
    if o != id && q[o].queuedAt == q[id].queuedAt {
      FaithfulTimes(log, q, o, id);
    }
  }

  lemma OlderAfterRemove(q: Queue, e: Event<QueueEvent>, p: Pair, id: nat)
    requires e.body.Remove? && id in Waiting(q, p) && !(e.body.pair == p && Oldest(q, p) == id)
    ensures var after := ApplyQueue(q, e);
      id in Waiting(after, p) && Older(after, p, id) == if e.body.pair == p then Older(q, p, id) - {Oldest(q, p)}
        else Older(q, p, id)
  {
    var owner := e.body.pair;
    if Waiting(q, owner) != {} {
      assert Oldest(q, owner) in Waiting(q, owner);
    }
  }

  /** What one row does to the entries older than one that stays. */
  lemma OlderStep(log: Log, q: Queue, i: nat, p: Pair, id: nat)
    requires UniqueIds(log) && Timely(log) && Faithful(q, log) && i < |log| && Fresh(q, log, i) && id in Waiting(q, p)
    ensures var after, hit := ApplyQueue(q, log[i]), log[i].body == Remove(p);
      if hit && Oldest(q, p) == id then id !in after && Older(q, p, id) == {}
      else id in Waiting(after, p) && |Older(after, p, id)| == |Older(q, p, id)| - if hit then 1 else 0
  {
    hide Older, UniqueIds, Timely, Faithful, Fresh;
    if log[i].body.Add? {
      OlderAdd(log, q, i, p, id);
    } else {
      OlderRemove(log, q, p, id);
      if !(log[i].body.pair == p && Oldest(q, p) == id) {
        OlderAfterRemove(q, log[i], p, id);
      }
    }
  }

  lemma {:induction false} SurvivesNone(log: Log, q: Queue, i: nat, id: nat)
    requires UniqueIds(log) && i < |log| && Fresh(q, log, i) && id in q && id !in ApplyQueue(q, log[i])
    ensures id !in Fold(ApplyQueue, q, log[i..])
  {
    hide ApplyQueue, Fold, UniqueIds;
    Unfold(q, log, i);
    AheadNext(log, i);
    assert id !in Ahead(log, i);
    GoneStays(log, ApplyQueue(q, log[i]), i + 1, id);
  }

  /** An entry is left exactly when at least as many of its pair are older as later rows remove. */
  lemma {:induction false} SurvivesIff(log: Log, q: Queue, i: nat, p: Pair, id: nat)
    requires UniqueIds(log) && Timely(log) && Faithful(q, log) && i <= |log| && Fresh(q, log, i) && id in Waiting(q, p)
    ensures id in Fold(ApplyQueue, q, log[i..]) <==> |Older(q, p, id)| >= Removes(log[i..], p)
    decreases |log| - i
  {
    hide Ahead, UniqueIds, Timely, Faithful, Fresh, ApplyQueue, Older;
    if i == |log| {
      assert log[i..] == [];
    } else {
      Unfold(q, log, i);
      OlderStep(log, q, i, p, id);
      FreshStep(log, q, i);
      FaithfulStep(log, q, i);
      if id in ApplyQueue(q, log[i]) {
        SurvivesIff(log, ApplyQueue(q, log[i]), i + 1, p, id);
      } else {
        SurvivesNone(log, q, i, id);
      }
    }
  }

  // ---- when two queues end the same ----

  function Larger(x: Queue, y: Queue, p: Pair): nat {
    Max(|Waiting(x, p)|, |Waiting(y, p)|)
  }

  /** The pair's entries that as many removes, taking the oldest each time, do not reach. */
  function Unreached(q: Queue, p: Pair, removes: nat): set<nat> {
    set id | id in Waiting(q, p) && |Older(q, p, id)| >= removes
  }

  /**
   Two queues come to hold the same of a pair: the rows empty it from both, or as many
   entries wait in both and those the removes do not reach are the same.
   */
  ghost predicate PairMerges(log: Log, i: nat, x: Queue, y: Queue, p: Pair)
    requires i <= |log|
  {
    || RunsEmpty(Larger(x, y, p), log[i..], p)
    || (|Waiting(x, p)| == |Waiting(y, p)|
      && Unreached(x, p, Removes(log[i..], p)) == Unreached(y, p, Removes(log[i..], p)))
  }

  ghost predicate SizesMerge(log: Log, i: nat, x: Queue, y: Queue, p: Pair)
    requires i <= |log|
  {
    RunsEmpty(Larger(x, y, p), log[i..], p) || |Waiting(x, p)| == |Waiting(y, p)|
  }

  lemma SizesMergeStep(log: Log, i: nat, x: Queue, y: Queue, p: Pair)
    requires UniqueIds(log) && i < |log| && Fresh(x, log, i) && Fresh(y, log, i) && SizesMerge(log, i, x, y, p)
    ensures SizesMerge(log, i + 1, ApplyQueue(x, log[i]), ApplyQueue(y, log[i]), p)
  {
    hide ApplyQueue, Waiting, Fresh, UniqueIds;
    Unfold(x, log, i);
    FreshStep(log, x, i);
    FreshStep(log, y, i);
    SizeStep(x, log[i], p);
    SizeStep(y, log[i], p);
    MaxExcessBounds(log[i + 1..], p);
  }

  /** Whatever of its pair waits before an add is older than it. */
  lemma AllOlder(log: Log, q: Queue, a: nat)
    requires UniqueIds(log) && Timely(log) && Faithful(q, log) && a < |log| && Fresh(q, log, a) && log[a].body.Add?
    ensures var p, after, id := log[a].body.pair, ApplyQueue(q, log[a]), log[a].id;
      id in Waiting(after, p) && Older(after, p, id) == Waiting(q, p)
  {
    var p, after, id := log[a].body.pair, ApplyQueue(q, log[a]), log[a].id;
    FaithfulStep(log, q, a);
    AheadNext(log, a);
    hide Ahead, UniqueIds, Timely, Faithful;
    forall o | o in Waiting(q, p) ensures o in Older(after, p, id) {
      assert o !in Ahead(log, a);
      BehindIsOlder(log, after, a, o, id);
    }
  }

  /** An add of the rows is left exactly when no more removes follow it than entries wait before it. */
  lemma {:induction false} OwnAddSurvives(log: Log, q: Queue, a: nat)
    requires UniqueIds(log) && Timely(log) && Faithful(q, log) && a < |log| && Fresh(q, log, a) && log[a].body.Add?
    ensures var p := log[a].body.pair;
      log[a].id in Fold(ApplyQueue, q, log[a..]) <==> |Waiting(q, p)| >= Removes(log[a + 1..], p)
  {
    hide Ahead, UniqueIds, Timely, Faithful, Fresh, Fold, Removes, Older;
    var p, after, id := log[a].body.pair, ApplyQueue(q, log[a]), log[a].id;
    Unfold(q, log, a);
    FreshStep(log, q, a);
    FaithfulStep(log, q, a);
    AllOlder(log, q, a);
    SurvivesIff(log, after, a + 1, p, id);
  }

  lemma EmptiedBeats(log: Log, a: nat, n: nat)
    requires a < |log| && log[a].body.Add? && n > 0 && RunsEmpty(n, log[a..], log[a].body.pair)
    ensures n < Removes(log[a + 1..], log[a].body.pair)
  {
    Unfold(map[], log, a);
    MaxExcessBounds(log[a + 1..], log[a].body.pair);
    hide Excess, MaxExcess, Removes;
  }

  /** Adds of the rows are left in both queues or in neither. */
  lemma {:induction false} NewEntriesSame(log: Log, i: nat, x: Queue, y: Queue, a: nat)
    requires UniqueIds(log) && Timely(log) && Faithful(x, log) && Faithful(y, log)
    requires i <= a < |log| && log[a].body.Add? && Fresh(x, log, i) && Fresh(y, log, i)
    requires SizesMerge(log, i, x, y, log[a].body.pair)
    ensures log[a].id in Fold(ApplyQueue, x, log[i..]) <==> log[a].id in Fold(ApplyQueue, y, log[i..])
    decreases a - i
  {
    hide ApplyQueue, Fresh, UniqueIds, Timely, Faithful, Removes, Excess, MaxExcess, Waiting;
    if i < a {
      Unfold(x, log, i);
      Unfold(y, log, i);
      FreshStep(log, x, i);
      FreshStep(log, y, i);
      FaithfulStep(log, x, i);
      FaithfulStep(log, y, i);
      SizesMergeStep(log, i, x, y, log[a].body.pair);
      NewEntriesSame(log, i + 1, ApplyQueue(x, log[i]), ApplyQueue(y, log[i]), a);
    } else {
      OwnAddSurvives(log, x, a);
      OwnAddSurvives(log, y, a);
      var n := Larger(x, y, log[a].body.pair);
      if n > 0 && RunsEmpty(n, log[a..], log[a].body.pair) {
        EmptiedBeats(log, a, n);
      }
    }
  }

  /** When the rows empty a pair, their removes reach all of its entries. */
  lemma EmptyReachesAll(q: Queue, p: Pair, n: nat, rest: Log)
    requires n >= |Waiting(q, p)| && RunsEmpty(n, rest, p)
    ensures Unreached(q, p, Removes(rest, p)) == {}
  {
    MaxExcessBounds(rest, p);
    forall id | id in Waiting(q, p) ensures |Older(q, p, id)| < |Waiting(q, p)| {
      OlderIsLess(q, p, id);
    }
  }

  lemma OlderIsLess(q: Queue, p: Pair, id: nat)
    requires id in Waiting(q, p)
    ensures |Older(q, p, id)| < |Waiting(q, p)|
  {
    Smaller(Older(q, p, id), Waiting(q, p), id);
  }

  lemma {:induction false} Smaller(a: set<nat>, b: set<nat>, x: nat)
    requires a <= b && x in b && x !in a
    ensures |a| < |b|
  {
    assert b == a + (b - a);
    assert x in b - a;
  }

  lemma SameOwner(log: Log, x: Queue, y: Queue, id: nat)
    requires UniqueIds(log) && Faithful(x, log) && Faithful(y, log) && id in x && id in y
    ensures x[id] == y[id]
  {
    var i := AddOf(log, x, id);
    var j := AddOf(log, y, id);
  }

  lemma {:induction false} FoldFaithful(log: Log, q: Queue, i: nat)
    requires i <= |log| && Faithful(q, log)
    ensures Faithful(Fold(ApplyQueue, q, log[i..]), log)
    decreases |log| - i
  {
    hide ApplyQueue, Faithful;
    if i < |log| {
      Unfold(q, log, i);
      FaithfulStep(log, q, i);
      FoldFaithful(log, ApplyQueue(q, log[i]), i + 1);
    } else {
      assert log[i..] == [];
    }
  }

  lemma MergingSizes(log: Log, i: nat, x: Queue, y: Queue, p: Pair)
    requires i <= |log| && PairMerges(log, i, x, y, p)
    ensures SizesMerge(log, i, x, y, p)
  {
  }

  /** What merges is left in the second queue if it is left in the first. */
  lemma {:induction false} MergedEntry(log: Log, i: nat, x: Queue, y: Queue, id: nat)
    requires UniqueIds(log) && Timely(log) && Faithful(x, log) && Faithful(y, log) && i <= |log|
    requires Fresh(x, log, i) && Fresh(y, log, i) && forall p :: PairMerges(log, i, x, y, p)
    requires id in Fold(ApplyQueue, x, log[i..])
    ensures id in Fold(ApplyQueue, y, log[i..])
  {
    hide Fold, UniqueIds, Timely, Fresh, Faithful, RunsEmpty, Unreached, Removes, ApplyQueue, PairMerges;
    FoldFaithful(log, x, i);
    var a := AddOf(log, Fold(ApplyQueue, x, log[i..]), id);
    var p := log[a].body.pair;
    assert PairMerges(log, i, x, y, p);
    if i <= a {
      MergingSizes(log, i, x, y, p);
      NewEntriesSame(log, i, x, y, a);
    } else {
      OldEntryMerges(log, i, x, y, a);
    }
  }

  lemma NotAhead(log: Log, i: nat, a: nat)
    requires UniqueIds(log) && a < i <= |log|
    ensures log[a].id !in Ahead(log, i)
  {
  }

  lemma {:induction false} OldEntryMerges(log: Log, i: nat, x: Queue, y: Queue, a: nat)
    requires UniqueIds(log) && Timely(log) && Faithful(x, log) && Faithful(y, log)
    requires a < i <= |log| && log[a].body.Add? && Fresh(x, log, i) && Fresh(y, log, i)
    requires PairMerges(log, i, x, y, log[a].body.pair) && log[a].id in Fold(ApplyQueue, x, log[i..])
    ensures log[a].id in Fold(ApplyQueue, y, log[i..])
  {
    hide Fold, Timely, Fresh, RunsEmpty, Removes, ApplyQueue, Older, Ahead, Faithful, UniqueIds;
    var p, id := log[a].body.pair, log[a].id;
    NotAhead(log, i, a);
    if id !in x {
      GoneStays(log, x, i, id);
    }
    EntryMatches(log, x, a);
    SurvivesIff(log, x, i, p, id);
    assert id in Unreached(x, p, Removes(log[i..], p));
    if RunsEmpty(Larger(x, y, p), log[i..], p) {
      EmptyReachesAll(x, p, Larger(x, y, p), log[i..]);
    }
    assert id in Unreached(y, p, Removes(log[i..], p));
    SurvivesIff(log, y, i, p, id);
  }

  lemma PairMergesSymmetric(log: Log, i: nat, x: Queue, y: Queue)
    requires i <= |log| && forall p :: PairMerges(log, i, x, y, p)
    ensures forall p :: PairMerges(log, i, y, x, p)
  {
    hide RunsEmpty, Unreached, Waiting, Removes;
    forall p ensures PairMerges(log, i, y, x, p) {
      assert PairMerges(log, i, x, y, p);
      assert Larger(x, y, p) == Larger(y, x, p);
    }
  }

  lemma {:induction false} MergedQueues(log: Log, i: nat, x: Queue, y: Queue)
    requires UniqueIds(log) && Timely(log) && Faithful(x, log) && Faithful(y, log) && i <= |log|
    requires Fresh(x, log, i) && Fresh(y, log, i) && forall p :: PairMerges(log, i, x, y, p)
    ensures Fold(ApplyQueue, x, log[i..]) == Fold(ApplyQueue, y, log[i..])
  {
    hide Fold, UniqueIds, Timely, Fresh, ApplyQueue, Faithful, PairMerges;
    var a, b := Fold(ApplyQueue, x, log[i..]), Fold(ApplyQueue, y, log[i..]);
    PairMergesSymmetric(log, i, x, y);
    FoldFaithful(log, x, i);
    FoldFaithful(log, y, i);
    forall id | id in a ensures id in b && a[id] == b[id] {
      MergedEntry(log, i, x, y, id);
      SameOwner(log, a, b, id);
    }
    forall id | id in b ensures id in a {
      MergedEntry(log, i, y, x, id);
    }
  }

  lemma {:induction false} SameSizes(log: Log, i: nat, x: Queue, y: Queue, p: Pair)
    requires UniqueIds(log) && i <= |log| && Fresh(x, log, i) && Fresh(y, log, i)
    requires Fold(ApplyQueue, x, log[i..]) == Fold(ApplyQueue, y, log[i..])
    ensures SizesMerge(log, i, x, y, p)
  {
    hide Fold, UniqueIds, Fresh, ApplyQueue, Excess, MaxExcess, Waiting;
    CountLeft(log, x, i, p);
    CountLeft(log, y, i, p);
  }

  lemma {:induction false} UnreachedMoves(log: Log, i: nat, x: Queue, y: Queue, p: Pair, id: nat)
    requires UniqueIds(log) && Timely(log) && Faithful(x, log) && Faithful(y, log) && i <= |log|
    requires Fresh(x, log, i) && Fresh(y, log, i) && Fold(ApplyQueue, x, log[i..]) == Fold(ApplyQueue, y, log[i..])
    requires id in Unreached(x, p, Removes(log[i..], p))
    ensures id in Unreached(y, p, Removes(log[i..], p))
  {
    hide Fold, UniqueIds, Timely, ApplyQueue, Older, Ahead, Removes, Faithful;
    SurvivesIff(log, x, i, p, id);
    assert id !in Ahead(log, i);
    if id !in y {
      GoneStays(log, y, i, id);
    }
    SameOwner(log, x, y, id);
    SurvivesIff(log, y, i, p, id);
  }

  /** Two queues end the same if and only if every pair merges. */
  lemma {:induction false} EndSameIff(log: Log, i: nat, x: Queue, y: Queue)
    requires UniqueIds(log) && Timely(log) && Faithful(x, log) && Faithful(y, log) && i <= |log|
    requires Fresh(x, log, i) && Fresh(y, log, i)
    ensures Fold(ApplyQueue, x, log[i..]) == Fold(ApplyQueue, y, log[i..]) <==> forall p :: PairMerges(log, i, x, y, p)
  {
    hide Fold, UniqueIds, Timely, ApplyQueue, Faithful, Fresh, Unreached, Removes, RunsEmpty, Waiting;
    if forall p :: PairMerges(log, i, x, y, p) {
      MergedQueues(log, i, x, y);
    }
    if Fold(ApplyQueue, x, log[i..]) == Fold(ApplyQueue, y, log[i..]) {
      forall p ensures PairMerges(log, i, x, y, p) {
        SameSizes(log, i, x, y, p);
        var r := Removes(log[i..], p);
        forall id ensures id in Unreached(x, p, r) <==> id in Unreached(y, p, r) {
          if id in Unreached(x, p, r) {
            UnreachedMoves(log, i, x, y, p, id);
          }
          if id in Unreached(y, p, r) {
            UnreachedMoves(log, i, y, x, p, id);
          }
        }
        assert Unreached(x, p, r) == Unreached(y, p, r);
      }
    }
  }
}
