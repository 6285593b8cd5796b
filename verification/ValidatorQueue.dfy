/**
 The validator queue: adds and removes replayed from the lifecycle tables, a remove
 taking the oldest entry of its (attester, withdrawer) pair.
 */
module ValidatorQueue {
  import opened EventLog
  import opened Replay

  datatype Pair = Pair(attester: nat, withdrawer: nat)

  /** A row of the four-way union; the three kinds of removal differ only in where they come from. */
  datatype QueueEvent =
    | Add(pair: Pair, rollup: nat, queuedAt: nat)
    | Remove(pair: Pair)

  datatype Entry = Entry(pair: Pair, rollup: nat, queuedAt: nat, block: int)

  /** The queue table, keyed by the (transaction, log index) of the add. */
  type Queue = map<nat, Entry>

  function EntryOf(e: Event<QueueEvent>): Entry
    requires e.body.Add?
  {
    Entry(e.body.pair, e.body.rollup, e.body.queuedAt, e.key.block)
  }

  function Waiting(q: Queue, p: Pair): set<nat> {
    set id | id in q && q[id].pair == p
  }

  /** Earlier queued_at first; the database leaves ties open, the model settles them by id. */
  predicate IsOldest(q: Queue, p: Pair, id: nat) {
    && id in q && q[id].pair == p
    && forall other | other in q && q[other].pair == p ::
         q[id].queuedAt < q[other].queuedAt || (q[id].queuedAt == q[other].queuedAt && id <= other)
  }

  lemma {:induction false} OldestAmong(q: Queue, ids: set<nat>) returns (id: nat)
    requires ids != {} && ids <= q.Keys
    ensures id in ids
    ensures forall other :: other in ids ==>
      q[id].queuedAt < q[other].queuedAt || (q[id].queuedAt == q[other].queuedAt && id <= other)
  {
    id :| id in ids;
    if ids != {id} {
      var rest := OldestAmong(q, ids - {id});
      if q[rest].queuedAt < q[id].queuedAt || (q[rest].queuedAt == q[id].queuedAt && rest <= id) {
        id := rest;
      }
    }
  }

  lemma OldestExists(q: Queue, p: Pair)
    requires Waiting(q, p) != {}
    ensures exists id :: IsOldest(q, p, id)
  {
    var id := OldestAmong(q, Waiting(q, p));
    assert IsOldest(q, p, id);
  }

  function Oldest(q: Queue, p: Pair): (id: nat)
    requires Waiting(q, p) != {}
    ensures IsOldest(q, p, id)
  {
    OldestExists(q, p);
    var id :| IsOldest(q, p, id);
    id
  }

  function ApplyQueue(q: Queue, e: Event<QueueEvent>): Queue {
    match e.body
    case Add(_, _, _) => q[e.id := EntryOf(e)]
    case Remove(p) => if Waiting(q, p) == {} then q else q - {Oldest(q, p)}
  }

  function CutQueue(q: Queue, block: int): Queue {
    map id | id in q && q[id].block <= block :: q[id]
  }

  function CountQueue(q: Queue): nat { |q| }

  method NewValidatorQueue() returns (m: Materializer<QueueEvent, Queue>)
    ensures m.apply == ApplyQueue && m.cut == CutQueue && m.countRows == CountQueue && m.batchSize == 10000
    ensures forall q: Queue, block :: m.cut(q, block) == map id | id in q && q[id].block <= block :: q[id]
    ensures forall q: Queue :: m.countRows(q) == |q|
    ensures fresh(m) && m.State() == View(map[], ORIGIN)
  {
    m := new Materializer<QueueEvent, Queue>(ApplyQueue, CutQueue, CountQueue, map[]);
  }

  /** The table and the statements the handlers issue against it. */
  class QueueTable {
    var entries: Queue

    constructor ()
      ensures entries == map[]
    {
      entries := map[];
    }

    method AddToQueue(row: Event<QueueEvent>)
      requires row.body.Add?
      modifies this
      ensures entries == ApplyQueue(old(entries), row)
      ensures row.id in entries && entries[row.id].pair == row.body.pair && entries[row.id].rollup == row.body.rollup
      ensures entries[row.id].queuedAt == row.body.queuedAt && entries[row.id].block == row.key.block
      ensures entries - {row.id} == old(entries) - {row.id}
    {
      entries := entries[row.id := Entry(row.body.pair, row.body.rollup, row.body.queuedAt, row.key.block)];
    }

    method RemoveFromQueue(row: Event<QueueEvent>)
      requires row.body.Remove?
      modifies this
      ensures entries == ApplyQueue(old(entries), row)
      ensures if exists id :: id in old(entries) && old(entries)[id].pair == row.body.pair
        then exists id :: IsOldest(old(entries), row.body.pair, id) && entries == old(entries) - {id}
        else entries == old(entries)
    {
      var matching := set id | id in entries && entries[id].pair == row.body.pair;
      if matching != {} {
        OldestExists(entries, row.body.pair);
        var oldest :| oldest in matching && IsOldest(entries, row.body.pair, oldest);
        entries := map id | id in entries && id != oldest :: entries[id];
        assert entries == old(entries) - {Oldest(old(entries), row.body.pair)};
        assert IsOldest(old(entries), row.body.pair, oldest) && entries == old(entries) - {oldest};
        assert oldest in old(entries) && old(entries)[oldest].pair == row.body.pair;
      } else {
        assert forall id :: id in entries ==> id in matching || entries[id].pair != row.body.pair;
      }
    }

    method MaterializeBatch(rows: seq<Event<QueueEvent>>)
      modifies this
      ensures entries == Fold(ApplyQueue, old(entries), rows)
    {
      for i := 0 to |rows|
        invariant entries == Fold(ApplyQueue, old(entries), rows[..i])
      {
        FoldNext(ApplyQueue, old(entries), rows, i);
        if rows[i].body.Add? {
          AddToQueue(rows[i]);
        } else {
          RemoveFromQueue(rows[i]);
        }
      }
      assert rows[..|rows|] == rows;
    }

    method DeleteAfterBlock(block: int)
      modifies this
      ensures entries == CutQueue(old(entries), block)
      ensures entries == map id | id in old(entries) && old(entries)[id].block <= block :: old(entries)[id]
    {
      entries := map id | id in entries && !(entries[id].block > block) :: entries[id];
    }
  }

  // ---- the closed form ----

  /** The queue after replaying a log once. */
  function Replayed(log: seq<Event<QueueEvent>>): Queue {
    Fold(ApplyQueue, map[], log)
  }

  /** Two adds of one pair are never queued at the same time, and later ones later. */
  ghost predicate Timely(log: seq<Event<QueueEvent>>) {
    forall i, j :: 0 <= i < j < |log| && log[i].body.Add? && log[j].body.Add? && log[i].body.pair == log[j].body.pair
      ==> log[i].body.queuedAt < log[j].body.queuedAt
  }

  /** A pair's adds, in log order. */
  function AddsOf(log: seq<Event<QueueEvent>>, p: Pair): seq<Event<QueueEvent>> {
    if log == [] then []
    else
      var last := log[|log| - 1];
      AddsOf(log[..|log| - 1], p) + if last.body.Add? && last.body.pair == p then [last] else []
  }

  lemma {:induction false} AddsOfRows(log: seq<Event<QueueEvent>>, p: Pair)
    ensures forall e :: e in AddsOf(log, p) <==> e in log && e.body.Add? && e.body.pair == p
  {
    if log != [] {
      AddsOfRows(log[..|log| - 1], p);
      assert log == log[..|log| - 1] + [log[|log| - 1]];
    }
  }

  function Delta(e: Event<QueueEvent>, p: Pair): int {
    if e.body.pair != p then 0 else if e.body.Add? then 1 else -1
  }

  /** Adds minus removes of a pair. */
  function Excess(log: seq<Event<QueueEvent>>, p: Pair): int {
    if log == [] then 0 else Delta(log[0], p) + Excess(log[1..], p)
  }

  /** The largest excess over all suffixes of the log, the empty one included. */
  function MaxExcess(log: seq<Event<QueueEvent>>, p: Pair): nat {
    if log == [] then 0
    else
      var rest := MaxExcess(log[1..], p);
      if Excess(log, p) > rest then Excess(log, p) else rest
  }

  lemma {:induction false} MaxExcessIsLargest(log: seq<Event<QueueEvent>>, p: Pair)
    ensures forall i :: 0 <= i <= |log| ==> Excess(log[i..], p) <= MaxExcess(log, p)
    ensures exists i :: 0 <= i <= |log| && Excess(log[i..], p) == MaxExcess(log, p)
  {
    if log == [] {
      assert Excess(log[0..], p) == 0;
    } else {
      MaxExcessIsLargest(log[1..], p);
      assert log[0..] == log;
      assert forall i :: 0 < i <= |log| ==> log[i..] == log[1..][i - 1..];
      assert forall i :: 0 <= i <= |log| - 1 ==> log[1..][i..] == log[i + 1..];
    }
  }

  lemma {:induction false} ExcessAppend(log: seq<Event<QueueEvent>>, e: Event<QueueEvent>, p: Pair)
    ensures Excess(log + [e], p) == Excess(log, p) + Delta(e, p)
  {
    if log == [] {
      assert log + [e] == [e];
    } else {
      assert (log + [e])[1..] == log[1..] + [e];
      ExcessAppend(log[1..], e, p);
    }
  }

  /** The recurrence of a queue that never goes below empty. */
  lemma {:induction false} MaxExcessAppend(log: seq<Event<QueueEvent>>, e: Event<QueueEvent>, p: Pair)
    ensures MaxExcess(log + [e], p)
      == if MaxExcess(log, p) + Delta(e, p) > 0 then MaxExcess(log, p) + Delta(e, p) else 0
  {
    ExcessAppend(log, e, p);
    if log == [] {
      assert log + [e] == [e];
    } else {
      assert (log + [e])[1..] == log[1..] + [e];
      MaxExcessAppend(log[1..], e, p);
    }
  }

  /** The queue's entries for a pair are those of the given adds. */
  ghost predicate Holds(q: Queue, p: Pair, adds: seq<Event<QueueEvent>>) {
    && (forall e :: e in adds ==> e.body.Add? && e.body.pair == p && e.id in q && q[e.id] == EntryOf(e))
    && (forall id :: id in Waiting(q, p) ==> exists e :: e in adds && e.id == id)
  }

  /** Every entry comes from an add of the log. */
  ghost predicate Faithful(q: Queue, log: seq<Event<QueueEvent>>) {
    forall id :: id in q ==> exists i ::
      0 <= i < |log| && log[i].id == id && log[i].body.Add? && q[id] == EntryOf(log[i])
  }

  /** So an entry shows what its add said: the pair, the rollup and the time, and the add's own block. */
  lemma {:induction false} EntryIsItsAdd(log: seq<Event<QueueEvent>>, id: nat)
    requires id in Replayed(log)
    ensures exists i :: 0 <= i < |log| && log[i].id == id && log[i].body.Add? && Shows(Replayed(log)[id], log[i])
  {
    ReplayedIsFaithful(log);
    var i :| 0 <= i < |log| && log[i].id == id && log[i].body.Add? && Replayed(log)[id] == EntryOf(log[i]);
    assert Shows(Replayed(log)[id], log[i]);
  }

  ghost predicate Shows(entry: Entry, e: Event<QueueEvent>)
    requires e.body.Add?
  {
    && entry.pair == e.body.pair && entry.rollup == e.body.rollup && entry.queuedAt == e.body.queuedAt
    && entry.block == e.key.block
  }

  lemma {:induction false} ReplayedIsFaithful(log: seq<Event<QueueEvent>>)
    ensures Faithful(Replayed(log), log)
  {
    if log != [] {
      var init := log[..|log| - 1];
      ReplayedIsFaithful(init);
      FoldNext(ApplyQueue, map[], log, |log| - 1);
      assert log[..|log| - 1 + 1] == log;
      forall id | id in Replayed(log)
        ensures exists i ::
            0 <= i < |log| && log[i].id == id && log[i].body.Add? && Replayed(log)[id] == EntryOf(log[i])
      {
        if id in Replayed(init) && (log[|log| - 1].body.Remove? || id != log[|log| - 1].id) {
          var i :| 0 <= i < |init| && init[i].id == id && init[i].body.Add? && Replayed(init)[id] == EntryOf(init[i]);
          assert log[i] == init[i];
        }
      }
    }
  }

  ghost predicate InOrder(adds: seq<Event<QueueEvent>>) {
    && (forall i :: 0 <= i < |adds| ==> adds[i].body.Add?)
    && (forall i, j ::
        0 <= i < j < |adds| ==> adds[i].body.queuedAt < adds[j].body.queuedAt && adds[i].id != adds[j].id)
  }

  /** A pair's adds stand in the order in which they were queued. */
  lemma {:induction false} AddsInOrder(log: seq<Event<QueueEvent>>, p: Pair)
    requires Timely(log) && UniqueIds(log)
    ensures InOrder(AddsOf(log, p))
  {
    if log != [] {
      var init, last := log[..|log| - 1], log[|log| - 1];
      AddsInOrder(init, p);
      AddsOfRows(init, p);
      forall e | e in AddsOf(init, p) && last.body.Add? && last.body.pair == p
        ensures e.body.queuedAt < last.body.queuedAt && e.id != last.id
      {
        var k :| 0 <= k < |init| && init[k] == e;
        assert log[k] == e;
      }
    }
  }

  lemma FirstIsOldest(q: Queue, p: Pair, adds: seq<Event<QueueEvent>>)
    requires Holds(q, p, adds) && InOrder(adds) && adds != []
    ensures Waiting(q, p) != {} && Oldest(q, p) == adds[0].id
  {
    var first := adds[0];
    assert first in adds && first.id in Waiting(q, p);
    var oldest := Oldest(q, p);
    assert oldest in Waiting(q, p);
    var x :| x in adds && x.id == oldest;
    var k :| 0 <= k < |adds| && adds[k] == x;
    assert k == 0;
  }

  lemma HoldsAfterRemove(q: Queue, e: Event<QueueEvent>, p: Pair, adds: seq<Event<QueueEvent>>)
    requires e.body == Remove(p) && Holds(q, p, adds) && InOrder(adds)
    ensures Holds(ApplyQueue(q, e), p, if adds == [] then [] else adds[1..])
  {
    if adds == [] {
      assert Waiting(q, p) == {};
    } else {
      FirstIsOldest(q, p, adds);
      var after := q - {adds[0].id};
      assert ApplyQueue(q, e) == after;
      forall id | id in Waiting(after, p) ensures exists y :: y in adds[1..] && y.id == id {
        assert id in Waiting(q, p);
        var y :| y in adds && y.id == id;
        InTail(y, adds);
      }
      forall y | y in adds[1..] ensures y in adds && y.id != adds[0].id {
        var j :| 0 <= j < |adds[1..]| && adds[1..][j] == y;
        assert adds[j + 1] == y;
      }
    }
  }

  lemma ReplayedAppend(init: seq<Event<QueueEvent>>, last: Event<QueueEvent>)
    ensures Replayed(init + [last]) == ApplyQueue(Replayed(init), last)
  {
    FoldAppend(ApplyQueue, map[], init, [last]);
  }

  lemma AddsAppend(init: seq<Event<QueueEvent>>, last: Event<QueueEvent>, p: Pair)
    ensures AddsOf(init + [last], p) == if last.body.Add? && last.body.pair == p then AddsOf(init, p) + [last]
      else AddsOf(init, p)
  {
    assert (init + [last])[..|init|] == init;
  }

  lemma {:induction false} ClosedStep(init: seq<Event<QueueEvent>>, last: Event<QueueEvent>, p: Pair)
    requires UniqueIds(init + [last]) && InOrder(AddsOf(init, p))
    requires MaxExcess(init, p) <= |AddsOf(init, p)|
    requires Holds(Replayed(init), p, MostRecent(AddsOf(init, p), MaxExcess(init, p)))
    ensures MaxExcess(init + [last], p) <= |AddsOf(init + [last], p)|
    ensures Holds(Replayed(init + [last]), p, MostRecent(AddsOf(init + [last], p), MaxExcess(init + [last], p)))
  {
    hide *;
    ReplayedAppend(init, last);
    AddsAppend(init, last, p);
    MaxExcessAppend(init, last, p);
    DeltaCases(last, p);
    var adds, n := AddsOf(init, p), MaxExcess(init, p);
    MostRecentSteps(adds, n, last);
    if last.body == Remove(p) {
      MostRecentInOrder(adds, n);
      HoldsAfterRemove(Replayed(init), last, p, MostRecent(adds, n));
    } else {
      FreshId(init, last);
      StepElsewhere(Replayed(init), last, p, MostRecent(adds, n));
    }
  }

  lemma DeltaCases(e: Event<QueueEvent>, p: Pair)
    ensures Delta(e, p) == if e.body == Remove(p) then -1 else if e.body.Add? && e.body.pair == p then 1 else 0
  {
  }

  lemma MostRecentSteps<A>(s: seq<A>, n: nat, x: A)
    requires n <= |s|
    ensures |MostRecent(s, n)| == n
    ensures MostRecent(s + [x], n + 1) == MostRecent(s, n) + [x]
    ensures MostRecent(s, 0) == []
    ensures n > 0 ==> MostRecent(s, n)[1..] == MostRecent(s, n - 1)
  {
  }

  lemma ClosedEmpty(p: Pair)
    ensures MaxExcess([], p) == |AddsOf([], p)|
    ensures Holds(Replayed([]), p, MostRecent(AddsOf([], p), MaxExcess([], p)))
  {
  }

  lemma SplitLast(log: seq<Event<QueueEvent>>)
    requires UniqueIds(log) && Timely(log) && log != []
    ensures UniqueIds(log[..|log| - 1]) && Timely(log[..|log| - 1])
    ensures log == log[..|log| - 1] + [log[|log| - 1]]
  {
  }

  /**
   Replaying each event once leaves, for every pair, exactly its most recent n adds,
   where n is the largest excess of adds over removes of any suffix of the log.
   */
  lemma {:induction false} ClosedForm(log: seq<Event<QueueEvent>>, p: Pair)
    requires UniqueIds(log) && Timely(log)
    ensures MaxExcess(log, p) <= |AddsOf(log, p)|
    ensures Holds(Replayed(log), p, MostRecent(AddsOf(log, p), MaxExcess(log, p)))
  {
    hide *;
    if log == [] {
      ClosedEmpty(p);
    } else {
      SplitLast(log);
      var init, last := log[..|log| - 1], log[|log| - 1];
      ClosedForm(init, p);
      AddsInOrder(init, p);
      ClosedStep(init, last, p);
    }
  }

  /** The last n elements. */
  function MostRecent<A>(s: seq<A>, n: nat): seq<A> {
    if n <= |s| then s[|s| - n..] else s
  }

  lemma MostRecentInOrder(adds: seq<Event<QueueEvent>>, n: nat)
    requires InOrder(adds)
    ensures InOrder(MostRecent(adds, n))
  {
  }

  lemma FreshId(init: seq<Event<QueueEvent>>, last: Event<QueueEvent>)
    requires UniqueIds(init + [last])
    ensures last.id !in Replayed(init)
  {
    ReplayedIsFaithful(init);
    assert (init + [last])[|init|] == last;
    assert forall i :: 0 <= i < |init| ==> init[i] == (init + [last])[i];
  }

  /** Any other event leaves the pair's entries alone, but for its own add. */
  lemma StepElsewhere(q: Queue, e: Event<QueueEvent>, p: Pair, adds: seq<Event<QueueEvent>>)
    requires e.body != Remove(p) && Holds(q, p, adds)
    requires e.body.Add? ==> e.id !in q
    ensures Holds(ApplyQueue(q, e), p, if e.body.Add? && e.body.pair == p then adds + [e] else adds)
  {
    var after := ApplyQueue(q, e);
    if e.body.Remove? && Waiting(q, e.body.pair) != {} {
      assert Oldest(q, e.body.pair) in Waiting(q, e.body.pair);
    }
    var adds' := if e.body.Add? && e.body.pair == p then adds + [e] else adds;
    forall id | id in Waiting(after, p) ensures exists x :: x in adds' && x.id == id {
      if id in Waiting(q, p) {
        var x :| x in adds && x.id == id;
        assert x in adds';
      } else {
        assert e in adds';
      }
    }
  }

  // ---- delivery more than once ----

  /** No remove ever finds two of its pair's adds outstanding. */
  ghost predicate Uncontested(log: seq<Event<QueueEvent>>) {
    forall k :: 0 <= k < |log| && log[k].body.Remove? ==> |Waiting(Replayed(log[..k]), log[k].body.pair)| <= 1
  }

  /**
   A queue table met at position k while replaying, possibly not for the first time:
   entries are the log's own; an entry whose add lies before k is outstanding at k;
   an add before k that is outstanding at the log's end is in the table.
   */
  ghost predicate Consistent(log: seq<Event<QueueEvent>>, q: Queue, k: nat) {
    && k <= |log| && Faithful(q, log)
    && (forall a :: 0 <= a < k && log[a].body.Add? && log[a].id in q ==> log[a].id in Replayed(log[..k]))
    && (forall a :: 0 <= a < k && log[a].body.Add? && log[a].id in Replayed(log) ==> log[a].id in q)
  }

  /** What is outstanding later was outstanding ever since its add. */
  lemma {:induction false} OutstandingSince(log: seq<Event<QueueEvent>>, a: nat, j: nat, k: nat)
    requires UniqueIds(log) && a < j <= k <= |log| && log[a].body.Add?
    requires log[a].id in Replayed(log[..k])
    ensures log[a].id in Replayed(log[..j])
  {
    if j < k {
      FoldNext(ApplyQueue, map[], log, k - 1);
      OutstandingSince(log, a, j, k - 1);
    }
  }

  lemma AtMostOne(s: set<nat>, x: nat, y: nat)
    requires |s| <= 1 && x in s && y in s
    ensures x == y
  {
    assert |s - {x}| == 0;
    assert y !in s - {x};
  }

  lemma EntryMatches(log: seq<Event<QueueEvent>>, q: Queue, a: nat)
    requires UniqueIds(log) && Faithful(q, log) && a < |log| && log[a].id in q
    ensures log[a].body.Add? && q[log[a].id] == EntryOf(log[a])
  {
    var i :| 0 <= i < |log| && log[i].id == log[a].id && log[i].body.Add? && q[log[a].id] == EntryOf(log[i]);
  }

  lemma TruthMatches(log: seq<Event<QueueEvent>>, k: nat, a: nat)
    requires UniqueIds(log) && a < k <= |log| && log[a].id in Replayed(log[..k])
    ensures log[a].body.Add? && Replayed(log[..k])[log[a].id] == EntryOf(log[a])
  {
    ReplayedIsFaithful(log[..k]);
    assert log[..k][a] == log[a];
    EntryMatches(log[..k], Replayed(log[..k]), a);
  }

  /**
   If the table still has an add of the pair from before k, the remove at k takes it, there and
   in the exact replay.
   */
  lemma RemoveTakesIt(log: seq<Event<QueueEvent>>, q: Queue, k: nat, a: nat)
    requires UniqueIds(log) && Timely(log) && Uncontested(log)
    requires a < k < |log| && log[k].body.Remove? && Consistent(log, q, k)
    requires log[a].body.Add? && log[a].body.pair == log[k].body.pair && log[a].id in q
    ensures var p, truth := log[k].body.pair, Replayed(log[..k]);
      && Waiting(q, p) != {} && Oldest(q, p) == log[a].id
      && Waiting(truth, p) != {} && Oldest(truth, p) == log[a].id
  {
    var p, truth, id := log[k].body.pair, Replayed(log[..k]), log[a].id;
    EntryMatches(log, q, a);
    TruthMatches(log, k, a);
    assert id in Waiting(q, p) && id in Waiting(truth, p);
    AtMostOne(Waiting(truth, p), id, Oldest(truth, p));
    var oldest := Oldest(q, p);
    var b :| 0 <= b < |log| && log[b].id == oldest && log[b].body.Add? && q[oldest] == EntryOf(log[b]);
    if b < k {
      TruthMatches(log, k, b);
      AtMostOne(Waiting(truth, p), id, oldest);
    }
  }

  lemma ConsistentRemove(log: seq<Event<QueueEvent>>, q: Queue, k: nat, a: nat)
    requires UniqueIds(log) && Timely(log) && Uncontested(log)
    requires a < k < |log| && log[k].body.Remove? && Consistent(log, q, k)
    requires log[a].body.Add?
    ensures log[a].id in ApplyQueue(q, log[k]) ==> log[a].id in Replayed(log[..k + 1])
    ensures log[a].id in q && log[a].id in Replayed(log[..k + 1]) ==> log[a].id in ApplyQueue(q, log[k])
  {
    var p, truth, id := log[k].body.pair, Replayed(log[..k]), log[a].id;
    FoldNext(ApplyQueue, map[], log, k);
    assert Replayed(log[..k + 1]) == ApplyQueue(truth, log[k]);
    if id in q {
      EntryMatches(log, q, a);
      TruthMatches(log, k, a);
      if log[a].body.pair == p {
        RemoveTakesIt(log, q, k, a);
      } else {
        assert Waiting(q, p) != {} ==> Oldest(q, p) in Waiting(q, p);
        assert Waiting(truth, p) != {} ==> Oldest(truth, p) in Waiting(truth, p);
      }
    }
  }

  lemma FaithfulStep(log: seq<Event<QueueEvent>>, q: Queue, k: nat)
    requires k < |log| && Faithful(q, log)
    ensures Faithful(ApplyQueue(q, log[k]), log)
  {
    var after := ApplyQueue(q, log[k]);
    forall id | id in after
      ensures exists i :: 0 <= i < |log| && log[i].id == id && log[i].body.Add? && after[id] == EntryOf(log[i])
    {
      if log[k].body.Add? && id == log[k].id {
      } else {
        assert id in q && after[id] == q[id];
      }
    }
  }

  lemma ConsistentStep(log: seq<Event<QueueEvent>>, q: Queue, k: nat)
    requires UniqueIds(log) && Timely(log) && Uncontested(log)
    requires k < |log| && Consistent(log, q, k)
    ensures Consistent(log, ApplyQueue(q, log[k]), k + 1)
  {
    var after := ApplyQueue(q, log[k]);
    FaithfulStep(log, q, k);
    FoldNext(ApplyQueue, map[], log, k);
    assert log[..|log|] == log;
    forall a | 0 <= a < k + 1 && a < |log| && log[a].body.Add?
      ensures log[a].id in after ==> log[a].id in Replayed(log[..k + 1])
      ensures log[a].id in Replayed(log) ==> log[a].id in after
    {
      if log[a].id in Replayed(log) {
        OutstandingSince(log, a, k + 1, |log|);
      }
      if log[k].body.Remove? {
        ConsistentRemove(log, q, k, a);
      }
    }
  }

  lemma {:induction false} ConsistentEarlier(log: seq<Event<QueueEvent>>, q: Queue, j: nat, k: nat)
    requires UniqueIds(log) && j <= k <= |log| && Consistent(log, q, k)
    ensures Consistent(log, q, j)
  {
    forall a | 0 <= a < j && log[a].body.Add? && log[a].id in q ensures log[a].id in Replayed(log[..j]) {
      OutstandingSince(log, a, j, k);
    }
  }

  /** At the log's end the table is the one of a single pass. */
  lemma ConsistentAtEnd(log: seq<Event<QueueEvent>>, q: Queue)
    requires UniqueIds(log) && Consistent(log, q, |log|)
    ensures q == Replayed(log)
  {
    assert log[..|log|] == log;
    ReplayedIsFaithful(log);
    forall id | id in q ensures id in Replayed(log) && Replayed(log)[id] == q[id] {
      var i :| 0 <= i < |log| && log[i].id == id && log[i].body.Add? && q[id] == EntryOf(log[i]);
      TruthMatches(log, |log|, i);
    }
    forall id | id in Replayed(log) ensures id in q {
      var i :| 0 <= i < |log| && log[i].id == id && log[i].body.Add? && Replayed(log)[id] == EntryOf(log[i]);
    }
  }

  ghost function QueueInvariant(log: seq<Event<QueueEvent>>): (Queue, nat) -> bool {
    (q, k) => Consistent(log, q, k)
  }

  lemma ConsistentReplayable(log: seq<Event<QueueEvent>>)
    requires UniqueIds(log) && Timely(log) && Uncontested(log)
    ensures Replayable(ApplyQueue, log, 0, QueueInvariant(log))
  {
    hide *;
    var J := QueueInvariant(log);
    assert forall q, k :: J(q, k) <==> Consistent(log, q, k) by { InvariantMeaning(log); }
    forall q, k | 0 <= k < |log| && J(q, k) ensures J(ApplyQueue(q, log[k]), k + 1) {
      ConsistentStep(log, q, k);
    }
    forall q, k, j | 0 <= j <= k <= |log| && J(q, k) ensures J(q, j) {
      ConsistentEarlier(log, q, j, k);
    }
    ReplayableIntro(ApplyQueue, log, 0, J);
  }

  lemma InvariantMeaning(log: seq<Event<QueueEvent>>)
    ensures forall q, k :: QueueInvariant(log)(q, k) <==> Consistent(log, q, k)
  {
  }

  /**
   At-least-once delivery: from the empty queue, after any run of polls with any batch
   sizes, polls failing at any row and rewinds to earlier positions, a queue whose
   cursor has passed the whole log is the queue of a single pass.
   */
  lemma QueueConverges(log: seq<Event<QueueEvent>>, ops: seq<Op>)
    requires Sorted(log) && UniqueIds(log) && Timely(log) && Uncontested(log)
    requires Rank(log, ORIGIN) == 0
    requires Backward(ApplyQueue, log, View(map[], ORIGIN), ops, 0)
    requires Idle(log, Run(ApplyQueue, log, View(map[], ORIGIN), ops))
    ensures Run(ApplyQueue, log, View(map[], ORIGIN), ops).table == Replayed(log)
  {
    ConsistentReplayable(log);
    RunKeeps(ApplyQueue, log, 0, QueueInvariant(log), View(map[], ORIGIN), ops);
    ConsistentAtEnd(log, Run(ApplyQueue, log, View(map[], ORIGIN), ops).table);
  }

  /** Applying the first m rows, then those from j to m once more, gives what the first pass gave. */
  ghost predicate ReplayHarmless(log: seq<Event<QueueEvent>>) {
    forall j, m :: 0 <= j <= m <= |log| ==> Fold(ApplyQueue, Replayed(log[..m]), log[j..m]) == Replayed(log[..m])
  }

  /** The exact condition: replay from every position is harmless if and only if no remove is contested. */
  lemma HarmlessIffUncontested(log: seq<Event<QueueEvent>>)
    requires UniqueIds(log) && Timely(log)
    ensures ReplayHarmless(log) <==> Uncontested(log)
  {
    if Uncontested(log) {
      forall j, m | 0 <= j <= m <= |log| ensures Fold(ApplyQueue, Replayed(log[..m]), log[j..m]) == Replayed(log[..m]) {
        UncontestedIsHarmless(log, j, m);
      }
    } else {
      var k :| 0 <= k < |log| && log[k].body.Remove? && |Waiting(Replayed(log[..k]), log[k].body.pair)| > 1;
      ContestedDoesHarm(log, k);
    }
  }

  lemma PrefixUncontested(log: seq<Event<QueueEvent>>, m: nat)
    requires UniqueIds(log) && Timely(log) && Uncontested(log) && m <= |log|
    ensures UniqueIds(log[..m]) && Timely(log[..m]) && Uncontested(log[..m])
  {
    hide Waiting, ApplyQueue, Fold;
    var part := log[..m];
    assert forall i :: 0 <= i < m ==> part[i] == log[i] && part[..i] == log[..i];
  }

  lemma SinglePassConsistent(log: seq<Event<QueueEvent>>)
    requires UniqueIds(log)
    ensures Consistent(log, Replayed(log), |log|)
  {
    ReplayedIsFaithful(log);
    assert log[..|log|] == log;
  }

  lemma UncontestedIsHarmless(log: seq<Event<QueueEvent>>, j: nat, m: nat)
    requires UniqueIds(log) && Timely(log) && Uncontested(log) && j <= m <= |log|
    ensures Fold(ApplyQueue, Replayed(log[..m]), log[j..m]) == Replayed(log[..m])
  {
    hide *;
    var part := log[..m];
    PrefixUncontested(log, m);
    SinglePassConsistent(part);
    ConsistentEarlier(part, Replayed(part), j, m);
    ConsistentReplayable(part);
    InvariantMeaning(part);
    FoldKeeps(ApplyQueue, part, 0, QueueInvariant(part), Replayed(part), j, m - j);
    assert part[j..j + (m - j)] == log[j..m];
    ConsistentAtEnd(part, Fold(ApplyQueue, Replayed(part), log[j..m]));
  }

  /** A remove that found two adds takes the second one when it is replayed. */
  lemma ContestedDoesHarm(log: seq<Event<QueueEvent>>, k: nat)
    requires k < |log| && log[k].body.Remove? && |Waiting(Replayed(log[..k]), log[k].body.pair)| > 1
    ensures Fold(ApplyQueue, Replayed(log[..k + 1]), log[k..k + 1]) != Replayed(log[..k + 1])
  {
    var p, before, after := log[k].body.pair, Replayed(log[..k]), Replayed(log[..k + 1]);
    FoldNext(ApplyQueue, map[], log, k);
    var first := Oldest(before, p);
    assert after == before - {first};
    assert Waiting(after, p) == Waiting(before, p) - {first};
    assert |Waiting(after, p)| >= 1;
    assert log[k..k + 1] == [log[k]];
    assert Fold(ApplyQueue, after, [log[k]]) == ApplyQueue(after, log[k]);
    assert Oldest(after, p) !in ApplyQueue(after, log[k]);
  }
}
