/**
 The provider-validator list: attesters added to a provider and dripped from it again,
 read from two tables that other materializers fill.  One AttestersAdded event becomes
 several add rows with the same key.
 */
module ProviderList {
  import opened EventLog
  import Replay
  import opened DerivedTables

  datatype Mapping = Mapping(provider: nat, attester: nat)

  datatype ListEvent =
    | Added(mapping: Mapping, transaction: nat)
    | Dripped(mapping: Mapping)

  datatype ListRow = ListRow(at: Cursor, transaction: nat)

  type List = map<Mapping, ListRow>

  type Row = Event<ListEvent>

  function ApplyList(t: List, row: Row): List {
    match row.body
    case Added(m, transaction) => t[m := ListRow(row.key, transaction)]
    case Dripped(m) => t - {m}
  }

  function CutList(t: List, block: int): List {
    map m | m in t && t[m].at.block <= block :: t[m]
  }

  class ListTable {
    var rows: List

    constructor ()
      ensures rows == map[]
    {
      rows := map[];
    }

    method HandleAdd(row: Row)
      requires row.body.Added?
      modifies this
      ensures rows == ApplyList(old(rows), row)
    {
      rows := rows[row.body.mapping := ListRow(row.key, row.body.transaction)];
    }

    method HandleDrip(row: Row)
      requires row.body.Dripped?
      modifies this
      ensures rows == ApplyList(old(rows), row)
    {
      rows := map m | m in rows && m != row.body.mapping :: rows[m];
    }

    method MaterializeBatch(batch: seq<Row>)
      modifies this
      ensures rows == Fold(ApplyList, old(rows), batch)
    {
      for i := 0 to |batch|
        invariant rows == Fold(ApplyList, old(rows), batch[..i])
      {
        FoldNext(ApplyList, old(rows), batch, i);
        if batch[i].body.Added? {
          HandleAdd(batch[i]);
        } else {
          HandleDrip(batch[i]);
        }
      }
      assert batch[..|batch|] == batch;
    }

    method DeleteAfterBlock(block: int)
      modifies this
      ensures rows == CutList(old(rows), block)
      ensures rows == map m | m in old(rows) && old(rows)[m].at.block <= block :: old(rows)[m]
    {
      rows := map m | m in rows && !(rows[m].at.block > block) :: rows[m];
    }
  }

  /** Two lists say the same about a mapping. */
  ghost predicate SameAt(a: List, b: List, m: Mapping) {
    (m in a <==> m in b) && (m in a ==> a[m] == b[m])
  }

  ghost predicate Mentioned(log: seq<Row>, k: nat, m: Mapping) {
    exists i :: k <= i < |log| && log[i].body.mapping == m
  }

  function OnePass(log: seq<Row>): List {
    Fold(ApplyList, map[], log)
  }

  /** A mapping that no row from k on mentions is as a single pass leaves it. */
  ghost predicate MappingFinal(log: seq<Row>, t: List, k: nat, m: Mapping) {
    Mentioned(log, k, m) || SameAt(t, OnePass(log), m)
  }

  ghost predicate Converging(log: seq<Row>, t: List, k: nat) {
    forall m :: MappingFinal(log, t, k, m)
  }

  lemma {:induction false} Unmentioned(log: seq<Row>, t: List, m: Mapping)
    requires !Mentioned(log, 0, m)
    ensures SameAt(Fold(ApplyList, t, log), t, m)
    decreases |log|
  {
    if log != [] {
      assert log[0].body.mapping != m;
      assert forall i :: 0 <= i < |log[1..]| ==> log[1..][i] == log[i + 1];
      assert !Mentioned(log[1..], 0, m);
      Unmentioned(log[1..], ApplyList(t, log[0]), m);
    }
  }

  /** Nothing after row k mentions its mapping: row k alone decides it. */
  lemma LastMention(log: seq<Row>, t: List, k: nat)
    requires k < |log| && !Mentioned(log, k + 1, log[k].body.mapping)
    ensures SameAt(ApplyList(t, log[k]), OnePass(log), log[k].body.mapping)
  {
    var m, before := log[k].body.mapping, Fold(ApplyList, map[], log[..k]);
    FoldNext(ApplyList, map[], log, k);
    assert log == log[..k + 1] + log[k + 1..];
    FoldAppend(ApplyList, map[], log[..k + 1], log[k + 1..]);
    var later := log[k + 1..];
    assert forall i :: 0 <= i < |later| ==> later[i] == log[k + 1 + i];
    assert !Mentioned(later, 0, m);
    Unmentioned(later, ApplyList(before, log[k]), m);
  }

  lemma ConvergingStep(log: seq<Row>, t: List, k: nat)
    requires k < |log| && Converging(log, t, k)
    ensures Converging(log, ApplyList(t, log[k]), k + 1)
  {
    var t', next := ApplyList(t, log[k]), k + 1;
    forall m ensures MappingFinal(log, t', next, m) {
      assert MappingFinal(log, t, k, m);
      if !Mentioned(log, next, m) {
        if log[k].body.mapping == m {
          LastMention(log, t, k);
        } else {
          assert !Mentioned(log, k, m);
        }
      }
    }
  }

  lemma ConvergingEarlier(log: seq<Row>, t: List, j: nat, k: nat)
    requires j <= k && Converging(log, t, k)
    ensures Converging(log, t, j)
  {
    forall m ensures MappingFinal(log, t, j, m) {
      assert MappingFinal(log, t, k, m);
      assert Mentioned(log, k, m) ==> Mentioned(log, j, m);
    }
  }

  ghost function ListInvariant(log: seq<Row>): (List, nat) -> bool {
    (t: List, k: nat) => Converging(log, t, k)
  }

  lemma ConvergingReplayable(log: seq<Row>, floor: nat)
    ensures Replay.Replayable(ApplyList, log, floor, ListInvariant(log))
  {
    var J := ListInvariant(log);
    forall t, k | floor <= k < |log| && J(t, k) ensures J(ApplyList(t, log[k]), k + 1) {
      ConvergingStep(log, t, k);
    }
    forall t, k, j | floor <= j <= k <= |log| && J(t, k) ensures J(t, j) {
      ConvergingEarlier(log, t, j, k);
    }
  }

  lemma SameLists(a: List, b: List)
    requires forall m :: SameAt(a, b, m)
    ensures a == b
  {
    forall m ensures m in a <==> m in b {
      assert SameAt(a, b, m);
    }
    forall m | m in a ensures a[m] == b[m] {
      assert SameAt(a, b, m);
    }
  }

  /** A mapping that no row from k on mentions stays as it was, through any passes. */
  lemma UnmentionedStays(log: seq<Row>, t: List, k: nat, m: Mapping, passes: seq<Replay.Stretch>)
    requires k <= |log| && !Mentioned(log, k, m) && Replay.Chained(k, |log|, k, passes)
    ensures SameAt(Replay.RunPasses(ApplyList, log, t, passes), t, m)
  {
    var J := (t': List, i: nat) => SameAt(t', t, m);
    assert Replay.Replayable(ApplyList, log, k, J) by {
      forall t', i | k <= i < |log| && J(t', i) ensures J(ApplyList(t', log[i]), i + 1) {
        assert log[i].body.mapping != m;
      }
    }
    Replay.PassesKeep(ApplyList, log, k, J, t, k, passes);
  }

  /**
   Catching up from row k with any table, through passes that stop at any row, even
   inside a group of rows with one key, and begin again at any earlier one down to k,
   gives the list of a single pass if and only if every mapping that no row from k on
   mentions is already as the single pass leaves it.
   */
  lemma ListCatchesUpIff(log: seq<Row>, t: List, k: nat, passes: seq<Replay.Stretch>)
    requires k <= |log| && Replay.Chained(k, |log|, k, passes) && Replay.Reached(k, passes) == |log|
    ensures Replay.RunPasses(ApplyList, log, t, passes) == OnePass(log) <==> Converging(log, t, k)
  {
    var final := Replay.RunPasses(ApplyList, log, t, passes);
    if Converging(log, t, k) {
      ConvergingReplayable(log, k);
      Replay.PassesKeep(ApplyList, log, k, ListInvariant(log), t, k, passes);
      forall m ensures SameAt(final, OnePass(log), m) {
        assert MappingFinal(log, final, |log|, m);
      }
      SameLists(final, OnePass(log));
    } else {
      var m :| !MappingFinal(log, t, k, m);
      UnmentionedStays(log, t, k, m, passes);
    }
  }

  /**
   After a reset, which deletes the rows of later blocks and no others and goes back to the
   start of its block, the list of any old chain becomes the new chain's if and only if every
   mapping that no row from there on mentions is, when the list that the reset finds has it at
   a block up to the reset's, as the single pass leaves it, and otherwise not on that list.
   */
  lemma {:induction false} ListRecoveryIff(log: seq<Row>, t: List, block: int, passes: seq<Replay.Stretch>)
    requires var k := Rank(log, Cursor(block, 0));
      Replay.Chained(k, |log|, k, passes) && Replay.Reached(k, passes) == |log|
    ensures var kept: List := map m | m in t && t[m].at.block <= block :: t[m];
      Replay.RunPasses(ApplyList, log, kept, passes) == OnePass(log) <==>
        forall m :: Mentioned(log, Rank(log, Cursor(block, 0)), m) || KeptAsOnePass(log, t, block, m)
    ensures CutList(t, block) == map m | m in t && t[m].at.block <= block :: t[m]
  {
    var kept := CutList(t, block);
    assert kept == map m | m in t && t[m].at.block <= block :: t[m];
    var k := Rank(log, Cursor(block, 0));
    forall m ensures MappingFinal(log, kept, k, m) <==> Mentioned(log, k, m) || KeptAsOnePass(log, t, block, m) {
    }
    ListCatchesUpIff(log, kept, k, passes);
    hide Rank, CutList, KeptAsOnePass, MappingFinal, Mentioned, OnePass;
  }

  ghost predicate KeptAsOnePass(log: seq<Row>, t: List, block: int, m: Mapping) {
    if m in t && t[m].at.block <= block then m in OnePass(log) && OnePass(log)[m] == t[m] else m !in OnePass(log)
  }

  /** Row k is the last one that mentions a mapping, and adds it. */
  ghost predicate LastAdds(log: seq<Row>, k: int, m: Mapping) {
    0 <= k < |log| && log[k].body.mapping == m && log[k].body.Added? && !Mentioned(log, k + 1, m)
  }

  /**
   The list of a single pass, in closed form: a mapping is on it if and only if the last row that
   mentions it adds it, with that row's position and transaction.
   */
  lemma {:induction false} OnePassIff(log: seq<Row>, m: Mapping)
    ensures m in OnePass(log) <==> exists k :: LastAdds(log, k, m)
    ensures forall k ::
        LastAdds(log, k, m) ==>
          m in OnePass(log) && OnePass(log)[m] == ListRow(log[k].key, log[k].body.transaction)
  {
    hide OnePass;
    forall k: nat | k < |log| && log[k].body.mapping == m && !Mentioned(log, k + 1, m)
      ensures SameAt(ApplyList(map[], log[k]), OnePass(log), m)
    {
      LastMention(log, map[], k);
    }
    if Mentioned(log, 0, m) {
      var k := LastMentioned(log, 0, m);
      assert log[k].body.Added? ==> LastAdds(log, k, m);
      assert LastAdds(log, k, m) ==> log[k].body.Added?;
    } else {
      NeverMentioned(log, m);
    }
  }

  lemma NeverMentioned(log: seq<Row>, m: Mapping)
    requires !Mentioned(log, 0, m)
    ensures m !in OnePass(log)
  {
    Unmentioned(log, map[], m);
  }

  lemma {:induction false} LastMentioned(log: seq<Row>, i: nat, m: Mapping) returns (k: nat)
    requires Mentioned(log, i, m)
    ensures k < |log| && log[k].body.mapping == m && !Mentioned(log, k + 1, m)
    decreases |log| - i
  {
    k :| i <= k < |log| && log[k].body.mapping == m;
    if Mentioned(log, k + 1, m) {
      k := LastMentioned(log, k + 1, m);
    }
  }

  /** So from the empty list every such run ends in the list of a single pass, on every log. */
  lemma ListConverges(log: seq<Row>, passes: seq<Replay.Stretch>)
    requires Replay.Chained(0, |log|, 0, passes) && Replay.Reached(0, passes) == |log|
    ensures Replay.RunPasses(ApplyList, log, map[], passes) == OnePass(log)
  {
    forall m ensures MappingFinal(log, map[], 0, m) {
      if !Mentioned(log, 0, m) {
        Unmentioned(log, map[], m);
      }
    }
    ListCatchesUpIff(log, map[], 0, passes);
  }

  lemma FoldCons(t: List, a: Row, rest: seq<Row>)
    ensures Fold(ApplyList, t, [a] + rest) == Fold(ApplyList, ApplyList(t, a), rest)
  {
    assert ([a] + rest)[1..] == rest;
  }

  lemma {:induction false} FoldThree(t: List, a: Row, b: Row, c: Row)
    ensures Fold(ApplyList, t, [a]) == ApplyList(t, a)
    ensures Fold(ApplyList, t, [a, b]) == ApplyList(ApplyList(t, a), b)
    ensures Fold(ApplyList, t, [a, b, c]) == ApplyList(ApplyList(ApplyList(t, a), b), c)
  {
    hide ApplyList;
    assert [a] + [] == [a] && [a] + [b] == [a, b] && [a] + [b, c] == [a, b, c] && [b] + [] == [b]
      && [b] + [c] == [b, c] && [c] + [] == [c];
    var t1 := ApplyList(t, a);
    var t2 := ApplyList(t1, b);
    FoldCons(t, a, []);
    FoldCons(t, a, [b]);
    FoldCons(t, a, [b, c]);
    FoldCons(t1, b, []);
    FoldCons(t1, b, [c]);
    FoldCons(t2, c, []);
  }

  lemma PollsCons(log: seq<Row>, d: Derived<List>, a: Fetch, rest: seq<Fetch>)
    ensures Polls(ApplyList, log, d, [a] + rest) == Polls(ApplyList, log, Poll(ApplyList, log, d, a), rest)
  {
    assert ([a] + rest)[1..] == rest;
  }

  lemma {:induction false} PollsTwo(log: seq<Row>, d: Derived<List>, a: Fetch, b: Fetch)
    ensures Polls(ApplyList, log, d, [a]) == Poll(ApplyList, log, d, a)
    ensures Polls(ApplyList, log, d, [a, b]) == Poll(ApplyList, log, Poll(ApplyList, log, d, a), b)
  {
    hide Poll;
    var after := Poll(ApplyList, log, d, a);
    assert [a] + [] == [a] && [a] + [b] == [a, b] && [b] + [] == [b];
    PollsCons(log, d, a, []);
    PollsCons(log, d, a, [b]);
    PollsCons(log, after, b, []);
  }

  /** Three rows, of which a first fetch finds the outer two and a second fetch all: the middle one is passed over. */
  lemma LateRow(r0: Row, r1: Row, r2: Row) returns (log: seq<Row>, fetches: seq<Fetch>)
    requires ORIGIN.Before(r0.key) && r0.key.Before(r1.key) && r1.key.Before(r2.key)
    ensures log == [r0, r1, r2] && |fetches| == 2 && fetches[1].present == {0, 1, 2}
    ensures Polls(ApplyList, log, Derived(map[], ORIGIN, []), fetches).table == ApplyList(ApplyList(map[], r0), r2)
  {
    hide ApplyList, Fold, Polls;
    var start := Derived(map[], ORIGIN, []);
    var first, second := Fetch({0, 2}, 10), Fetch({0, 1, 2}, 10);
    log, fetches := [r0, r1, r2], [first, second];
    assert Batch(log, first.present, ORIGIN, 9, 2) == [2] by {
      assert Batch(log, first.present, ORIGIN, 8, 3) == [];
    }
    assert Batch(log, first.present, ORIGIN, 9, 1) == [2];
    assert Batch(log, first.present, ORIGIN, 10, 0) == [0, 2];
    assert RowsAt(log, [0, 2]) == [r0, r2];
    var d := Poll(ApplyList, log, start, first);
    FoldThree(map[], r0, r2, r2);
    assert Batch(log, second.present, d.cursor, 10, 2) == [] by {
      assert Batch(log, second.present, d.cursor, 10, 3) == [];
    }
    assert Batch(log, second.present, d.cursor, 10, 1) == [];
    assert Batch(log, second.present, d.cursor, 10, 0) == [];
    PollsTwo(log, start, first, second);
  }

  /** A fetch that finds every row in place. */
  ghost predicate Complete(log: seq<Row>, fetch: Fetch) {
    forall k: nat :: k < |log| ==> k in fetch.present
  }

  /**
   Why every fetch has to be covered: the drip of row 1 arrives after a poll has gone
   past it, and the list keeps the attester that the fold of all rows has dropped.
   */
  lemma LateDripIsLost()
    ensures exists log: seq<Row>, fetches: seq<Fetch> ::
      && Ordered(log) && |log| > 0 && ORIGIN.Before(log[0].key)
      && |fetches| > 0 && Complete(log, fetches[|fetches| - 1])
      && Polls(ApplyList, log, Derived(map[], ORIGIN, []), fetches).table != OnePass(log)
  {
    hide Fold, Polls;
    var a, b := Mapping(1, 1), Mapping(1, 2);
    var r0: Row, r1: Row, r2: Row :=
      Event(Cursor(1, 0), 0, Added(a, 10)), Event(Cursor(2, 0), 1, Dripped(a)), Event(Cursor(3, 0), 2, Added(b, 11));
    var log, fetches := LateRow(r0, r1, r2);
    FoldThree(map[], r0, r1, r2);
    assert a in ApplyList(ApplyList(map[], r0), r2) && a !in OnePass(log);
  }

  /** No row but row k says anything about its mapping. */
  ghost predicate OnlyMention(log: seq<Row>, k: nat) {
    k < |log| && forall j :: 0 <= j < |log| && j != k ==> log[j].body.mapping != log[k].body.mapping
  }

  /** A row that was passed over is never listed. */
  lemma {:induction false} NotListed(log: seq<Row>, d: Derived<List>, fetches: seq<Fetch>, k: nat)
    requires OnlyMention(log, k) && Skipped(log, d, k) && log[k].body.mapping !in d.table
    ensures log[k].body.mapping !in Polls(ApplyList, log, d, fetches).table
    decreases |fetches|
  {
    if fetches != [] {
      var m, after := log[k].body.mapping, Poll(ApplyList, log, d, fetches[0]);
      var batch := Batch(log, fetches[0].present, d.cursor, fetches[0].batchSize, 0);
      if batch != [] {
        assert forall i :: 0 <= i < |batch| ==> batch[i] in batch && RowsAt(log, batch)[i] == log[batch[i]];
        Unmentioned(RowsAt(log, batch), d.table, m);
      }
      PollKeepsSkipped(ApplyList, log, d, fetches[0], k);
      NotListed(log, after, fetches[1..], k);
    }
  }

  /**
   And why no group may be cut: when a batch ends inside the group of rows of one event,
   an attester among the others, if no other row names it, is on the list of a single
   pass and never on this one, whatever fetches follow.
   */
  lemma {:induction false} CutGroupIsLost(log: seq<Row>, d: Derived<List>, fetch: Fetch, later: seq<Fetch>, k: nat)
    requires Ordered(log) && Exact(log, d) && OnlyMention(log, k) && log[k].body.Added?
    requires log[k].body.mapping !in d.table
    requires var batch := Batch(log, fetch.present, d.cursor, fetch.batchSize, 0);
      batch != [] && k !in batch && log[k].key == LastKey(log, batch)
    ensures log[k].body.mapping in OnePass(log)
    ensures log[k].body.mapping !in Polls(ApplyList, log, d, [fetch] + later).table
  {
    hide Ordered, Exact, Polls, Fold, OnePass;
    LastMention(log, map[], k);
    CutGroupSkips(ApplyList, log, d, fetch, k);
    var batch, m := Batch(log, fetch.present, d.cursor, fetch.batchSize, 0), log[k].body.mapping;
    assert forall i :: 0 <= i < |batch| ==> batch[i] in batch && RowsAt(log, batch)[i] == log[batch[i]];
    Unmentioned(RowsAt(log, batch), d.table, m);
    NotListed(log, Poll(ApplyList, log, d, fetch), later, k);
    PollsCons(log, d, fetch, later);
  }

  /** With every row present and past the cursor, a batch is the next rows as they come. */
  lemma {:induction false} WholeBatch(log: seq<Row>, present: set<nat>, c: Cursor, n: nat, i: nat)
    requires i + n <= |log| && forall k :: i <= k < |log| ==> k in present && c.Before(log[k].key)
    ensures Batch(log, present, c, n, i) == Range(i, i + n)
    decreases n
  {
    if n > 0 {
      WholeBatch(log, present, c, n - 1, i + 1);
      assert [i] + Range(i + 1, i + n) == Range(i, i + n);
    }
  }

  /** n - 1 events with one attester each, then one with two. */
  function PairAtEnd(n: nat): seq<Row>
    requires n >= 1
  {
    seq(n + 1, i requires 0 <= i <= n => Event(Cursor(if i < n then i + 1 else n, 0), i, Added(Mapping(1, i), 10)))
  }

  lemma {:induction false} PairBatch(n: nat)
    requires n >= 1
    ensures Batch(PairAtEnd(n), AllRows(n + 1), ORIGIN, n, 0) == Range(0, n)
    ensures LastKey(PairAtEnd(n), Range(0, n)) == Cursor(n, 0)
    ensures Exact<List, ListEvent>(PairAtEnd(n), Derived(map[], ORIGIN, []))
  {
    WholeBatch(PairAtEnd(n), AllRows(n + 1), ORIGIN, n, 0);
    AllAfter(PairAtEnd(n), ORIGIN);
    RangeHas(0, n);
  }

  /** So at every batch size an event with two attesters can lose one, with all rows there from the start. */
  lemma {:induction false} PairIsCut(n: nat, later: seq<Fetch>)
    requires n >= 1
    ensures var log := PairAtEnd(n);
      && Ordered(log) && Complete(log, Fetch(AllRows(n + 1), n))
      && Mapping(1, n) in OnePass(log)
      && Mapping(1, n) !in Polls(ApplyList, log, Derived(map[], ORIGIN, []), [Fetch(AllRows(n + 1), n)] + later).table
  {
    hide Polls, Fold, OnePass, Exact, Batch;
    var log := PairAtEnd(n);
    PairBatch(n);
    RangeHas(0, n);
    CutGroupIsLost(log, Derived(map[], ORIGIN, []), Fetch(AllRows(n + 1), n), later, n);
  }
}
