/**
 Ordered event logs: keys, the cursor condition, and the batch query that merges
 several source tables.  Row ids, addresses and hashes are natural numbers
 throughout the project, because only their equality matters.
 */
module EventLog {

  /** A position in the chain: block number, then log index within the block. */
  datatype Cursor = Cursor(block: int, log: int) {
    predicate Before(that: Cursor) {
      block < that.block || (block == that.block && log < that.log)
    }
  }

  /** Where a materializer without a checkpoint starts; the comparison with it is strict. */
  const ORIGIN := Cursor(0, 0)

  /** A source row: its key, its unique row id, and the event it carries. */
  datatype Event<+B> = Event(key: Cursor, id: nat, body: B)

  ghost predicate Sorted<B(!new)>(s: seq<Event<B>>) {
    forall i, j :: 0 <= i < j < |s| ==> s[i].key.Before(s[j].key)
  }

  /** Chronological, with equal keys allowed. */
  ghost predicate Ordered<B(!new)>(s: seq<Event<B>>) {
    forall i, j :: 0 <= i < j < |s| ==> !s[j].key.Before(s[i].key)
  }

  lemma SortedIsOrdered<B(!new)>(s: seq<Event<B>>)
    requires Sorted(s)
    ensures Ordered(s)
  {
  }

  ghost predicate DistinctKeys<B(!new)>(s: seq<Event<B>>) {
    forall i, j :: 0 <= i < j < |s| ==> s[i].key != s[j].key
  }

  ghost predicate UniqueIds<B(!new)>(s: seq<Event<B>>) {
    forall i, j :: 0 <= i < j < |s| ==> s[i].id != s[j].id
  }

  /** The rows strictly after a cursor (the WHERE clause of every fetch). */
  function After<B(!new)>(s: seq<Event<B>>, c: Cursor): (r: seq<Event<B>>)
    ensures forall e :: e in r <==> e in s && c.Before(e.key)
    ensures |r| <= |s|
  {
    if s == [] then []
    else if c.Before(s[0].key) then [s[0]] + After(s[1..], c)
    else After(s[1..], c)
  }

  /** The first n elements (LIMIT, or slice). */
  function Take<A>(s: seq<A>, n: nat): seq<A> {
    if |s| <= n then s else s[..n]
  }

  /** Before the first row that does not come earlier, so a sort leaves rows with equal keys as they stood. */
  function Insert<B(!new)>(e: Event<B>, s: seq<Event<B>>): (r: seq<Event<B>>)
    ensures multiset(r) == multiset(s) + multiset{e}
  {
    if s == [] then [e]
    else if !s[0].key.Before(e.key) then [e] + s
    else
      assert s == [s[0]] + s[1..];
      [s[0]] + Insert(e, s[1..])
  }

  /** Rows in chronological order (ORDER BY, or the comparator passed to sort). */
  function Sort<B(!new)>(s: seq<Event<B>>): (r: seq<Event<B>>)
    ensures multiset(r) == multiset(s)
  {
    if s == [] then []
    else
      assert s == [s[0]] + s[1..];
      Insert(s[0], Sort(s[1..]))
  }

  /** The union of all source tables. */
  function Flatten<B>(sources: seq<seq<Event<B>>>): seq<Event<B>> {
    if sources == [] then [] else sources[0] + Flatten(sources[1..])
  }

  /** One query per source: the first n rows after the cursor, in order. */
  function FetchEach<B(!new)>(sources: seq<seq<Event<B>>>, c: Cursor, n: nat): seq<Event<B>> {
    if sources == [] then []
    else Take(Sort(After(sources[0], c)), n) + FetchEach(sources[1..], c, n)
  }

  /** The batch: every source's rows merged, sorted, and cut to n. */
  function FetchBatch<B(!new)>(sources: seq<seq<Event<B>>>, c: Cursor, n: nat): seq<Event<B>> {
    Take(Sort(FetchEach(sources, c, n)), n)
  }

  // ---- sorted sequences ----

  lemma Members<B(!new)>(a: seq<Event<B>>, b: seq<Event<B>>)
    requires multiset(a) == multiset(b)
    ensures forall e :: e in a <==> e in b
  {
    forall e ensures e in a <==> e in b {
      assert e in a <==> e in multiset(a);
    }
  }

  lemma {:induction false} InsertOrdered<B(!new)>(e: Event<B>, s: seq<Event<B>>)
    requires Ordered(s)
    ensures Ordered(Insert(e, s))
  {
    if s != [] && s[0].key.Before(e.key) {
      InsertOrdered(e, s[1..]);
      var r := Insert(e, s[1..]);
      forall x | x in r ensures !x.key.Before(s[0].key) {
        assert x in multiset(r);
        assert x == e || x in s[1..];
      }
    }
  }

  lemma {:induction false} SortOrdered<B(!new)>(s: seq<Event<B>>)
    ensures Ordered(Sort(s))
  {
    if s != [] {
      SortOrdered(s[1..]);
      InsertOrdered(s[0], Sort(s[1..]));
    }
  }

  /** What is in order already stays as it is, rows with equal keys included. */
  lemma {:induction false} SortKeeps<B(!new)>(s: seq<Event<B>>)
    requires Ordered(s)
    ensures Sort(s) == s
  {
    if s != [] {
      SortKeeps(s[1..]);
    }
  }

  lemma {:induction false} InsertSorted<B(!new)>(e: Event<B>, s: seq<Event<B>>)
    requires Sorted(s)
    requires forall x :: x in s ==> x.key != e.key
    ensures Sorted(Insert(e, s))
  {
    if s != [] && s[0].key.Before(e.key) {
      InsertSorted(e, s[1..]);
      var r := Insert(e, s[1..]);
      forall x | x in r ensures s[0].key.Before(x.key) {
        assert x in multiset(r);
        assert x == e || x in s[1..];
      }
    }
  }

  /** Sorting rows with distinct keys gives a strictly increasing log of the same rows. */
  lemma {:induction false} SortSorted<B(!new)>(s: seq<Event<B>>)
    requires DistinctKeys(s)
    ensures Sorted(Sort(s))
    ensures forall e :: e in Sort(s) <==> e in s
  {
    Members(Sort(s), s);
    if s != [] {
      SortSorted(s[1..]);
      forall x | x in Sort(s[1..]) ensures x.key != s[0].key {
        var k :| 0 <= k < |s[1..]| && s[1..][k] == x;
        assert s[k + 1] == x;
      }
      InsertSorted(s[0], Sort(s[1..]));
    }
  }

  lemma InTail<A>(e: A, s: seq<A>)
    requires e in s && e != s[0]
    ensures e in s[1..]
  {
    var k :| 0 <= k < |s| && s[k] == e;
    assert s[1..][k - 1] == e;
  }

  // ---- batching ----

  /** Two logs merged, rows of the first ahead of those of the second with the same key. */
  function Merge<B(!new)>(x: seq<Event<B>>, y: seq<Event<B>>): seq<Event<B>>
    decreases |x| + |y|
  {
    if x == [] then y
    else if y == [] then x
    else if !y[0].key.Before(x[0].key) then [x[0]] + Merge(x[1..], y)
    else [y[0]] + Merge(x, y[1..])
  }

  lemma InsertFront<B(!new)>(e: Event<B>, a: Event<B>, s: seq<Event<B>>)
    ensures Insert(e, [a] + s) == if !a.key.Before(e.key) then [e] + ([a] + s) else [a] + Insert(e, s)
  {
    assert ([a] + s)[1..] == s;
  }

  lemma MergeFront<B(!new)>(a: Event<B>, x: seq<Event<B>>, y: seq<Event<B>>)
    requires y != []
    ensures Merge([a] + x, y) == if !y[0].key.Before(a.key) then [a] + Merge(x, y) else [y[0]] + Merge([a] + x, y[1..])
  {
    assert ([a] + x)[1..] == x;
  }

  /** Inserting a row into the merge is inserting it into the first log. */
  lemma {:induction false} InsertMerge<B(!new)>(e: Event<B>, x: seq<Event<B>>, y: seq<Event<B>>)
    requires Ordered(x) && Ordered(y)
    ensures Insert(e, Merge(x, y)) == Merge(Insert(e, x), y)
    decreases |x| + |y|
  {
    if y != [] {
      MergeFront(e, x, y);
      if x == [] {
        assert [e] + [] == [e];
        if y[0].key.Before(e.key) {
          InsertMerge(e, x, y[1..]);
        }
      } else {
        InsertMergeStep(e, x, y);
      }
    }
  }

  lemma {:induction false} InsertMergeStep<B(!new)>(e: Event<B>, x: seq<Event<B>>, y: seq<Event<B>>)
    requires Ordered(x) && Ordered(y) && x != [] && y != []
    ensures Insert(e, Merge(x, y)) == Merge(Insert(e, x), y)
    decreases |x| + |y|, 0
  {
    var a, b := x[0], y[0];
    assert x == [a] + x[1..];
    MergeFront(e, x, y);
    if !b.key.Before(a.key) {
      InsertFront(e, a, Merge(x[1..], y));
      if a.key.Before(e.key) {
        InsertMerge(e, x[1..], y);
        MergeFront(a, Insert(e, x[1..]), y);
      }
    } else {
      InsertFront(e, b, Merge(x, y[1..]));
      if b.key.Before(e.key) {
        InsertMerge(e, x, y[1..]);
        if a.key.Before(e.key) {
          MergeFront(a, Insert(e, x[1..]), y);
        }
      }
    }
  }

  /** Sorting a union is merging the sorted parts. */
  lemma {:induction false} SortMerges<B(!new)>(a: seq<Event<B>>, b: seq<Event<B>>)
    ensures Sort(a + b) == Merge(Sort(a), Sort(b))
  {
    if a == [] {
      assert a + b == b;
    } else {
      assert (a + b)[1..] == a[1..] + b;
      SortMerges(a[1..], b);
      SortOrdered(a[1..]);
      SortOrdered(b);
      InsertMerge(a[0], Sort(a[1..]), Sort(b));
    }
  }

  /** The first n rows of a merge come from the first n rows of each part. */
  lemma {:induction false} TakeMerge<B(!new)>(x: seq<Event<B>>, y: seq<Event<B>>, n: nat)
    ensures Take(Merge(x, y), n) == Take(Merge(Take(x, n), Take(y, n)), n)
    decreases |x| + |y|
  {
    if n > 0 && x != [] && y != [] {
      if !y[0].key.Before(x[0].key) {
        TakeMergeFirst(x, y, n);
      } else {
        TakeMergeSecond(x, y, n);
      }
    }
  }

  lemma TakeFront<A>(a: A, s: seq<A>, n: nat)
    requires n > 0
    ensures Take([a] + s, n) == [a] + Take(s, n - 1)
  {
  }

  lemma TakeLess<A>(s: seq<A>, n: nat)
    requires n > 0
    ensures Take(Take(s, n), n - 1) == Take(s, n - 1)
  {
  }

  lemma {:induction false} TakeMergeFirst<B(!new)>(x: seq<Event<B>>, y: seq<Event<B>>, n: nat)
    requires n > 0 && x != [] && y != [] && !y[0].key.Before(x[0].key)
    ensures Take(Merge(x, y), n) == Take(Merge(Take(x, n), Take(y, n)), n)
    decreases |x| + |y|, 0
  {
    var x', y' := x[1..], Take(y, n);
    assert x == [x[0]] + x' && y'[0] == y[0];
    TakeFront(x[0], x', n);
    MergeFront(x[0], x', y);
    MergeFront(x[0], Take(x', n - 1), y');
    TakeFront(x[0], Merge(x', y), n);
    TakeFront(x[0], Merge(Take(x', n - 1), y'), n);
    hide Merge, Take;
    TakeMerge(x', y, n - 1);
    TakeMerge(Take(x', n - 1), y', n - 1);
    TakeLess(y, n);
    TakeTwice(x', n - 1);
  }

  lemma TakeTwice<A>(s: seq<A>, n: nat)
    ensures Take(Take(s, n), n) == Take(s, n)
  {
  }

  lemma MergeSecond<B(!new)>(x: seq<Event<B>>, b: Event<B>, y: seq<Event<B>>)
    requires x != [] && b.key.Before(x[0].key)
    ensures Merge(x, [b] + y) == [b] + Merge(x, y)
  {
    assert ([b] + y)[1..] == y;
  }

  lemma {:induction false} TakeMergeSecond<B(!new)>(x: seq<Event<B>>, y: seq<Event<B>>, n: nat)
    requires n > 0 && x != [] && y != [] && y[0].key.Before(x[0].key)
    ensures Take(Merge(x, y), n) == Take(Merge(Take(x, n), Take(y, n)), n)
    decreases |x| + |y|, 0
  {
    var x', y' := Take(x, n), y[1..];
    assert y == [y[0]] + y' && x'[0] == x[0];
    TakeFront(y[0], y', n);
    MergeSecond(x, y[0], y');
    MergeSecond(x', y[0], Take(y', n - 1));
    TakeFront(y[0], Merge(x, y'), n);
    TakeFront(y[0], Merge(x', Take(y', n - 1)), n);
    hide Merge, Take;
    TakeMerge(x, y', n - 1);
    TakeMerge(x', Take(y', n - 1), n - 1);
    TakeLess(x, n);
    TakeTwice(y', n - 1);
  }

  lemma {:induction false} AfterConcat<B(!new)>(a: seq<Event<B>>, b: seq<Event<B>>, c: Cursor)
    ensures After(a + b, c) == After(a, c) + After(b, c)
  {
    if a == [] {
      assert a + b == b;
    } else {
      assert (a + b)[1..] == a[1..] + b;
      AfterConcat(a[1..], b, c);
    }
  }

  lemma AfterFront<B(!new)>(a: Event<B>, s: seq<Event<B>>, c: Cursor)
    ensures After([a] + s, c) == if c.Before(a.key) then [a] + After(s, c) else After(s, c)
  {
    assert ([a] + s)[1..] == s;
  }

  lemma {:induction false} AfterInsert<B(!new)>(e: Event<B>, s: seq<Event<B>>, c: Cursor)
    requires Ordered(s)
    ensures After(Insert(e, s), c) == if c.Before(e.key) then Insert(e, After(s, c)) else After(s, c)
  {
    hide After;
    if s == [] {
      AfterFront(e, [], c);
      assert [e] + [] == [e];
      NothingAfter(s, c);
    } else if s[0].key.Before(e.key) {
      AfterInsert(e, s[1..], c);
      AfterFront(s[0], s[1..], c);
      AfterFront(s[0], Insert(e, s[1..]), c);
      InsertFront(e, s[0], After(s[1..], c));
      assert s == [s[0]] + s[1..];
    } else {
      AfterFront(e, s, c);
      if c.Before(e.key) {
        AllAfter(s, c);
      }
    }
  }

  lemma NothingAfter<B(!new)>(s: seq<Event<B>>, c: Cursor)
    requires s == []
    ensures After(s, c) == []
  {
  }

  /** It makes no difference whether rows are selected or sorted first. */
  lemma {:induction false} AfterSort<B(!new)>(s: seq<Event<B>>, c: Cursor)
    ensures After(Sort(s), c) == Sort(After(s, c))
  {
    if s != [] {
      AfterSort(s[1..], c);
      SortOrdered(s[1..]);
      AfterInsert(s[0], Sort(s[1..]), c);
    }
  }

  lemma TakeOrdered<B(!new)>(s: seq<Event<B>>, n: nat)
    requires Ordered(s)
    ensures Ordered(Take(s, n))
  {
  }

  lemma {:induction false} FetchIsTake<B(!new)>(sources: seq<seq<Event<B>>>, c: Cursor, n: nat)
    ensures FetchBatch(sources, c, n) == Take(Sort(After(Flatten(sources), c)), n)
  {
    if sources != [] {
      var first, rest := After(sources[0], c), After(Flatten(sources[1..]), c);
      var own, others := Take(Sort(first), n), FetchEach(sources[1..], c, n);
      FetchIsTake(sources[1..], c, n);
      hide Sort, Merge, Take, After;
      AfterConcat(sources[0], Flatten(sources[1..]), c);
      SortMerges(own, others);
      SortMerges(first, rest);
      SortOrdered(first);
      TakeOrdered(Sort(first), n);
      SortKeeps(own);
      TakeMerge(own, Sort(others), n);
      TakeTwice(Sort(first), n);
      TakeMerge(Sort(first), Sort(rest), n);
    }
  }

  /**
   Batching several tables is batching one log: the merged, sorted and cut batch is the
   first n rows after the cursor in the sorted union of the tables.  Rows with equal keys
   stand in the order of their tables, and within a table as they are stored.
   */
  lemma BatchIsLogPrefix<B(!new)>(sources: seq<seq<Event<B>>>, c: Cursor, n: nat)
    ensures FetchBatch(sources, c, n) == Take(After(Sort(Flatten(sources)), c), n)
  {
    FetchIsTake(sources, c, n);
    AfterSort(Flatten(sources), c);
  }

  // ---- ranks and folds ----

  /** How many rows of a log the cursor has passed. */
  function Rank<B(!new)>(s: seq<Event<B>>, c: Cursor): (r: nat)
    ensures r <= |s|
  {
    |s| - |After(s, c)|
  }

  lemma {:induction false} AllAfter<B(!new)>(s: seq<Event<B>>, c: Cursor)
    requires forall e :: e in s ==> c.Before(e.key)
    ensures After(s, c) == s
  {
    if s != [] {
      assert s[0] in s;
      AllAfter(s[1..], c);
    }
  }

  /** In chronological order the rows still to fetch are a suffix, cut exactly at the cursor. */
  lemma {:induction false} CursorSplits<B(!new)>(s: seq<Event<B>>, c: Cursor)
    requires Ordered(s)
    ensures After(s, c) == s[Rank(s, c)..]
    ensures forall i :: 0 <= i < |s| ==> (i < Rank(s, c) <==> !c.Before(s[i].key))
  {
    if s != [] {
      if c.Before(s[0].key) {
        AllAfter(s, c);
      } else {
        CursorSplits(s[1..], c);
        forall i | 0 <= i < |s| ensures i < Rank(s, c) <==> !c.Before(s[i].key) {
          if i > 0 { assert s[i] == s[1..][i - 1]; }
        }
      }
    }
  }

  lemma CursorMonotone<B(!new)>(s: seq<Event<B>>, c: Cursor, d: Cursor)
    requires Ordered(s) && !d.Before(c)
    ensures Rank(s, c) <= Rank(s, d)
  {
    CursorSplits(s, c);
    CursorSplits(s, d);
    if Rank(s, d) < |s| {
      assert d.Before(s[Rank(s, d)].key);
      assert c.Before(s[Rank(s, d)].key);
    }
  }

  lemma RankSplits<B(!new)>(s: seq<Event<B>>, c: Cursor)
    requires Sorted(s)
    ensures After(s, c) == s[Rank(s, c)..]
    ensures forall i :: 0 <= i < |s| ==> (i < Rank(s, c) <==> !c.Before(s[i].key))
  {
    SortedIsOrdered(s);
    CursorSplits(s, c);
  }

  lemma RankMonotone<B(!new)>(s: seq<Event<B>>, c: Cursor, d: Cursor)
    requires Sorted(s) && !d.Before(c)
    ensures Rank(s, c) <= Rank(s, d)
  {
    SortedIsOrdered(s);
    CursorMonotone(s, c, d);
  }

  lemma RankOfRow<B(!new)>(s: seq<Event<B>>, i: nat)
    requires Sorted(s) && i < |s|
    ensures Rank(s, s[i].key) == i + 1
  {
    RankSplits(s, s[i].key);
    if i + 1 < |s| { assert s[i].key.Before(s[i + 1].key); }
  }

  /** Applying a handler to rows one after the other. */
  function Fold<T, B>(f: (T, Event<B>) -> T, t: T, s: seq<Event<B>>): T {
    if s == [] then t else Fold(f, f(t, s[0]), s[1..])
  }

  lemma {:induction false} FoldAppend<T, B>(f: (T, Event<B>) -> T, t: T, a: seq<Event<B>>, b: seq<Event<B>>)
    ensures Fold(f, t, a + b) == Fold(f, Fold(f, t, a), b)
  {
    if a == [] {
      assert a + b == b;
    } else {
      assert (a + b)[1..] == a[1..] + b;
      FoldAppend(f, f(t, a[0]), a[1..], b);
    }
  }

  lemma FoldNext<T, B>(f: (T, Event<B>) -> T, t: T, s: seq<Event<B>>, k: nat)
    requires k < |s|
    ensures Fold(f, t, s[..k + 1]) == f(Fold(f, t, s[..k]), s[k])
  {
    assert s[..k + 1] == s[..k] + [s[k]];
    FoldAppend(f, t, s[..k], [s[k]]);
  }
}
