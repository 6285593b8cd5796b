/**
 Whole runs over the epoch tables: saving attestations, analyzing epochs and counting
 performance, in any order.  A stored score of 100 freezes an epoch.
 */
module EpochFreeze {
  import opened Wrappers
  import opened EpochIntegrity
  import opened EpochAccounting

  datatype World = World(rows: seq<Attestation>, stats: map<int, Analysis>, performance: seq<Performance>)

  const EMPTY := World([], map[], [])

  /** The committee and the number of slots per epoch an analysis is given. */
  datatype Shape = Shape(committee: nat, slots: nat)

  /** A save carries the slots per epoch from which its epoch was derived. */
  datatype Step =
    | Save(data: Attestation, slots: nat)
    | Analyze(epoch: int, shape: Shape)
    | Recount(epoch: int, validator: nat)

  function Apply(s: World, step: Step): World {
    match step
    case Save(d, _) => if d.epoch in s.stats && s.stats[d.epoch].score == 100 then s else s.(rows := Upsert(s.rows, d))
    case Analyze(e, c) => s.(stats := s.stats[e := EpochAnalysis(s.rows, e, c.committee, c.slots)])
    case Recount(e, v) => s.(performance := UpsertPerformance(s.performance, PerformanceOf(s.rows, e, v)))
  }

  function Run(s: World, steps: seq<Step>): World
    decreases |steps|
  {
    if steps == [] then s else Run(Apply(s, steps[0]), steps[1..])
  }

  /** The row a save would update. */
  function RowFor(rows: seq<Attestation>, d: Attestation): Option<Attestation> {
    if rows == [] then None
    else if rows[0].SameKey(d) then Some(rows[0])
    else RowFor(rows[1..], d)
  }

  /** A save names the epoch that the row for its slot and validator already has. */
  ghost predicate Agrees(s: World, step: Step) {
    step.Save? && RowFor(s.rows, step.data).Some? ==> RowFor(s.rows, step.data).value.epoch == step.data.epoch
  }

  ghost predicate AllAgree(s: World, steps: seq<Step>)
    decreases |steps|
  {
    steps != [] ==> Agrees(s, steps[0]) && AllAgree(Apply(s, steps[0]), steps[1..])
  }

  /** The analysis stored for a frozen epoch is that of the rows it has now. */
  ghost predicate FrozenIsCurrent(c: Shape, s: World) {
    forall e :: Frozen(s.stats, e) ==> s.stats[e] == EpochAnalysis(s.rows, e, c.committee, c.slots)
  }

  lemma {:induction false} InEpochFront(first: Attestation, rest: seq<Attestation>, e: int)
    ensures InEpoch([first] + rest, e) == InEpoch([first], e) + InEpoch(rest, e)
    decreases |rest|
  {
    if rest == [] {
      assert [first] + rest == [first];
    } else {
      var k := |rest| - 1;
      assert ([first] + rest)[..|rest|] == [first] + rest[..k];
      InEpochFront(first, rest[..k], e);
    }
  }

  lemma InEpochOne(row: Attestation, e: int)
    ensures InEpoch([row], e) == if row.epoch == e then [row] else []
  {
    assert [row][..0] == [];
  }

  function Updated(row: Attestation, d: Attestation): Attestation {
    row.(status := d.status, stamp := d.stamp, index := d.index)
  }

  /**
   Which epoch's rows a save changes: those of the epoch stored in the row it updates,
   whatever epoch the save itself names; only a new row goes to the epoch named.
   */
  lemma {:induction false} UpsertTouches(rows: seq<Attestation>, d: Attestation, e: int)
    ensures InEpoch(Upsert(rows, d), e) != InEpoch(rows, e) <==>
      match RowFor(rows, d)
      case Some(row) => row.epoch == e && Updated(row, d) != row
      case None => d.epoch == e
  {
    if rows == [] {
      InEpochOne(d, e);
    } else {
      var first, rest := rows[0], rows[1..];
      assert rows == [first] + rest;
      InEpochFront(first, rest, e);
      InEpochOne(first, e);
      if first.SameKey(d) {
        InEpochFront(Updated(first, d), rest, e);
        InEpochOne(Updated(first, d), e);
        SameTail([first], [Updated(first, d)], InEpoch(rest, e));
      } else {
        UpsertTouches(rest, d, e);
        InEpochFront(first, Upsert(rest, d), e);
        SameHead(InEpoch([first], e), InEpoch(rest, e), InEpoch(Upsert(rest, d), e));
      }
    }
  }

  lemma SameTail(a: seq<Attestation>, b: seq<Attestation>, tail: seq<Attestation>)
    requires |a| == |b|
    ensures a + tail == b + tail <==> a == b
  {
    assert (a + tail)[..|a|] == a && (b + tail)[..|b|] == b;
  }

  lemma SameHead(head: seq<Attestation>, a: seq<Attestation>, b: seq<Attestation>)
    ensures head + a == head + b <==> a == b
  {
    assert (head + a)[|head|..] == a && (head + b)[|head|..] == b;
  }

  /**
   Exactly which saves get past the freeze: those that name an epoch that is not
   frozen, for a slot and validator whose row is stored under the frozen epoch, with
   new contents.
   */
  lemma SaveThawsIff(s: World, d: Attestation, slots: nat, e: int)
    requires Frozen(s.stats, e)
    ensures InEpoch(Apply(s, Save(d, slots)).rows, e) != InEpoch(s.rows, e) <==>
      && !Frozen(s.stats, d.epoch)
      && RowFor(s.rows, d).Some? && RowFor(s.rows, d).value.epoch == e
        && Updated(RowFor(s.rows, d).value, d) != RowFor(s.rows, d).value
  {
    UpsertTouches(s.rows, d, e);
  }

  ghost predicate Uses(c: Shape, step: Step) {
    step.Analyze? ==> step.shape == c
  }

  ghost predicate AllUse(c: Shape, steps: seq<Step>) {
    forall i :: 0 <= i < |steps| ==> Uses(c, steps[i])
  }

  lemma StepKeepsFrozen(c: Shape, s: World, step: Step)
    requires FrozenIsCurrent(c, s) && Agrees(s, step) && Uses(c, step)
    ensures FrozenIsCurrent(c, Apply(s, step))
    ensures forall e :: Frozen(s.stats, e) ==>
      var t := Apply(s, step); e in t.stats && t.stats[e] == s.stats[e] && InEpoch(t.rows, e) == InEpoch(s.rows, e)
  {
    hide EpochAnalysis, Upsert, InEpoch;
    if step.Save? {
      forall e | Frozen(s.stats, e) ensures InEpoch(Apply(s, step).rows, e) == InEpoch(s.rows, e) {
        SaveThawsIff(s, step.data, step.slots, e);
      }
      forall e | Frozen(s.stats, e) ensures EpochAnalysis(Apply(s, step).rows, e, c.committee, c.slots) == s.stats[e] {
        SameRowsSameAnalysis(s.rows, Apply(s, step).rows, e, c);
      }
    }
  }

  lemma SameRowsSameAnalysis(a: seq<Attestation>, b: seq<Attestation>, e: int, c: Shape)
    requires InEpoch(a, e) == InEpoch(b, e)
    ensures EpochAnalysis(a, e, c.committee, c.slots) == EpochAnalysis(b, e, c.committee, c.slots)
  {
  }

  lemma {:induction false} RunKeepsFrozen(c: Shape, s: World, steps: seq<Step>, e: int)
    requires FrozenIsCurrent(c, s) && AllAgree(s, steps) && AllUse(c, steps)
    ensures FrozenIsCurrent(c, Run(s, steps))
    ensures Frozen(s.stats, e) ==>
      var t := Run(s, steps); e in t.stats && t.stats[e] == s.stats[e] && InEpoch(t.rows, e) == InEpoch(s.rows, e)
    decreases |steps|
  {
    hide EpochAnalysis, Upsert, InEpoch, FrozenIsCurrent, Agrees, Apply;
    if steps != [] {
      assert Uses(c, steps[0]) && AllUse(c, steps[1..]);
      StepKeepsFrozen(c, s, steps[0]);
      RunKeepsFrozen(c, Apply(s, steps[0]), steps[1..], e);
    }
  }

  lemma {:induction false} RunInTwo(s: World, first: seq<Step>, second: seq<Step>)
    ensures Run(s, first + second) == Run(Run(s, first), second)
    ensures AllAgree(s, first + second) <==> AllAgree(s, first) && AllAgree(Run(s, first), second)
    decreases |first|
  {
    hide Apply, Agrees;
    if first == [] {
      assert first + second == second;
    } else {
      assert (first + second)[1..] == first[1..] + second;
      RunInTwo(Apply(s, first[0]), first[1..], second);
    }
  }

  /**
   Score 100 is absorbing: once a run has stored it for an epoch, no continuation
   changes the epoch's attestations or its stored analysis.
   */
  lemma FreezeIsAbsorbing(c: Shape, first: seq<Step>, second: seq<Step>, e: int)
    requires AllAgree(EMPTY, first + second) && AllUse(c, first + second)
    requires Frozen(Run(EMPTY, first).stats, e)
    ensures var s, t := Run(EMPTY, first), Run(EMPTY, first + second);
      Frozen(t.stats, e) && t.stats[e] == s.stats[e] && InEpoch(t.rows, e) == InEpoch(s.rows, e)
  {
    RunInTwo(EMPTY, first, second);
    PartsUse(c, first, second);
    RunKeepsFrozen(c, EMPTY, first, e);
    RunKeepsFrozen(c, Run(EMPTY, first), second, e);
  }

  lemma PartsUse(c: Shape, first: seq<Step>, second: seq<Step>)
    requires AllUse(c, first + second)
    ensures AllUse(c, first) && AllUse(c, second)
  {
    var all := first + second;
    assert forall i :: 0 <= i < |first| ==> all[i] == first[i];
    assert forall i :: 0 <= i < |second| ==> all[|first| + i] == second[i];
    forall i | 0 <= i < |second| ensures Uses(c, second[i]) {
      assert Uses(c, all[|first| + i]);
    }
  }

  // ---- with slots per epoch fixed, every save agrees ----

  /** The epoch a collector gives to a slot. */
  predicate DerivedEpoch(slots: nat, d: Attestation) {
    slots > 0 && d.epoch == d.slot / slots
  }

  ghost predicate AllDerived(slots: nat, rows: seq<Attestation>) {
    forall row :: row in rows ==> DerivedEpoch(slots, row)
  }

  /** Every save's epoch was derived from its slot, with the slots per epoch of the moment. */
  ghost predicate AsCollected(steps: seq<Step>) {
    forall i :: 0 <= i < |steps| && steps[i].Save? ==> DerivedEpoch(steps[i].slots, steps[i].data)
  }

  lemma {:induction false} RowForIsRow(rows: seq<Attestation>, d: Attestation)
    ensures RowFor(rows, d).Some? ==> RowFor(rows, d).value in rows && RowFor(rows, d).value.SameKey(d)
  {
    if rows != [] && !rows[0].SameKey(d) {
      RowForIsRow(rows[1..], d);
    }
  }

  lemma {:induction false} UpsertKeepsDerived(slots: nat, rows: seq<Attestation>, d: Attestation)
    requires AllDerived(slots, rows) && DerivedEpoch(slots, d)
    ensures AllDerived(slots, Upsert(rows, d))
  {
    if rows != [] {
      var first, rest := rows[0], rows[1..];
      assert DerivedEpoch(slots, first);
      assert forall row :: row in rest ==> row in rows;
      if !first.SameKey(d) {
        UpsertKeepsDerived(slots, rest, d);
      }
      forall row | row in Upsert(rows, d) ensures DerivedEpoch(slots, row) {
        assert row == first || row == Updated(first, d) || row in rest || row in Upsert(rest, d);
      }
    }
  }

  lemma {:induction false} DerivedEpochsAgree(slots: nat, s: World, steps: seq<Step>)
    requires AllDerived(slots, s.rows) && AsCollected(steps)
    requires forall i :: 0 <= i < |steps| && steps[i].Save? ==> steps[i].slots == slots
    ensures AllAgree(s, steps)
    decreases |steps|
  {
    if steps != [] {
      if steps[0].Save? {
        RowForIsRow(s.rows, steps[0].data);
        UpsertKeepsDerived(slots, s.rows, steps[0].data);
      }
      DerivedEpochsAgree(slots, Apply(s, steps[0]), steps[1..]);
    }
  }

  /** So with committee and slots per epoch fixed, a stored 100 is never undone. */
  lemma {:induction false} FixedSlotsFreeze(c: Shape, first: seq<Step>, second: seq<Step>, e: int)
    requires AsCollected(first + second) && AllUse(c, first + second)
    requires forall i :: 0 <= i < |first + second| && (first + second)[i].Save? ==> (first + second)[i].slots == c.slots
    requires Frozen(Run(EMPTY, first).stats, e)
    ensures var s, t := Run(EMPTY, first), Run(EMPTY, first + second);
      Frozen(t.stats, e) && t.stats[e] == s.stats[e] && InEpoch(t.rows, e) == InEpoch(s.rows, e)
  {
    hide InEpoch, Run, DerivedEpoch;
    DerivedEpochsAgree(c.slots, EMPTY, first + second);
    FreezeIsAbsorbing(c, first, second, e);
  }

  // ---- a change of slots per epoch thaws ----

  lemma OneRow(row: Attestation, e: int)
    requires row.epoch == e
    ensures var t := TallyOf(ToSlotRecords(InEpoch([row], e)));
      && t.mined == (if row.status == CheckpointMined then 1 else 0)
        && t.proposed == (if row.status == CheckpointProposed then 1 else 0)
      && t.missed == (if row.status == CheckpointMissed then 1 else 0)
        && t.blocksMissed == (if row.status == BlocksMissed then 1 else 0)
    ensures Validators(ToSlotRecords(InEpoch([row], e))) == {row.validator}
  {
    InEpochOne(row, e);
    var record := SlotRecord(row.slot, row.status, Some(row.validator));
    assert ToSlotRecords([row]) == [record];
    forall status ensures Count([record], status) == if record.status == status then 1 else 0 {
      assert [record][..0] == [];
    }
    assert record in [record];
  }

  /**
   For a committee of one: a single block record earns 100 in an epoch of one slot, a missed
   attestation never does.
   */
  lemma OneRowScore(row: Attestation, e: int, slots: nat)
    requires row.epoch == e && slots > 0
    ensures row.status == CheckpointMined && slots == 1 ==> EpochAnalysis([row], e, 1, slots).score == 100
    ensures row.status == AttestationMissed ==> EpochAnalysis([row], e, 1, slots).score != 100
  {
    OneRow(row, e);
    var t := TallyOf(ToSlotRecords(InEpoch([row], e)));
    hide TallyOf, InEpoch, Score, Validators;
    ValidIff(t, 1, 1, slots);
  }

  /** The slots per epoch used when the rollup contract cannot be read. */
  const FALLBACK_SLOTS: nat := 32

  /**
   Without fixed slots per epoch the freeze can be undone, with every save as the
   collector makes it: slot 1 is epoch 1 while an epoch has one slot, and epoch 0 when
   the fallback of 32 slots is in use.  The second save changes the row of epoch 1 while
   its stored score is 100, and the score falls when the epoch is analyzed again.
   */
  lemma FreezeCanBreak()
    ensures exists first: seq<Step>, save: Step, again: Step ::
      && AsCollected(first + [save, again])
      && Frozen(Run(EMPTY, first).stats, 1)
      && Frozen(Run(EMPTY, first + [save]).stats, 1)
      && InEpoch(Run(EMPTY, first + [save]).rows, 1) != InEpoch(Run(EMPTY, first).rows, 1)
      && !Frozen(Run(EMPTY, first + [save, again]).stats, 1)
  {
    hide *;
    var mined, missed := Attestation(1, 1, 1, CheckpointMined, 0, 0), Attestation(1, 1, 0, AttestationMissed, 0, 0);
    CollectedExample(mined, missed);
    MinedThenMissed(mined, missed, 1, FALLBACK_SLOTS);
  }

  lemma CollectedExample(a: Attestation, b: Attestation)
    requires a.slot == 1 && a.epoch == 1 && b.slot == 1 && b.epoch == 0
    ensures FALLBACK_SLOTS == 32
    ensures AsCollected([Save(a, 1), Analyze(1, Shape(1, 1))]
      + [Save(b, FALLBACK_SLOTS), Analyze(1, Shape(1, FALLBACK_SLOTS))])
  {
  }

  lemma {:induction false} MinedThenMissed(a: Attestation, b: Attestation, e: int, slots: nat)
    requires slots > 0 && a.epoch == e && b.epoch != e && b.slot == a.slot && b.validator == a.validator
    requires a.status == CheckpointMined && b.status == AttestationMissed
    ensures var first, save, again :=
      [Save(a, 1), Analyze(e, Shape(1, 1))], Save(b, slots), Analyze(e, Shape(1, slots));
      && Frozen(Run(EMPTY, first).stats, e)
      && Frozen(Run(EMPTY, first + [save]).stats, e)
      && InEpoch(Run(EMPTY, first + [save]).rows, e) != InEpoch(Run(EMPTY, first).rows, e)
      && !Frozen(Run(EMPTY, first + [save, again]).stats, e)
  {
    hide EpochAnalysis, Run, Upsert, InEpoch;
    OneRowScore(a, e, 1);
    OneRowScore(Updated(a, b), e, slots);
    InEpochOne(a, e);
    InEpochOne(Updated(a, b), e);
    SaveThenSave(a, b, e, slots);
  }

  /** The states of the run that saves one row, analyzes, saves the row again under another epoch and analyzes again. */
  lemma SaveThenSave(a: Attestation, b: Attestation, e: int, slots: nat)
    requires b.epoch != e && b.SameKey(a)
    ensures var first, save, again :=
      [Save(a, 1), Analyze(e, Shape(1, 1))], Save(b, slots), Analyze(e, Shape(1, slots));
      && Run(EMPTY, first) == World([a], map[e := EpochAnalysis([a], e, 1, 1)], [])
      && Run(EMPTY, first + [save]) == World([Updated(a, b)], map[e := EpochAnalysis([a], e, 1, 1)], [])
      && Run(EMPTY, first + [save, again])
        == World([Updated(a, b)], map[e := EpochAnalysis([Updated(a, b)], e, 1, slots)], [])
  {
    hide *;
    var first, save, again := [Save(a, 1), Analyze(e, Shape(1, 1))], Save(b, slots), Analyze(e, Shape(1, slots));
    var s := World([a], map[e := EpochAnalysis([a], e, 1, 1)], []);
    SaveFirst(a, e);
    SaveAgain(s, a, b, e, slots);
    RunInTwo(EMPTY, first, [save]);
    RunInTwo(EMPTY, first, [save, again]);
  }

  lemma SaveFirst(a: Attestation, e: int)
    ensures Run(EMPTY, [Save(a, 1), Analyze(e, Shape(1, 1))]) == World([a], map[e := EpochAnalysis([a], e, 1, 1)], [])
  {
    assert Upsert([], a) == [a];
    hide *;
    ApplySave(EMPTY, a, 1);
    ApplyAnalyze(World([a], map[], []), e, Shape(1, 1));
    RunTwo(EMPTY, Save(a, 1), Analyze(e, Shape(1, 1)));
  }

  lemma {:induction false} SaveAgain(s: World, a: Attestation, b: Attestation, e: int, slots: nat)
    requires s.rows == [a] && b.SameKey(a) && b.epoch !in s.stats
    ensures Run(s, [Save(b, slots)]) == s.(rows := [Updated(a, b)])
    ensures Run(s, [Save(b, slots), Analyze(e, Shape(1, slots))])
      == World([Updated(a, b)], s.stats[e := EpochAnalysis([Updated(a, b)], e, 1, slots)], s.performance)
  {
    assert Upsert([a], b) == [Updated(a, b)];
    hide *;
    var save := Save(b, slots);
    ApplySave(s, b, slots);
    ApplyAnalyze(s.(rows := [Updated(a, b)]), e, Shape(1, slots));
    RunOne(s, save, []);
    RunTwo(s, save, Analyze(e, Shape(1, slots)));
    assert [save] + [] == [save];
    RunNothing(Apply(s, save));
  }

  lemma {:induction false} ApplySave(s: World, d: Attestation, slots: nat)
    requires d.epoch !in s.stats
    ensures Apply(s, Save(d, slots)) == World(Upsert(s.rows, d), s.stats, s.performance)
    ensures EMPTY == World([], map[], [])
  {
    hide Upsert;
  }

  lemma ApplyAnalyze(s: World, e: int, c: Shape)
    ensures Apply(s, Analyze(e, c))
      == World(s.rows, s.stats[e := EpochAnalysis(s.rows, e, c.committee, c.slots)], s.performance)
  {
    hide EpochAnalysis;
  }

  lemma {:induction false} RunTwo(s: World, a: Step, b: Step)
    ensures Run(s, [a, b]) == Apply(Apply(s, a), b)
  {
    RunOne(s, a, [b]);
    RunOne(Apply(s, a), b, []);
    hide Apply;
    assert [a] + [b] == [a, b] && [b] + [] == [b];
  }

  lemma RunNothing(s: World)
    ensures Run(s, []) == s
  {
  }

  lemma {:induction false} RunOne(s: World, step: Step, rest: seq<Step>)
    ensures Run(s, [step] + rest) == Run(Apply(s, step), rest)
  {
    hide Apply;
    assert ([step] + rest)[1..] == rest;
  }

  // ---- every reachable state can be repaired ----

  lemma {:induction false} ValidatorsFront(first: Attestation, rest: seq<Attestation>, e: int)
    ensures ValidatorsOf(InEpoch([first] + rest, e)) == ValidatorsOf(InEpoch(rest, e)) + if first.epoch == e
      then {first.validator} else {}
  {
    InEpochFront(first, rest, e);
    InEpochOne(first, e);
    var all, tail := InEpoch([first] + rest, e), InEpoch(rest, e);
    hide InEpoch;
    assert forall row :: row in tail ==> row in all;
    assert forall row :: row in all ==> row in tail || row == first;
    if first.epoch == e {
      assert first in all;
    }
  }

  /** A save never takes a validator out of an epoch. */
  lemma {:induction false} UpsertKeepsValidators(rows: seq<Attestation>, d: Attestation, e: int)
    ensures ValidatorsOf(InEpoch(rows, e)) <= ValidatorsOf(InEpoch(Upsert(rows, d), e))
  {
    if rows != [] {
      var first, rest := rows[0], rows[1..];
      assert rows == [first] + rest;
      ValidatorsFront(first, rest, e);
      if first.SameKey(d) {
        ValidatorsFront(Updated(first, d), rest, e);
      } else {
        UpsertKeepsValidators(rest, d, e);
        ValidatorsFront(first, Upsert(rest, d), e);
      }
    }
  }

  lemma {:induction false} NoRowsNoTally(rows: seq<Attestation>, v: nat)
    requires v !in ValidatorsOf(rows)
    ensures OfValidators(rows, {v}) == []
  {
    if rows != [] {
      var before, last := rows[..|rows| - 1], rows[|rows| - 1];
      assert last in rows;
      assert forall row :: row in before ==> row in rows;
      NoRowsNoTally(before, v);
    }
  }

  lemma StepKeepsBacked(s: World, step: Step)
    requires UniqueKeys(s.performance) && Backed(s.rows, s.performance)
    ensures var t := Apply(s, step); UniqueKeys(t.performance) && Backed(t.rows, t.performance)
  {
    hide InEpoch, ValidatorsOf, UniqueKeys, Upsert, UpsertPerformance;
    match step {
      case Save(d, _) =>
        forall p | p in s.performance ensures p.validator in ValidatorsOf(InEpoch(Upsert(s.rows, d), p.epoch))
          || p.tally == ZERO {
          UpsertKeepsValidators(s.rows, d, p.epoch);
        }
      case Recount(e, v) =>
        UpsertedRows(s.performance, PerformanceOf(s.rows, e, v));
        if v !in ValidatorsOf(InEpoch(s.rows, e)) {
          NoRowsNoTally(InEpoch(s.rows, e), v);
        }
      case Analyze(_, _) =>
    }
  }

  /** In every reachable state the condition of the repair pass holds, so its totals are exact. */
  lemma {:induction false} AlwaysRepairable(s: World, steps: seq<Step>)
    requires UniqueKeys(s.performance) && Backed(s.rows, s.performance)
    ensures var t := Run(s, steps); UniqueKeys(t.performance) && Backed(t.rows, t.performance)
    decreases |steps|
  {
    hide UniqueKeys, Backed, Apply;
    if steps != [] {
      StepKeepsBacked(s, steps[0]);
      AlwaysRepairable(Apply(s, steps[0]), steps[1..]);
    }
  }
}
