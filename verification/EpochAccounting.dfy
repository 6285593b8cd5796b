/**
 Attestation rows, the stored integrity score that freezes an epoch, and the two
 levels of aggregation above the rows: per validator and epoch, then per epoch.
 */
module EpochAccounting {
  import opened Wrappers
  import opened EpochIntegrity

  /** A row; (slot, validator) is its key.  stamp and index are its timestamp and committee index. */
  datatype Attestation = Attestation(slot: int, validator: nat, epoch: int, status: Status, stamp: nat, index: nat) {
    predicate SameKey(that: Attestation) {
      slot == that.slot && validator == that.validator
    }
  }

  datatype Performance = Performance(epoch: int, validator: nat, tally: Tally) {
    predicate SameKey(that: Performance) {
      epoch == that.epoch && validator == that.validator
    }
  }

  /** An epoch's aggregates; tally holds the six totals per status. */
  datatype Totals = Totals(actualProposals: nat, missedProposals: nat, attestationsExpected: nat, tally: Tally)

  const NO_TOTALS := Totals(0, 0, 0, ZERO)

  // ---- queries ----

  function InEpoch(rows: seq<Attestation>, e: int): seq<Attestation> {
    if rows == [] then []
    else InEpoch(rows[..|rows| - 1], e) + if rows[|rows| - 1].epoch == e then [rows[|rows| - 1]] else []
  }

  function OfValidators(rows: seq<Attestation>, validators: set<nat>): seq<Attestation> {
    if rows == [] then []
    else
      var last := rows[|rows| - 1];
      OfValidators(rows[..|rows| - 1], validators) + if last.validator in validators then [last] else []
  }

  function ToSlotRecords(rows: seq<Attestation>): seq<SlotRecord> {
    seq(|rows|, i requires 0 <= i < |rows| => SlotRecord(rows[i].slot, rows[i].status, Some(rows[i].validator)))
  }

  function RowTally(rows: seq<Attestation>): Tally {
    TallyOf(ToSlotRecords(rows))
  }

  function EpochAnalysis(rows: seq<Attestation>, e: int, committee: nat, slots: nat): Analysis {
    AnalysisOf(ToSlotRecords(InEpoch(rows, e)), committee, slots)
  }

  /** The performance of a validator in an epoch, counted from its rows. */
  function PerformanceOf(rows: seq<Attestation>, e: int, v: nat): Performance {
    Performance(e, v, RowTally(OfValidators(InEpoch(rows, e), {v})))
  }

  function PerformanceIn(performance: seq<Performance>, e: int): seq<Performance> {
    if performance == [] then []
    else
      var last := performance[|performance| - 1];
      PerformanceIn(performance[..|performance| - 1], e) + if last.epoch == e then [last] else []
  }

  function Sum(records: seq<Performance>): Tally {
    if records == [] then ZERO else Sum(records[..|records| - 1]).Plus(records[|records| - 1].tally)
  }

  function TotalsOf(t: Tally): Totals {
    Totals(t.proposed, t.missed + t.blocksMissed, t.unsent + t.sent, t)
  }

  // ---- upserts ----

  /** On a key that is taken only status, stamp and index are updated: the row keeps its epoch. */
  function Upsert(rows: seq<Attestation>, d: Attestation): seq<Attestation> {
    if rows == [] then [d]
    else if rows[0].SameKey(d) then [rows[0].(status := d.status, stamp := d.stamp, index := d.index)] + rows[1..]
    else [rows[0]] + Upsert(rows[1..], d)
  }

  function UpsertPerformance(performance: seq<Performance>, p: Performance): seq<Performance> {
    if performance == [] then [p]
    else if performance[0].SameKey(p) then [p] + performance[1..]
    else [performance[0]] + UpsertPerformance(performance[1..], p)
  }

  lemma {:induction false} UpsertAt(rows: seq<Attestation>, d: Attestation, i: nat)
    requires i <= |rows| && forall k :: 0 <= k < i ==> !rows[k].SameKey(d)
    requires i < |rows| ==> rows[i].SameKey(d)
    ensures Upsert(rows, d) == if i == |rows| then rows + [d]
      else rows[i := rows[i].(status := d.status, stamp := d.stamp, index := d.index)]
  {
    if i > 0 {
      UpsertAt(rows[1..], d, i - 1);
      assert rows == [rows[0]] + rows[1..];
    }
  }

  /**
   What a save does to the rows, position by position: the first row with the slot and the validator
   takes the new status, stamp and index and keeps its epoch; without one the row is added at the
   end; every other row stays.
   */
  lemma {:induction false} UpsertMeans(rows: seq<Attestation>, d: Attestation, i: nat)
    requires i < |rows|
    ensures var after := Upsert(rows, d);
      var earlier := exists j :: 0 <= j < i && rows[j].slot == d.slot && rows[j].validator == d.validator;
      && |after| >= |rows|
      && (if rows[i].slot == d.slot && rows[i].validator == d.validator && !earlier
          then after[i] == Attestation(rows[i].slot, rows[i].validator, rows[i].epoch, d.status, d.stamp, d.index)
          else after[i] == rows[i])
      && (if forall row :: row in rows ==> row.slot != d.slot || row.validator != d.validator
          then after == rows + [d] else |after| == |rows|)
  {
    var k := FirstAt(rows, d, 0);
    UpsertAt(rows, d, k);
    if k < |rows| {
      assert rows[k] in rows;
    } else {
      forall row | row in rows ensures !row.SameKey(d) {
        var j :| 0 <= j < |rows| && rows[j] == row;
      }
    }
  }

  lemma {:induction false} FirstAt(rows: seq<Attestation>, d: Attestation, from: nat) returns (k: nat)
    requires from <= |rows| && forall j :: 0 <= j < from ==> !rows[j].SameKey(d)
    ensures k <= |rows| && (forall j :: 0 <= j < k ==> !rows[j].SameKey(d)) && (k < |rows| ==> rows[k].SameKey(d))
    decreases |rows| - from
  {
    k := from;
    if from < |rows| && !rows[from].SameKey(d) {
      k := FirstAt(rows, d, from + 1);
    }
  }

  lemma {:induction false} UpsertPerformanceAt(performance: seq<Performance>, p: Performance, i: nat)
    requires i <= |performance| && forall k :: 0 <= k < i ==> !performance[k].SameKey(p)
    requires i < |performance| ==> performance[i].SameKey(p)
    ensures UpsertPerformance(performance, p) == if i == |performance| then performance + [p] else performance[i := p]
  {
    if i > 0 {
      UpsertPerformanceAt(performance[1..], p, i - 1);
      assert performance == [performance[0]] + performance[1..];
    }
  }

  ghost predicate Frozen(stats: map<int, Analysis>, e: int) {
    e in stats && stats[e].score == 100
  }

  class EpochStore {
    var attestations: seq<Attestation>
    var stats: map<int, Analysis>
    var performance: seq<Performance>
    var epochs: map<int, Totals>

    constructor ()
      ensures attestations == [] && stats == map[] && performance == [] && epochs == map[]
    {
      attestations, stats, performance, epochs := [], map[], [], map[];
    }

    method EnsureEpochExists(e: int)
      modifies this`epochs
      ensures epochs ==
        if e in old(epochs) then old(epochs) else old(epochs)[e := Totals(0, 0, 0, Tally(0, 0, 0, 0, 0, 0))]
    {
      if e !in epochs {
        epochs := epochs[e := NO_TOTALS];
      }
    }

    /** Skipped when the epoch the data names has a score of 100. */
    method SaveValidatorAttestation(d: Attestation)
      modifies this`attestations
      ensures attestations == if Frozen(stats, d.epoch) then old(attestations) else Upsert(old(attestations), d)
    {
      if d.epoch in stats && stats[d.epoch].score == 100 {
        return;
      }
      var i := 0;
      while i < |attestations| && !attestations[i].SameKey(d)
        invariant i <= |attestations| && forall k :: 0 <= k < i ==> !attestations[k].SameKey(d)
      {
        i := i + 1;
      }
      UpsertAt(attestations, d, i);
      if i == |attestations| {
        attestations := attestations + [d];
      } else {
        attestations := attestations[i := attestations[i].(status := d.status, stamp := d.stamp, index := d.index)];
      }
    }

    method AnalyzeAndSave(e: int, committee: nat, slots: nat) returns (hasIssues: bool)
      modifies this`stats
      ensures stats == old(stats)[e := EpochAnalysis(attestations, e, committee, slots)]
      ensures hasIssues <==> stats[e].score != 100
    {
      hide Score, Count, Validators, InEpoch, ToSlotRecords, EmptyValidators;
      var analysis := AnalyzeEpochIntegrity(ToSlotRecords(InEpoch(attestations, e)), committee, slots);
      stats := stats[e := analysis];
      hasIssues := analysis.verdict != Valid;
    }

    /** Recount one validator's rows of an epoch and store the counts. */
    method UpdateValidatorEpochPerformance(e: int, v: nat)
      modifies this`performance
      ensures performance == UpsertPerformance(old(performance), PerformanceOf(attestations, e, v))
    {
      var t := CountRows(OfValidators(InEpoch(attestations, e), {v}));
      var p := Performance(e, v, t);
      var i := 0;
      while i < |performance| && !performance[i].SameKey(p)
        invariant i <= |performance| && forall k :: 0 <= k < i ==> !performance[k].SameKey(p)
      {
        i := i + 1;
      }
      UpsertPerformanceAt(performance, p, i);
      if i == |performance| {
        performance := performance + [p];
      } else {
        performance := performance[i := p];
      }
    }

    /** Sum the performance rows of an epoch; with rows but no epoch record the update fails. */
    method UpdateEpochAggregates(e: int) returns (ok: bool)
      modifies this`epochs
      ensures ok <==> PerformanceIn(performance, e) == [] || e in old(epochs)
      ensures var records := PerformanceIn(performance, e);
        epochs == if !ok then old(epochs)
          else if records == [] then old(epochs)[e := Totals(0, 0, 0, Tally(0, 0, 0, 0, 0, 0))]
          else old(epochs)[e := TotalsOf(Sum(records))]
      ensures var records := PerformanceIn(performance, e);
        ok && records != [] ==>
          var sum := Sum(records);
          && epochs[e].tally == sum && epochs[e].actualProposals == sum.proposed
          && epochs[e].missedProposals == sum.missed + sum.blocksMissed
          && epochs[e].attestationsExpected == sum.sent + sum.unsent
    {
      var records := PerformanceIn(performance, e);
      if |records| == 0 {
        epochs := epochs[e := NO_TOTALS];
        return true;
      }
      var t := SumPerformance(records);
      if e !in epochs {
        return false;
      }
      epochs := epochs[e := t];
      ok := true;
    }

    /** Recompute one epoch: every validator with rows in it, then the aggregates; nothing when there are no rows. */
    method RepairEpoch(e: int)
      requires UniqueKeys(performance) && Backed(attestations, performance)
      modifies this`performance, this`epochs
      ensures UniqueKeys(performance) && Backed(attestations, performance)
      ensures InEpoch(attestations, e) == [] ==> performance == old(performance) && epochs == old(epochs)
      ensures InEpoch(attestations, e) != []
        ==> epochs == old(epochs)[e := TotalsOf(RowTally(InEpoch(attestations, e)))]
    {
      hide *;
      var validators := Grouped(InEpoch(attestations, e));
      GroupedEmpty(InEpoch(attestations, e));
      if |validators| == 0 {
        return;
      }
      EnsureEpochExists(e);
      UpdatePerformances(e, validators);
      RepairedPerformance(old(performance), attestations, e, validators);
      var _ := UpdateEpochAggregates(e);
    }

    method UpdatePerformances(e: int, validators: seq<nat>)
      modifies this`performance
      ensures performance == UpdateAll(old(performance), attestations, e, validators)
    {
      for i := 0 to |validators|
        invariant performance == UpdateAll(old(performance), attestations, e, validators[..i])
      {
        UpdateValidatorEpochPerformance(e, validators[i]);
        assert validators[..i + 1][..i] == validators[..i];
      }
      assert validators[..|validators|] == validators;
    }

    method RepairBatch(batch: seq<int>)
      requires UniqueKeys(performance) && Backed(attestations, performance)
      modifies this`performance, this`epochs
      ensures UniqueKeys(performance) && Backed(attestations, performance)
      ensures epochs == RepairedEpochs(old(epochs), attestations, batch)
    {
      for k := 0 to |batch|
        invariant UniqueKeys(performance) && Backed(attestations, performance)
        invariant epochs == RepairedEpochs(old(epochs), attestations, batch[..k])
      {
        RepairEpoch(batch[k]);
        assert batch[..k + 1][..k] == batch[..k];
      }
      assert batch[..|batch|] == batch;
    }

    /** One slice of the list, when the epochs before it are repaired. */
    method RepairSlice(list: seq<int>, i: nat, end: nat, ghost start: map<int, Totals>)
      requires i <= end <= |list| && epochs == RepairedEpochs(start, attestations, list[..i])
      requires UniqueKeys(performance) && Backed(attestations, performance)
      modifies this`performance, this`epochs
      ensures UniqueKeys(performance) && Backed(attestations, performance)
      ensures epochs == RepairedEpochs(start, attestations, list[..end])
    {
      hide *;
      RepairedAppend(start, attestations, list[..i], list[i..end]);
      assert list[..i] + list[i..end] == list[..end];
      RepairBatch(list[i..end]);
    }

    /** The repair pass: batches of epochs, each epoch in turn. */
    method CollectData(epochsToRepair: seq<int>, batchSize: nat)
      requires batchSize > 0 && UniqueKeys(performance) && Backed(attestations, performance)
      modifies this`performance, this`epochs
      ensures UniqueKeys(performance) && Backed(attestations, performance)
      ensures epochs == RepairedEpochs(old(epochs), attestations, epochsToRepair)
    {
      assert epochsToRepair[..0] == [] && epochsToRepair[..|epochsToRepair|] == epochsToRepair;
      var i := 0;
      while i < |epochsToRepair|
        invariant i <= |epochsToRepair|
        invariant UniqueKeys(performance) && Backed(attestations, performance)
        invariant epochs == RepairedEpochs(old(epochs), attestations, epochsToRepair[..i])
      {
        var end := if i + batchSize < |epochsToRepair| then i + batchSize else |epochsToRepair|;
        RepairSlice(epochsToRepair, i, end, old(epochs));
        i := end;
      }
    }
  }

  /** Every listed epoch with rows gets its flat totals. */
  function RepairedEpochs(epochs: map<int, Totals>, rows: seq<Attestation>, list: seq<int>): map<int, Totals> {
    if list == [] then epochs
    else
      var before, e := RepairedEpochs(epochs, rows, list[..|list| - 1]), list[|list| - 1];
      if InEpoch(rows, e) == [] then before else before[e := TotalsOf(RowTally(InEpoch(rows, e)))]
  }

  lemma {:induction false} RepairedAppend(epochs: map<int, Totals>, rows: seq<Attestation>, a: seq<int>, b: seq<int>)
    ensures RepairedEpochs(epochs, rows, a + b) == RepairedEpochs(RepairedEpochs(epochs, rows, a), rows, b)
    decreases |b|
  {
    hide InEpoch, RowTally, TotalsOf;
    if b == [] {
      assert a + b == a;
    } else {
      assert (a + b)[..|a + b| - 1] == a + b[..|b| - 1];
      RepairedAppend(epochs, rows, a, b[..|b| - 1]);
    }
  }

  method CountRows(rows: seq<Attestation>) returns (t: Tally)
    ensures t == RowTally(rows)
  {
    t := ZERO;
    for i := 0 to |rows|
      invariant t == RowTally(rows[..i])
    {
      RowTallyAppend(rows[..i], rows[i]);
      assert rows[..i + 1] == rows[..i] + [rows[i]];
      match rows[i].status {
        case AttestationSent => t := t.(sent := t.sent + 1);
        case AttestationMissed => t := t.(unsent := t.unsent + 1);
        case CheckpointProposed => t := t.(proposed := t.proposed + 1);
        case CheckpointMined => t := t.(mined := t.mined + 1);
        case CheckpointMissed => t := t.(missed := t.missed + 1);
        case BlocksMissed => t := t.(blocksMissed := t.blocksMissed + 1);
        case Other(_) =>
      }
    }
    assert rows[..|rows|] == rows;
  }

  lemma SumNext(records: seq<Performance>, i: nat)
    requires i < |records|
    ensures Sum(records[..i + 1]) == Sum(records[..i]).Plus(records[i].tally)
  {
    assert records[..i + 1][..i] == records[..i];
  }

  method SumPerformance(records: seq<Performance>) returns (t: Totals)
    requires records != []
    ensures t == TotalsOf(Sum(records))
    ensures var sum := Sum(records);
      && t.tally == sum && t.actualProposals == sum.proposed && t.missedProposals == sum.missed + sum.blocksMissed
      && t.attestationsExpected == sum.sent + sum.unsent
  {
    var actualProposals, missedProposals, expected, sums := 0, 0, 0, ZERO;
    for i := 0 to |records|
      invariant sums == Sum(records[..i])
      invariant actualProposals == sums.proposed && missedProposals == sums.missed + sums.blocksMissed
      invariant expected == sums.unsent + sums.sent
    {
      var p := records[i].tally;
      actualProposals := actualProposals + p.proposed;
      missedProposals := missedProposals + (p.missed + p.blocksMissed);
      expected := expected + (p.unsent + p.sent);
      sums := sums.Plus(p);
      SumNext(records, i);
    }
    assert records[..|records|] == records;
    t := Totals(actualProposals, missedProposals, expected, sums);
  }

  lemma RowTallyAppend(rows: seq<Attestation>, row: Attestation)
    ensures RowTally(rows + [row]) == RowTally(rows).Plus(TallyOf(ToSlotRecords([row])))
    ensures TallyOf(ToSlotRecords([row])) == Tally(
      if row.status == CheckpointMined then 1 else 0, if row.status == CheckpointProposed then 1 else 0,
      if row.status == CheckpointMissed then 1 else 0, if row.status == BlocksMissed then 1 else 0,
      if row.status == AttestationSent then 1 else 0, if row.status == AttestationMissed then 1 else 0)
  {
    var records, more := ToSlotRecords(rows), ToSlotRecords(rows + [row]);
    assert more[..|rows|] == records;
    var one := ToSlotRecords([row]);
    assert one[..0] == [];
    assert forall status :: Count(one, status) == if row.status == status then 1 else 0;
    assert forall status :: Count(more, status) == Count(records, status) + if row.status == status then 1 else 0;
  }

  // ---- two levels of aggregation against the flat count ----

  /** The count of one of the six statuses in a tally. */
  function Part(t: Tally, status: Status): nat {
    match status
    case CheckpointMined => t.mined
    case CheckpointProposed => t.proposed
    case CheckpointMissed => t.missed
    case BlocksMissed => t.blocksMissed
    case AttestationSent => t.sent
    case AttestationMissed => t.unsent
    case Other(_) => 0
  }

  function CountOf(rows: seq<Attestation>, status: Status): nat {
    Count(ToSlotRecords(rows), status)
  }

  lemma CountOfAppend(rows: seq<Attestation>, row: Attestation, status: Status)
    ensures CountOf(rows + [row], status) == CountOf(rows, status) + if row.status == status then 1 else 0
  {
    assert ToSlotRecords(rows + [row])[..|rows|] == ToSlotRecords(rows);
  }

  lemma SameParts(a: Tally, b: Tally)
    requires forall status: Status :: !status.Other? ==> Part(a, status) == Part(b, status)
    ensures a == b
  {
    assert Part(a, CheckpointMined) == Part(b, CheckpointMined)
      && Part(a, CheckpointProposed) == Part(b, CheckpointProposed);
    assert Part(a, CheckpointMissed) == Part(b, CheckpointMissed) && Part(a, BlocksMissed) == Part(b, BlocksMissed);
    assert Part(a, AttestationSent) == Part(b, AttestationSent)
      && Part(a, AttestationMissed) == Part(b, AttestationMissed);
  }

  function ValidatorsOf(rows: seq<Attestation>): set<nat> {
    set row | row in rows :: row.validator
  }

  function Keys(performance: seq<Performance>, e: int): set<nat> {
    set p | p in performance && p.epoch == e :: p.validator
  }

  ghost predicate UniqueKeys(performance: seq<Performance>) {
    forall i, j :: 0 <= i < j < |performance| ==> !performance[i].SameKey(performance[j])
  }

  /** Performance rows of an epoch for validators outside a set. */
  function Outside(performance: seq<Performance>, e: int, validators: set<nat>): seq<Performance> {
    if performance == [] then []
    else
      var last := performance[|performance| - 1];
      Outside(performance[..|performance| - 1], e, validators)
        + if last.epoch == e && last.validator !in validators then [last] else []
  }

  /** Update the performance of several validators, one after the other. */
  function UpdateAll(performance: seq<Performance>, rows: seq<Attestation>, e: int,
      validators: seq<nat>): seq<Performance>
    decreases |validators|
  {
    if validators == [] then performance
    else
      UpsertPerformance(UpdateAll(performance, rows, e, validators[..|validators| - 1]),
        PerformanceOf(rows, e, validators[|validators| - 1]))
  }

  lemma {:induction false} AddValidator(rows: seq<Attestation>, some: set<nat>, v: nat, status: Status)
    requires v !in some
    ensures CountOf(OfValidators(rows, some + {v}), status)
      == CountOf(OfValidators(rows, some), status) + CountOf(OfValidators(rows, {v}), status)
  {
    if rows != [] {
      var before, last := rows[..|rows| - 1], rows[|rows| - 1];
      AddValidator(before, some, v, status);
      CountOfAppend(OfValidators(before, some + {v}), last, status);
      CountOfAppend(OfValidators(before, some), last, status);
      CountOfAppend(OfValidators(before, {v}), last, status);
      hide CountOf;
      assert OfValidators(before, some) + [] == OfValidators(before, some);
      assert OfValidators(before, {v}) + [] == OfValidators(before, {v});
      assert OfValidators(before, some + {v}) + [] == OfValidators(before, some + {v});
    }
  }

  lemma {:induction false} AllValidators(rows: seq<Attestation>, some: set<nat>)
    requires ValidatorsOf(rows) <= some
    ensures OfValidators(rows, some) == rows
  {
    if rows != [] {
      var before, last := rows[..|rows| - 1], rows[|rows| - 1];
      assert last.validator in ValidatorsOf(rows);
      forall v | v in ValidatorsOf(before) ensures v in some {
        var row :| row in before && row.validator == v;
        assert row in rows;
      }
      AllValidators(before, some);
      assert rows == before + [last];
    }
  }

  lemma {:induction false} NoValidators(rows: seq<Attestation>)
    ensures OfValidators(rows, {}) == []
  {
    if rows != [] {
      NoValidators(rows[..|rows| - 1]);
    }
  }

  lemma SumAppend(records: seq<Performance>, p: Performance, status: Status)
    requires !status.Other?
    ensures Part(Sum(records + [p]), status) == Part(Sum(records), status) + Part(p.tally, status)
  {
    assert (records + [p])[..|records|] == records;
  }

  lemma RowTallyPart(rows: seq<Attestation>, status: Status)
    requires !status.Other?
    ensures Part(RowTally(rows), status) == CountOf(rows, status)
  {
  }

  ghost predicate UpToDate(performance: seq<Performance>, rows: seq<Attestation>, e: int, some: set<nat>) {
    forall p :: p in performance && p.epoch == e && p.validator in some
      ==> p.tally == RowTally(OfValidators(rows, {p.validator}))
  }

  lemma {:induction false} SplitsNext(performance: seq<Performance>, rows: seq<Attestation>, e: int, some: set<nat>,
      status: Status)
    requires performance != [] && UniqueKeys(performance) && !status.Other?
    requires UpToDate(performance, rows, e, some)
    requires var before := performance[..|performance| - 1];
      Part(Sum(PerformanceIn(before, e)), status)
        == CountOf(OfValidators(rows, some * Keys(before, e)), status) + Part(Sum(Outside(before, e, some)), status)
    ensures Part(Sum(PerformanceIn(performance, e)), status)
      == CountOf(OfValidators(rows, some * Keys(performance, e)), status)
        + Part(Sum(Outside(performance, e, some)), status)
  {
    hide Sum, Part, CountOf, OfValidators, RowTally, Keys, PerformanceIn, Outside, UniqueKeys;
    var before, last := performance[..|performance| - 1], performance[|performance| - 1];
    assert performance == before + [last];
    KeysAppend(before, last, e);
    LastRow(performance, e, some);
    if last.epoch != e {
      assert Keys(performance, e) == Keys(before, e);
    } else {
      SumAppend(PerformanceIn(before, e), last, status);
      if last.validator in some {
        assert some * Keys(performance, e) == some * Keys(before, e) + {last.validator};
        LastKeyIsNew(performance, e);
        AddValidator(rows, some * Keys(before, e), last.validator, status);
        RowTallyPart(OfValidators(rows, {last.validator}), status);
      } else {
        SumAppend(Outside(before, e, some), last, status);
        assert some * Keys(performance, e) == some * Keys(before, e);
      }
    }
  }

  /**
   Over performance rows with unique keys that are up to date for a set of validators,
   the sum is the flat count of those validators' rows plus what the other rows hold.
   */
  lemma {:induction false} SumSplits(performance: seq<Performance>, rows: seq<Attestation>, e: int, some: set<nat>,
      status: Status)
    requires UniqueKeys(performance) && !status.Other? && UpToDate(performance, rows, e, some)
    ensures Part(Sum(PerformanceIn(performance, e)), status)
      == CountOf(OfValidators(rows, some * Keys(performance, e)), status)
        + Part(Sum(Outside(performance, e, some)), status)
  {
    if performance == [] {
      NoValidators(rows);
      assert some * Keys(performance, e) == {};
    } else {
      SumSplits(performance[..|performance| - 1], rows, e, some, status);
      SplitsNext(performance, rows, e, some, status);
    }
  }

  lemma LastRow(performance: seq<Performance>, e: int, some: set<nat>)
    requires performance != []
    ensures var before, last := performance[..|performance| - 1], performance[|performance| - 1];
      && PerformanceIn(performance, e)
        == (if last.epoch == e then PerformanceIn(before, e) + [last] else PerformanceIn(before, e))
      && Outside(performance, e, some)
           == if last.epoch == e && last.validator !in some then Outside(before, e, some) + [last]
             else Outside(before, e, some)
  {
  }

  lemma KeysAppend(performance: seq<Performance>, p: Performance, e: int)
    ensures Keys(performance + [p], e) == Keys(performance, e) + if p.epoch == e then {p.validator} else {}
  {
    forall v | v in Keys(performance, e) ensures v in Keys(performance + [p], e) {
      var q :| q in performance && q.epoch == e && q.validator == v;
      assert q in performance + [p];
    }
    assert p in performance + [p];
  }

  lemma LastKeyIsNew(performance: seq<Performance>, e: int)
    requires performance != [] && UniqueKeys(performance) && performance[|performance| - 1].epoch == e
    ensures performance[|performance| - 1].validator !in Keys(performance[..|performance| - 1], e)
  {
  }

  lemma UniqueFront(first: Performance, rest: seq<Performance>)
    ensures UniqueKeys([first] + rest) <==> UniqueKeys(rest) && forall q :: q in rest ==> !first.SameKey(q)
  {
    var all := [first] + rest;
    assert forall i :: 0 <= i < |rest| ==> all[i + 1] == rest[i];
    if UniqueKeys(all) {
      forall i, j | 0 <= i < j < |rest| ensures !rest[i].SameKey(rest[j]) {
        assert !all[i + 1].SameKey(all[j + 1]);
      }
      forall q | q in rest ensures !first.SameKey(q) {
        var i :| 0 <= i < |rest| && rest[i] == q;
        assert !all[0].SameKey(all[i + 1]);
      }
    }
    if UniqueKeys(rest) && forall q :: q in rest ==> !first.SameKey(q) {
      forall i, j | 0 <= i < j < |all| ensures !all[i].SameKey(all[j]) {
        assert all[j] == rest[j - 1] && rest[j - 1] in rest;
        assert i > 0 ==> all[i] == rest[i - 1];
      }
    }
  }

  lemma {:induction false} UpsertedRows(performance: seq<Performance>, p: Performance)
    requires UniqueKeys(performance)
    ensures var after := UpsertPerformance(performance, p);
      && UniqueKeys(after) && p in after
      && (forall q :: q in after ==> q == p || (q in performance && !q.SameKey(p)))
      && (forall q :: q in performance ==> q.SameKey(p) || q in after)
  {
    if performance != [] {
      var first, rest := performance[0], performance[1..];
      assert performance == [first] + rest;
      UniqueFront(first, rest);
      if first.SameKey(p) {
        UniqueFront(p, rest);
      } else {
        UpsertedRows(rest, p);
        UniqueFront(first, UpsertPerformance(rest, p));
        hide UniqueKeys;
      }
    }
  }

  lemma {:induction false} OutsideFront(first: Performance, rest: seq<Performance>, e: int, some: set<nat>)
    ensures Outside([first] + rest, e, some) == Outside([first], e, some) + Outside(rest, e, some)
    decreases |rest|
  {
    if rest == [] {
      assert [first] + rest == [first];
    } else {
      var k := |rest| - 1;
      assert ([first] + rest)[..|rest|] == [first] + rest[..k];
      OutsideFront(first, rest[..k], e, some);
    }
  }

  /** Rows of other validators, and of other epochs, are left alone. */
  lemma {:induction false} OutsideUpsert(performance: seq<Performance>, p: Performance, e: int, some: set<nat>)
    requires p.epoch != e || p.validator in some
    ensures Outside(UpsertPerformance(performance, p), e, some) == Outside(performance, e, some)
  {
    assert Outside([p], e, some) == [];
    if performance != [] {
      var first, rest := performance[0], performance[1..];
      assert performance == [first] + rest;
      OutsideFront(first, rest, e, some);
      if first.SameKey(p) {
        OutsideFront(p, rest, e, some);
      } else {
        OutsideUpsert(rest, p, e, some);
        OutsideFront(first, UpsertPerformance(rest, p), e, some);
      }
    }
  }

  // ---- the repair pass ----

  /** Updating a list of validators: their rows are then up to date, all others untouched. */
  lemma {:induction false} UpdatedAll(performance: seq<Performance>, rows: seq<Attestation>, e: int,
      validators: seq<nat>)
    requires UniqueKeys(performance)
    ensures var after := UpdateAll(performance, rows, e, validators);
      && UniqueKeys(after)
      && (forall v :: v in validators ==> PerformanceOf(rows, e, v) in after)
      && (forall q :: q in after ==>
            || (q.epoch == e && q.validator in validators && q == PerformanceOf(rows, e, q.validator))
            || q in performance)
    decreases |validators|
  {
    if validators != [] {
      var k := |validators| - 1;
      var before, p := UpdateAll(performance, rows, e, validators[..k]), PerformanceOf(rows, e, validators[k]);
      UpdatedAll(performance, rows, e, validators[..k]);
      UpsertedRows(before, p);
      var after := UpdateAll(performance, rows, e, validators);
      hide UpdateAll, UniqueKeys, UpsertPerformance, OfValidators, InEpoch, RowTally;
      assert after == UpsertPerformance(before, p);
      forall v | v in validators ensures PerformanceOf(rows, e, v) in after {
        assert v == validators[k] || v in validators[..k];
      }
    }
  }

  lemma {:induction false} UpdateAllOutside(performance: seq<Performance>, rows: seq<Attestation>, e: int,
      validators: seq<nat>,
                                            other: int, some: set<nat>)
    requires other != e || forall v :: v in validators ==> v in some
    ensures Outside(UpdateAll(performance, rows, e, validators), other, some) == Outside(performance, other, some)
    decreases |validators|
  {
    if validators != [] {
      var k := |validators| - 1;
      UpdateAllOutside(performance, rows, e, validators[..k], other, some);
      var before := UpdateAll(performance, rows, e, validators[..k]);
      OutsideUpsert(before, PerformanceOf(rows, e, validators[k]), other, some);
    }
  }

  /**
   After the performance of every validator with rows in the epoch has been updated,
   each of the six sums is the flat count plus what is left in performance rows of
   validators without rows.
   */
  lemma {:induction false} SumAfterUpdate(performance: seq<Performance>, rows: seq<Attestation>, e: int,
      validators: seq<nat>, status: Status)
    requires UniqueKeys(performance) && !status.Other?
    requires forall v :: v in validators <==> v in ValidatorsOf(InEpoch(rows, e))
    ensures Part(Sum(PerformanceIn(UpdateAll(performance, rows, e, validators), e)), status)
      == CountOf(InEpoch(rows, e), status) + Part(Sum(Outside(performance, e, ValidatorsOf(InEpoch(rows, e)))), status)
  {
    hide Sum, Part, CountOf, OfValidators, RowTally, Outside, PerformanceIn, InEpoch, ValidatorsOf, UniqueKeys,
      UpdateAll;
    var after, mine := UpdateAll(performance, rows, e, validators), InEpoch(rows, e);
    var some := ValidatorsOf(mine);
    UpdatedAll(performance, rows, e, validators);
    UpdateAllOutside(performance, rows, e, validators, e, some);
    forall p | p in after && p.epoch == e && p.validator in some ensures p == PerformanceOf(rows, e, p.validator) {
      SameKeySameRow(after, p, PerformanceOf(rows, e, p.validator));
    }
    SumSplits(after, mine, e, some, status);
    assert some * Keys(after, e) == some by {
      forall v | v in some ensures v in Keys(after, e) {
        assert PerformanceOf(rows, e, v) in after;
      }
    }
    AllValidators(mine, some);
  }

  lemma SameKeySameRow(performance: seq<Performance>, p: Performance, q: Performance)
    requires UniqueKeys(performance) && p in performance && q in performance && p.SameKey(q)
    ensures p == q
  {
  }

  /** Nothing is counted for a validator that has no row in the epoch. */
  ghost predicate Backed(rows: seq<Attestation>, performance: seq<Performance>) {
    forall p :: p in performance ==> p.validator in ValidatorsOf(InEpoch(rows, p.epoch)) || p.tally == ZERO
  }

  lemma {:induction false} OutsideMembers(performance: seq<Performance>, e: int, some: set<nat>)
    ensures forall p :: p in Outside(performance, e, some) ==> p in performance && p.epoch == e && p.validator !in some
  {
    if performance != [] {
      OutsideMembers(performance[..|performance| - 1], e, some);
    }
  }

  lemma {:induction false} SumOfZeros(records: seq<Performance>, status: Status)
    requires forall p :: p in records ==> p.tally == ZERO
    ensures Part(Sum(records), status) == 0
  {
    hide Part, Sum;
    if records == [] || status.Other? {
      NoSum(records, status);
    } else {
      var before, last := records[..|records| - 1], records[|records| - 1];
      assert records == before + [last];
      SumOfZeros(before, status);
      SumAppend(before, last, status);
      NoPart(status);
    }
  }

  lemma NoSum(records: seq<Performance>, status: Status)
    requires records == [] || status.Other?
    ensures Part(Sum(records), status) == 0
  {
  }

  lemma NoPart(status: Status)
    ensures Part(ZERO, status) == 0
  {
  }

  /**
   The two levels agree with the flat count: after a repair the six totals of the epoch
   are the six counts of its attestation rows.
   */
  lemma {:induction false} TotalsAreFlatCounts(performance: seq<Performance>, rows: seq<Attestation>, e: int,
      validators: seq<nat>)
    requires UniqueKeys(performance) && Backed(rows, performance)
    requires forall v :: v in validators <==> v in ValidatorsOf(InEpoch(rows, e))
    ensures Sum(PerformanceIn(UpdateAll(performance, rows, e, validators), e)) == RowTally(InEpoch(rows, e))
  {
    hide Sum, Part, CountOf, RowTally, InEpoch, ValidatorsOf, UpdateAll, PerformanceIn, UniqueKeys, Outside;
    var some := ValidatorsOf(InEpoch(rows, e));
    var left := Outside(performance, e, some);
    OutsideMembers(performance, e, some);
    var sum := Sum(PerformanceIn(UpdateAll(performance, rows, e, validators), e));
    forall status: Status | !status.Other? ensures Part(sum, status) == Part(RowTally(InEpoch(rows, e)), status) {
      SumAfterUpdate(performance, rows, e, validators, status);
      SumOfZeros(left, status);
      RowTallyPart(InEpoch(rows, e), status);
    }
    SameParts(sum, RowTally(InEpoch(rows, e)));
  }

  /** One entry per validator (GROUP BY). */
  function Grouped(rows: seq<Attestation>): (r: seq<nat>)
    ensures forall v :: v in r <==> v in ValidatorsOf(rows)
    ensures forall i, j :: 0 <= i < j < |r| ==> r[i] != r[j]
  {
    if rows == [] then []
    else
      var before, last := Grouped(rows[..|rows| - 1]), rows[|rows| - 1];
      assert rows == rows[..|rows| - 1] + [last];
      if last.validator in before then before else before + [last.validator]
  }

  lemma GroupedEmpty(rows: seq<Attestation>)
    ensures Grouped(rows) == [] <==> rows == []
    ensures forall v :: v in Grouped(rows) <==> v in ValidatorsOf(rows)
  {
    if rows != [] {
      assert rows[0].validator in ValidatorsOf(rows);
    }
  }

  lemma {:induction false} RepairedPerformance(performance: seq<Performance>, rows: seq<Attestation>, e: int,
      validators: seq<nat>)
    requires UniqueKeys(performance) && Backed(rows, performance) && validators != []
    requires forall v :: v in validators <==> v in ValidatorsOf(InEpoch(rows, e))
    ensures var after := UpdateAll(performance, rows, e, validators);
      && UniqueKeys(after) && Backed(rows, after)
      && PerformanceIn(after, e) != [] && Sum(PerformanceIn(after, e)) == RowTally(InEpoch(rows, e))
  {
    hide *;
    UpdateAllBacked(performance, rows, e, validators);
    UpdatedSome(performance, rows, e, validators);
    TotalsAreFlatCounts(performance, rows, e, validators);
  }

  /**
   What a repair pass leaves behind, epoch by epoch: for a listed epoch with rows the
   totals of the flat count, for any other epoch what was there.
   */
  lemma {:induction false} RepairPassExact(epochs: map<int, Totals>, rows: seq<Attestation>, list: seq<int>, e: int)
    ensures var after := RepairedEpochs(epochs, rows, list);
      if e in list && InEpoch(rows, e) != [] then e in after && after[e] == TotalsOf(RowTally(InEpoch(rows, e)))
      else (e in after <==> e in epochs) && (e in epochs ==> after[e] == epochs[e])
  {
    hide TotalsOf, RowTally, InEpoch;
    if list != [] {
      var before, last := list[..|list| - 1], list[|list| - 1];
      RepairPassExact(epochs, rows, before, e);
      assert list == before + [last];
    }
  }

  // ---- the counts, row by row ----

  ghost function Places(rows: seq<Attestation>, e: int, status: Status): set<int> {
    set i | 0 <= i < |rows| && rows[i].epoch == e && rows[i].status == status
  }

  ghost function PlacesOf(rows: seq<Attestation>, e: int, v: nat, status: Status): set<int> {
    set i | 0 <= i < |rows| && rows[i].epoch == e && rows[i].status == status && rows[i].validator == v
  }

  /** How many rows of an epoch have a status. */
  ghost function Number(rows: seq<Attestation>, e: int, status: Status): nat {
    |Places(rows, e, status)|
  }

  /** How many of them are one validator's. */
  ghost function NumberOf(rows: seq<Attestation>, e: int, v: nat, status: Status): nat {
    |PlacesOf(rows, e, v, status)|
  }

  lemma {:induction false} NumberNext(rows: seq<Attestation>, e: int, status: Status)
    requires rows != []
    ensures var before, last := rows[..|rows| - 1], rows[|rows| - 1];
      Number(rows, e, status) == Number(before, e, status) + if last.epoch == e && last.status == status then 1 else 0
  {
    var k := |rows| - 1;
    OneMore(Places(rows[..k], e, status), Places(rows, e, status), k, rows[k].epoch == e && rows[k].status == status);
  }

  lemma {:induction false} NumberOfNext(rows: seq<Attestation>, e: int, v: nat, status: Status)
    requires rows != []
    ensures var before, last := rows[..|rows| - 1], rows[|rows| - 1];
      NumberOf(rows, e, v, status) == NumberOf(before, e, v, status)
        + if last.epoch == e && last.status == status && last.validator == v then 1 else 0
  {
    var k := |rows| - 1;
    OneMore(PlacesOf(rows[..k], e, v, status), PlacesOf(rows, e, v, status), k,
      rows[k].epoch == e && rows[k].status == status && rows[k].validator == v);
  }

  /** Counting the rows a query selects is counting rows of the table. */
  lemma {:induction false} QueriesCount(rows: seq<Attestation>, e: int, v: nat, status: Status)
    ensures CountOf(InEpoch(rows, e), status) == Number(rows, e, status)
    ensures CountOf(OfValidators(InEpoch(rows, e), {v}), status) == NumberOf(rows, e, v, status)
  {
    if rows != [] {
      var before, last := rows[..|rows| - 1], rows[|rows| - 1];
      QueriesCount(before, e, v, status);
      NumberNext(rows, e, status);
      NumberOfNext(rows, e, v, status);
      var mine := InEpoch(before, e);
      CountOfAppend(mine, last, status);
      CountOfAppend(OfValidators(mine, {v}), last, status);
      hide CountOf, Number, NumberOf;
      assert (mine + [last])[..|mine|] == mine && mine + [] == mine;
      assert OfValidators(mine, {v}) + [] == OfValidators(mine, {v});
    }
  }

  /** The performance that is stored for a validator holds the numbers of its own rows in the epoch. */
  lemma {:induction false} PerformanceCounts(rows: seq<Attestation>, e: int, v: nat)
    ensures var p := PerformanceOf(rows, e, v);
      && p.epoch == e && p.validator == v
      && p.tally.mined == NumberOf(rows, e, v, CheckpointMined)
      && p.tally.proposed == NumberOf(rows, e, v, CheckpointProposed)
      && p.tally.missed == NumberOf(rows, e, v, CheckpointMissed)
      && p.tally.blocksMissed == NumberOf(rows, e, v, BlocksMissed)
      && p.tally.sent == NumberOf(rows, e, v, AttestationSent)
      && p.tally.unsent == NumberOf(rows, e, v, AttestationMissed)
  {
    forall status ensures CountOf(OfValidators(InEpoch(rows, e), {v}), status) == NumberOf(rows, e, v, status) {
      QueriesCount(rows, e, v, status);
    }
    hide Number, NumberOf, InEpoch, OfValidators;
  }

  /** The stored analysis counts the rows of its epoch and scores those counts. */
  lemma {:induction false} AnalysisCounts(rows: seq<Attestation>, e: int, committee: nat, slots: nat)
    ensures var r := EpochAnalysis(rows, e, committee, slots);
      && r.tally == Tally(Number(rows, e, CheckpointMined), Number(rows, e, CheckpointProposed),
                          Number(rows, e, CheckpointMissed), Number(rows, e, BlocksMissed),
                          Number(rows, e, AttestationSent), Number(rows, e, AttestationMissed))
      && r.totalValidators == |set row | row in rows && row.epoch == e :: row.validator|
      && r.score == Score(r.tally, r.totalValidators, committee, slots)
      && r.verdict == VerdictOf(r.score)
  {
    var mine := InEpoch(rows, e);
    forall status ensures CountOf(mine, status) == Number(rows, e, status) {
      QueriesCount(rows, e, 0, status);
    }
    forall row: Attestation ensures row in mine <==> row in rows && row.epoch == e {
      InEpochHas(rows, e, row);
    }
    var records, there := ToSlotRecords(mine), set row | row in rows && row.epoch == e :: row.validator;
    forall v: nat ensures v in Validators(records) <==> v in there {
      if v in Validators(records) {
        var r :| r in records && r.validator == Some(v);
        var i :| 0 <= i < |records| && records[i] == r;
        assert mine[i] in mine;
      }
      if v in there {
        var row :| row in rows && row.epoch == e && row.validator == v;
        var i :| 0 <= i < |mine| && mine[i] == row;
        assert records[i] in records && records[i].validator == Some(v);
      }
    }
    assert Validators(records) == there;
    hide Number, InEpoch, Score, Validators, ToSlotRecords;
  }

  lemma {:induction false} InEpochHas(rows: seq<Attestation>, e: int, row: Attestation)
    ensures row in InEpoch(rows, e) <==> row in rows && row.epoch == e
  {
    if rows != [] {
      var before, last := rows[..|rows| - 1], rows[|rows| - 1];
      InEpochHas(before, e, row);
      assert rows == before + [last];
    }
  }

  /**
   The totals that a repair pass stores for a listed epoch with rows are the numbers of its
   rows: one per status, the proposed checkpoints as the proposals made, and the missed
   proposals and expected attestations as the two kinds of each together.
   */
  lemma {:induction false} RepairedTotals(epochs: map<int, Totals>, rows: seq<Attestation>, list: seq<int>, e: int)
    requires e in list && exists row :: row in rows && row.epoch == e
    ensures e in RepairedEpochs(epochs, rows, list)
    ensures var stored := RepairedEpochs(epochs, rows, list)[e];
      && stored.tally.mined == Number(rows, e, CheckpointMined)
      && stored.tally.proposed == Number(rows, e, CheckpointProposed)
      && stored.tally.missed == Number(rows, e, CheckpointMissed)
      && stored.tally.blocksMissed == Number(rows, e, BlocksMissed)
      && stored.tally.sent == Number(rows, e, AttestationSent)
      && stored.tally.unsent == Number(rows, e, AttestationMissed)
      && stored.actualProposals == Number(rows, e, CheckpointProposed)
      && stored.missedProposals == Number(rows, e, CheckpointMissed) + Number(rows, e, BlocksMissed)
      && stored.attestationsExpected == Number(rows, e, AttestationSent) + Number(rows, e, AttestationMissed)
  {
    var row :| row in rows && row.epoch == e;
    InEpochHas(rows, e, row);
    RepairPassExact(epochs, rows, list, e);
    forall status ensures CountOf(InEpoch(rows, e), status) == Number(rows, e, status) {
      QueriesCount(rows, e, 0, status);
    }
    hide Number, InEpoch, RepairedEpochs;
  }

  /** The rows that carry one of the six statuses. */
  function Known(rows: seq<Attestation>): nat {
    if rows == [] then 0 else Known(rows[..|rows| - 1]) + if rows[|rows| - 1].status.Other? then 0 else 1
  }

  lemma {:induction false} TallyCovers(rows: seq<Attestation>)
    ensures var t := RowTally(rows); t.mined + t.proposed + t.missed + t.blocksMissed + t.sent + t.unsent == Known(rows)
  {
    if rows != [] {
      var before, last := rows[..|rows| - 1], rows[|rows| - 1];
      TallyCovers(before);
      assert rows == before + [last];
      RowTallyAppend(before, last);
      hide RowTally;
    }
  }

  /**
   Conservation: the totals a repair pass stores for a listed epoch count each of its rows
   with a known status exactly once, an attestation row among the expected attestations,
   a missed proposal of either kind among the missed ones.
   */
  lemma {:induction false} RepairedTotalsAddUp(epochs: map<int, Totals>, rows: seq<Attestation>, list: seq<int>, e: int)
    requires e in list && InEpoch(rows, e) != []
    ensures var after, mine := RepairedEpochs(epochs, rows, list), InEpoch(rows, e);
      && e in after
      && after[e].attestationsExpected == CountOf(mine, AttestationSent) + CountOf(mine, AttestationMissed)
      && after[e].missedProposals == CountOf(mine, CheckpointMissed) + CountOf(mine, BlocksMissed)
      && after[e].attestationsExpected + after[e].missedProposals + after[e].actualProposals + after[e].tally.mined
        == Known(mine)
  {
    hide InEpoch, Known, RepairedEpochs;
    RepairPassExact(epochs, rows, list, e);
    TallyCovers(InEpoch(rows, e));
  }

  lemma {:induction false} UpdateAllBacked(performance: seq<Performance>, rows: seq<Attestation>, e: int,
      validators: seq<nat>)
    requires UniqueKeys(performance) && Backed(rows, performance)
    requires forall v :: v in validators ==> v in ValidatorsOf(InEpoch(rows, e))
    ensures UniqueKeys(UpdateAll(performance, rows, e, validators))
      && Backed(rows, UpdateAll(performance, rows, e, validators))
  {
    UpdatedAll(performance, rows, e, validators);
    hide UniqueKeys, UpdateAll, InEpoch, ValidatorsOf;
  }

  lemma UpdatedSome(performance: seq<Performance>, rows: seq<Attestation>, e: int, validators: seq<nat>)
    requires UniqueKeys(performance) && validators != []
    ensures PerformanceIn(UpdateAll(performance, rows, e, validators), e) != []
  {
    UpdatedAll(performance, rows, e, validators);
    assert PerformanceOf(rows, e, validators[0]) in UpdateAll(performance, rows, e, validators);
    InHas(UpdateAll(performance, rows, e, validators), PerformanceOf(rows, e, validators[0]));
  }

  lemma {:induction false} InHas(performance: seq<Performance>, p: Performance)
    requires p in performance
    ensures p in PerformanceIn(performance, p.epoch)
  {
    var before, last := performance[..|performance| - 1], performance[|performance| - 1];
    assert performance == before + [last];
    if p != last {
      InHas(before, p);
    }
  }
}
