/**
 Integrity analysis of one epoch's slot records: counts per status, a score from
 0 to 100, and the verdict derived from it.  Exact rationals stand for the source's
 floating point.
 */
module EpochIntegrity {
  import opened Wrappers

  /** The six statuses that are counted; any other string is Other. */
  datatype Status =
    | CheckpointMined
    | CheckpointProposed
    | CheckpointMissed
    | BlocksMissed
    | AttestationSent
    | AttestationMissed
    | Other(name: nat)

  /** None stands for a missing or empty validator address. */
  datatype SlotRecord = SlotRecord(slot: int, status: Status, validator: Option<nat>)

  datatype Tally = Tally(mined: nat, proposed: nat, missed: nat, blocksMissed: nat, sent: nat, unsent: nat) {
    function Plus(that: Tally): Tally {
      Tally(mined + that.mined, proposed + that.proposed, missed + that.missed,
            blocksMissed + that.blocksMissed, sent + that.sent, unsent + that.unsent)
    }

    function BlockRecords(): nat {
      mined + proposed + missed + blocksMissed
    }
  }

  const ZERO := Tally(0, 0, 0, 0, 0, 0)

  datatype Verdict = Valid | Warning | Partial | Invalid

  datatype Analysis = Analysis(totalValidators: nat, tally: Tally, emptyValidators: nat, score: int, verdict: Verdict)

  datatype Summary = Summary(totalSlots: nat, validatorsWithData: nat, tally: Tally)

  function Count(records: seq<SlotRecord>, status: Status): nat {
    if records == [] then 0
    else Count(records[..|records| - 1], status) + if records[|records| - 1].status == status then 1 else 0
  }

  function TallyOf(records: seq<SlotRecord>): Tally {
    Tally(Count(records, CheckpointMined), Count(records, CheckpointProposed), Count(records, CheckpointMissed),
          Count(records, BlocksMissed), Count(records, AttestationSent), Count(records, AttestationMissed))
  }

  /** The unique validators of the records that name one. */
  function Validators(records: seq<SlotRecord>): set<nat> {
    set r | r in records && r.validator.Some? :: r.validator.value
  }

  function Distance(a: int, b: int): (r: nat)
    ensures r == a - b || r == b - a
  {
    if a < b then b - a else a - b
  }

  /** Rule 2: block records missing or surplus. */
  function BlockShortfall(t: Tally, slots: nat): nat {
    Distance(t.BlockRecords(), slots)
  }

  /** Rule 3: attestation records missing or surplus, when any are expected. */
  function AttestationShortfall(t: Tally, committee: nat): nat {
    var expected := (t.mined + t.proposed) * (committee - 1);
    if expected > 0 then Distance(t.sent + t.unsent, expected) else 0
  }

  function EmptyValidators(validators: nat, committee: nat): nat {
    if committee > validators then committee - validators else 0
  }

  /** Rule 4: validators without a record, when no missed block explains them. */
  function UnexplainedEmpty(t: Tally, validators: nat, committee: nat): nat {
    if t.missed == 0 && t.blocksMissed == 0 then EmptyValidators(validators, committee) else 0
  }

  /** Rounding to the nearest integer, halves upwards. */
  function Round(x: real): int {
    (x + 0.5).Floor
  }

  function VerdictOf(score: int): Verdict {
    if score == 100 then Valid else if score >= 90 then Warning else if score >= 50 then Partial else Invalid
  }

  /** The points the four rules take away. */
  function Deducted(t: Tally, validators: nat, committee: nat, slots: nat): real
    requires slots > 0
  {
    (if validators > committee then 40.0 else 0.0)
    + Share(BlockShortfall(t, slots), slots) * 30.0
    + Share(AttestationShortfall(t, committee), slots * committee) * 25.0
    + Share(UnexplainedEmpty(t, validators, committee), committee) * 20.0
  }

  function Share(part: nat, whole: nat): real {
    if part == 0 || whole == 0 then 0.0 else part as real / whole as real
  }

  /**
   Division by zero slots gives minus infinity when there is a block record, and
   nothing to deduct for blocks when there is none.
   */
  function Score(t: Tally, validators: nat, committee: nat, slots: nat): int {
    if slots == 0 && t.BlockRecords() > 0 then 0
    else
      var points := 100.0 - (if slots == 0 then
          (if validators > committee then 40.0 else 0.0)
            + Share(UnexplainedEmpty(t, validators, committee), committee) * 20.0
        else Deducted(t, validators, committee, slots));
      if Round(points) > 0 then Round(points) else 0
  }

  function AnalysisOf(records: seq<SlotRecord>, committee: nat, slots: nat): Analysis {
    var t, validators := TallyOf(records), |Validators(records)|;
    var score := Score(t, validators, committee, slots);
    Analysis(validators, t, EmptyValidators(validators, committee), score, VerdictOf(score))
  }

  lemma CountNext(records: seq<SlotRecord>, i: nat, status: Status)
    requires i < |records|
    ensures Count(records[..i + 1], status)
      == Count(records[..i], status) + if records[i].status == status then 1 else 0
  {
    assert records[..i + 1][..i] == records[..i];
  }

  /** The number of records of each status. */
  method CountStatuses(records: seq<SlotRecord>) returns (statusCounts: map<Status, nat>)
    ensures forall status :: Get(statusCounts, status) == Count(records, status)
  {
    statusCounts := map[];
    for i := 0 to |records|
      invariant forall status :: Get(statusCounts, status) == Count(records[..i], status)
    {
      var status := records[i].status;
      ghost var next, before := records[..i + 1], statusCounts;
      forall other ensures Count(next, other) == Get(before, other) + if status == other then 1 else 0 {
        CountNext(records, i, other);
      }
      statusCounts := statusCounts[status := Get(statusCounts, status) + 1];
    }
    assert records[..|records|] == records;
  }

  lemma EmptyMeaning(validators: nat, committee: nat)
    ensures EmptyValidators(validators, committee) == if committee - validators > 0 then committee - validators else 0
  {
  }

  /** The status counts, then the rules in order, then the verdict. */
  method AnalyzeEpochIntegrity(records: seq<SlotRecord>, committee: nat, slots: nat) returns (r: Analysis)
    ensures r == AnalysisOf(records, committee, slots)
    ensures r.tally.mined == Count(records, CheckpointMined) && r.tally.proposed == Count(records, CheckpointProposed)
    ensures r.tally.missed == Count(records, CheckpointMissed) && r.tally.blocksMissed == Count(records, BlocksMissed)
    ensures r.tally.sent == Count(records, AttestationSent) && r.tally.unsent == Count(records, AttestationMissed)
    ensures r.totalValidators == |Validators(records)|
    ensures r.emptyValidators == if r.totalValidators < committee then committee - r.totalValidators else 0
  {
    hide Score, Count, Validators, EmptyValidators;
    EmptyMeaning(|Validators(records)|, committee);
    var totalValidators := |Validators(records)|;
    var counts := CountStatuses(records);
    var t := Tally(Get(counts, CheckpointMined), Get(counts, CheckpointProposed), Get(counts, CheckpointMissed),
                   Get(counts, BlocksMissed), Get(counts, AttestationSent), Get(counts, AttestationMissed));
    var score := ApplyRules(t, totalValidators, committee, slots);
    var emptyValidators := if committee - totalValidators > 0 then committee - totalValidators else 0;
    var verdict;
    if score == 100 {
      verdict := Valid;
    } else if score >= 90 {
      verdict := Warning;
    } else if score >= 50 {
      verdict := Partial;
    } else {
      verdict := Invalid;
    }
    r := Analysis(totalValidators, t, emptyValidators, score, verdict);
  }

  function Get(counts: map<Status, nat>, status: Status): nat {
    if status in counts then counts[status] else 0
  }

  method ApplyRules(t: Tally, totalValidators: nat, committee: nat, slots: nat) returns (integrityScore: int)
    ensures integrityScore == Score(t, totalValidators, committee, slots)
  {
    var score, unbounded := 100.0, false;
    if totalValidators > committee {
      score := score - 40.0;
    }
    var totalBlockRecords := t.mined + t.proposed + t.missed + t.blocksMissed;
    if totalBlockRecords != slots {
      if slots == 0 {
        unbounded := true;
      } else {
        score := score - (Distance(totalBlockRecords, slots) as real / slots as real) * 30.0;
      }
    }
    var totalAttestationRecords := t.sent + t.unsent;
    var expectedAttestations := (t.mined + t.proposed) * (committee - 1);
    if totalAttestationRecords != expectedAttestations && expectedAttestations > 0 {
      if slots == 0 {
        unbounded := true;
      } else {
        var maxDiff := slots * committee;
        assert committee > 1 by { PositiveProduct(t.mined + t.proposed, committee - 1); }
        assert maxDiff > 0 by { PositiveMeans(slots, committee); }
        score := score - (Distance(totalAttestationRecords, expectedAttestations) as real / maxDiff as real) * 25.0;
      }
    }
    var emptyValidators := if committee > totalValidators then committee - totalValidators else 0;
    if t.missed == 0 && t.blocksMissed == 0 && emptyValidators > 0 {
      score := score - (emptyValidators as real / committee as real) * 20.0;
    }
    integrityScore := if unbounded || Round(score) < 0 then 0 else Round(score);
  }

  lemma PositiveProduct(a: nat, b: int)
    requires a * b > 0
    ensures a > 0 && b > 0
  {
  }

  lemma PositiveMeans(a: nat, b: nat)
    requires a > 0 && b > 0
    ensures a * b > 0
  {
  }

  /** The per-epoch summary compared across sentinels: the same six counts in one pass. */
  method BuildEpochSummary(records: seq<SlotRecord>) returns (summary: Summary)
    ensures summary == Summary(|records|, |Validators(records)|, TallyOf(records))
    ensures var t := summary.tally;
      && t.mined == Count(records, CheckpointMined) && t.proposed == Count(records, CheckpointProposed)
      && t.missed == Count(records, CheckpointMissed) && t.blocksMissed == Count(records, BlocksMissed)
      && t.sent == Count(records, AttestationSent) && t.unsent == Count(records, AttestationMissed)
  {
    var t, totalSlots := ZERO, 0;
    var validators: set<nat> := {};
    for i := 0 to |records|
      invariant totalSlots == i && validators == Validators(records[..i]) && t == TallyOf(records[..i])
    {
      var record := records[i];
      ghost var next := records[..i + 1];
      assert next == records[..i] + [record];
      totalSlots := totalSlots + 1;
      if record.validator.Some? {
        validators := validators + {record.validator.value};
      }
      assert validators == Validators(next) by { ValidatorsAppend(records[..i], record); }
      match record.status {
        case AttestationSent => t := t.(sent := t.sent + 1);
        case AttestationMissed => t := t.(unsent := t.unsent + 1);
        case CheckpointMined => t := t.(mined := t.mined + 1);
        case CheckpointProposed => t := t.(proposed := t.proposed + 1);
        case CheckpointMissed => t := t.(missed := t.missed + 1);
        case BlocksMissed => t := t.(blocksMissed := t.blocksMissed + 1);
        case Other(_) =>
      }
      assert next[..i] == records[..i];
    }
    assert records[..|records|] == records;
    summary := Summary(totalSlots, |validators|, t);
  }

  lemma ValidatorsAppend(records: seq<SlotRecord>, r: SlotRecord)
    ensures Validators(records + [r]) == Validators(records) + if r.validator.Some? then {r.validator.value} else {}
  {
    forall v | v in Validators(records)
      + (if r.validator.Some? then {r.validator.value} else {}) ensures v in Validators(records + [r]) {
      if v in Validators(records) {
        var x :| x in records && x.validator.Some? && x.validator.value == v;
        assert x in records + [r];
      } else {
        assert r in records + [r];
      }
    }
  }

  ghost function Positions(records: seq<SlotRecord>, status: Status): set<int> {
    set i | 0 <= i < |records| && records[i].status == status
  }

  /** A count is the number of positions whose record has the status. */
  lemma {:induction false} CountIsSize(records: seq<SlotRecord>, status: Status)
    ensures Count(records, status) == |Positions(records, status)|
  {
    if records != [] {
      var k := |records| - 1;
      CountIsSize(records[..k], status);
      PositionsNext(records, status);
      hide Positions;
    }
  }

  lemma {:induction false} PositionsNext(records: seq<SlotRecord>, status: Status)
    requires records != []
    ensures var k := |records| - 1;
      |Positions(records, status)| == |Positions(records[..k], status)| + if records[k].status == status then 1 else 0
  {
    var k := |records| - 1;
    OneMore(Positions(records[..k], status), Positions(records, status), k, records[k].status == status);
  }

  lemma OneMore(before: set<int>, after: set<int>, k: int, more: bool)
    requires k !in before && forall i :: i in after <==> i in before || (more && i == k)
    ensures |after| == |before| + if more then 1 else 0
  {
    var expected := if more then before + {k} else before;
    forall i ensures i in after <==> i in expected {
    }
    assert after == expected;
  }

  // ---- what the score means ----

  lemma {:induction false} CountAppend(a: seq<SlotRecord>, b: seq<SlotRecord>, status: Status)
    ensures Count(a + b, status) == Count(a, status) + Count(b, status)
    decreases |b|
  {
    if b == [] {
      assert a + b == a;
    } else {
      var k := |b| - 1;
      assert (a + b)[..|a + b| - 1] == a + b[..k];
      CountAppend(a, b[..k], status);
    }
  }

  /** Dropping the record between two parts. */
  lemma {:induction false} CountWithout(a: seq<SlotRecord>, r: SlotRecord, b: seq<SlotRecord>, status: Status)
    ensures Count(a + [r] + b, status) == Count(a + b, status) + Count([r], status)
  {
    CountAppend(a + [r], b, status);
    CountAppend(a, [r], status);
    CountAppend(a, b, status);
    hide Count;
  }

  lemma CancelOne(x: multiset<SlotRecord>, y: multiset<SlotRecord>, r: SlotRecord)
    requires multiset{r} + x == multiset{r} + y
    ensures x == y
  {
    assert x == (multiset{r} + x) - multiset{r};
    assert y == (multiset{r} + y) - multiset{r};
  }

  lemma SplitAt(records: seq<SlotRecord>, other: seq<SlotRecord>) returns (a: seq<SlotRecord>, b: seq<SlotRecord>)
    requires records != [] && multiset(records) == multiset(other)
    ensures other == a + [records[0]] + b && multiset(records[1..]) == multiset(a + b)
  {
    var r := records[0];
    assert r in multiset(other);
    var i :| 0 <= i < |other| && other[i] == r;
    a, b := other[..i], other[i + 1..];
    assert multiset{r} + multiset(records[1..]) == multiset(records) by {
      assert records == [r] + records[1..];
    }
    assert multiset{r} + multiset(a + b) == multiset(other) by {
      assert other == a + [r] + b;
    }
    CancelOne(multiset(records[1..]), multiset(a + b), r);
  }

  lemma {:induction false} CountIsMultiplicity(records: seq<SlotRecord>, other: seq<SlotRecord>, status: Status)
    requires multiset(records) == multiset(other)
    ensures Count(records, status) == Count(other, status)
    decreases |records|
  {
    hide Count;
    if records == [] {
      assert |multiset(other)| == 0;
    } else {
      var a, b := SplitAt(records, other);
      CountIsMultiplicity(records[1..], a + b, status);
      CountWithout([], records[0], records[1..], status);
      CountWithout(a, records[0], b, status);
      assert [] + [records[0]] + records[1..] == records && [] + records[1..] == records[1..];
    }
  }

  /** The analysis does not depend on the order of the records. */
  lemma OrderIndependent(records: seq<SlotRecord>, other: seq<SlotRecord>, committee: nat, slots: nat)
    requires multiset(records) == multiset(other)
    ensures AnalysisOf(records, committee, slots) == AnalysisOf(other, committee, slots)
  {
    forall status ensures Count(records, status) == Count(other, status) {
      CountIsMultiplicity(records, other, status);
    }
    assert Validators(records) == Validators(other) by {
      forall r ensures r in records <==> r in other {
        assert r in multiset(records) <==> r in multiset(other);
      }
    }
  }

  lemma ShareNonnegative(part: nat, whole: nat)
    ensures Share(part, whole) >= 0.0
  {
  }

  /** The score is between 0 and 100. */
  lemma ScoreInRange(t: Tally, validators: nat, committee: nat, slots: nat)
    ensures 0 <= Score(t, validators, committee, slots) <= 100
  {
    ShareNonnegative(BlockShortfall(t, slots), slots);
    ShareNonnegative(AttestationShortfall(t, committee), slots * committee);
    ShareNonnegative(UnexplainedEmpty(t, validators, committee), committee);
    hide Share;
  }

  lemma ShareTimes(part: nat, whole: nat)
    requires whole > 0
    ensures Share(part, whole) * whole as real == part as real
  {
  }

  /** y is x in units of one part in two of n. */
  ghost predicate Halves(x: real, n: nat, y: int) {
    x * (2 * n) as real == y as real
  }

  /** What the three shortfalls weigh, in units of one part in two of slots times committee. */
  function Weight(blocks: nat, attestations: nat, empty: nat, slots: nat, committee: nat): int {
    60 * blocks * committee + 50 * attestations + 40 * empty * slots
  }

  /** One attestation record for each slot and each member of the committee. */
  function Cells(slots: nat, committee: nat): nat {
    slots * committee
  }

  /** The three proportional deductions over a common denominator. */
  lemma CommonDenominator(blocks: nat, attestations: nat, empty: nat, slots: nat, committee: nat)
    requires slots > 0 && committee > 0
    ensures Cells(slots, committee) > 0
    ensures Halves(Share(blocks, slots) * 30.0 + Share(attestations, Cells(slots, committee)) * 25.0
      + Share(empty, committee) * 20.0, Cells(slots, committee), Weight(blocks, attestations, empty, slots, committee))
  {
    var s, e := slots as real, committee as real;
    var x, y, z := Share(blocks, slots), Share(attestations, slots * committee), Share(empty, committee);
    PositiveMeans(slots, committee);
    ShareTimes(blocks, slots);
    ShareTimes(attestations, slots * committee);
    ShareTimes(empty, committee);
    hide Share;
    assert (slots * committee) as real == s * e;
    assert 2 * slots * committee == 2 * Cells(slots, committee);
    calc {
      (x * 30.0 + y * 25.0 + z * 20.0) * (2.0 * s * e);
      60.0 * (x * s) * e + 50.0 * (y * (s * e)) + 40.0 * (z * e) * s;
      60.0 * (blocks as real) * e + 50.0 * (attestations as real) + 40.0 * (empty as real) * s;
    }
  }

  /** A score after rounding, from twice the deduction over a common denominator. */
  lemma RoundedAtLeast(x: real, n: nat, y: int, q: int)
    requires n > 0 && Halves(x, n, y)
    ensures Round(100.0 - x) >= q <==> y <= (201 - 2 * q) * n
  {
    var bound := 100.5 - q as real;
    assert Round(100.0 - x) >= q <==> x <= bound;
    assert bound * (2 * n) as real == ((201 - 2 * q) * n) as real;
    var m := (2 * n) as real;
    if x <= bound {
      assert (bound - x) * m >= 0.0;
    } else {
      assert (x - bound) * m > 0.0;
    }
  }

  /**
   The score in the fields of the tally.  A score of q is reached exactly when the block records
   missing or surplus, the attestation records missing or surplus of those that the mined and the
   proposed checkpoints ask for, the validators without a record where no missed block explains
   them, and a surplus of validators, each with its weight, leave that many points.
   */
  lemma {:induction false} ScoreAtLeastIff(t: Tally, validators: nat, committee: nat, slots: nat, q: int)
    requires slots > 0 && committee > 0 && 1 <= q <= 100
    ensures var blocks := Distance(t.mined + t.proposed + t.missed + t.blocksMissed, slots);
      var expected := (t.mined + t.proposed) * (committee - 1);
      var attestations := if expected > 0 then Distance(t.sent + t.unsent, expected) else 0;
      var empty := if t.missed == 0 && t.blocksMissed == 0 && validators < committee then committee - validators else 0;
      var surplus := if validators > committee then 80 * (slots * committee) else 0;
      Score(t, validators, committee, slots) >= q <==>
        60 * blocks * committee + 50 * attestations + 40 * empty * slots + surplus
          <= (201 - 2 * q) * (slots * committee)
  {
    hide Score, BlockShortfall, AttestationShortfall, UnexplainedEmpty, Distance;
    ShortfallsAtLeast(t, validators, committee, slots, q);
    SpelledOut(t, validators, committee, slots);
  }

  lemma SpelledOut(t: Tally, validators: nat, committee: nat, slots: nat)
    ensures BlockShortfall(t, slots) == Distance(t.mined + t.proposed + t.missed + t.blocksMissed, slots)
    ensures var expected := (t.mined + t.proposed) * (committee - 1);
      AttestationShortfall(t, committee) == if expected > 0 then Distance(t.sent + t.unsent, expected) else 0
    ensures UnexplainedEmpty(t, validators, committee) ==
      if t.missed == 0 && t.blocksMissed == 0 && validators < committee then committee - validators else 0
  {
  }

  lemma {:induction false} ShortfallsAtLeast(t: Tally, validators: nat, committee: nat, slots: nat, q: int)
    requires slots > 0 && committee > 0 && 1 <= q <= 100
    ensures var weight := Weight(BlockShortfall(t, slots), AttestationShortfall(t, committee),
                                 UnexplainedEmpty(t, validators, committee), slots, committee);
      var n := Cells(slots, committee);
      var surplus := if validators > committee then 80 * n else 0;
      Score(t, validators, committee, slots) >= q <==> weight + surplus <= (201 - 2 * q) * n
  {
    ScoreOfDeducted(t, validators, committee, slots, q);
    hide *;
    var weight := WeightOfDeducted(t, validators, committee, slots);
    RoundedAtLeast(Deducted(t, validators, committee, slots), Cells(slots, committee), weight, q);
  }

  lemma ScoreOfDeducted(t: Tally, validators: nat, committee: nat, slots: nat, q: int)
    requires slots > 0 && q >= 1
    ensures Score(t, validators, committee, slots) >= q <==>
      Round(100.0 - Deducted(t, validators, committee, slots)) >= q
  {
    hide Deducted;
  }

  /** Twice the deduction over the common denominator. */
  lemma {:induction false} WeightOfDeducted(t: Tally, validators: nat, committee: nat, slots: nat)
    returns (total: int)
    requires slots > 0 && committee > 0
    ensures Cells(slots, committee) > 0
    ensures total == Weight(BlockShortfall(t, slots), AttestationShortfall(t, committee),
                            UnexplainedEmpty(t, validators, committee), slots, committee)
                     + if validators > committee then 80 * Cells(slots, committee) else 0
    ensures Halves(Deducted(t, validators, committee, slots), Cells(slots, committee), total)
  {
    var blocks, attestations := BlockShortfall(t, slots), AttestationShortfall(t, committee);
    var empty, n := UnexplainedEmpty(t, validators, committee), Cells(slots, committee);
    var fixed := if validators > committee then 40.0 else 0.0;
    var shares := Share(blocks, slots) * 30.0 + Share(attestations, n) * 25.0 + Share(empty, committee) * 20.0;
    assert Deducted(t, validators, committee, slots) == fixed + shares;
    hide *;
    CommonDenominator(blocks, attestations, empty, slots, committee);
    var surplus := Surplus(validators > committee, n);
    total := surplus + Weight(blocks, attestations, empty, slots, committee);
    SumOver(fixed, shares, n, surplus, Weight(blocks, attestations, empty, slots, committee));
  }

  lemma Surplus(more: bool, n: nat) returns (y: int)
    ensures y == if more then 80 * n else 0
    ensures Halves(if more then 40.0 else 0.0, n, y)
  {
    y := if more then 80 * n else 0;
  }

  lemma SumOver(x: real, y: real, n: nat, a: int, b: int)
    requires Halves(x, n, a) && Halves(y, n, b)
    ensures Halves(x + y, n, a + b)
  {
  }

  /**
   What each verdict says.  With the weights above: VALID loses less than half a point in
   total, WARNING at most ten and a half, and an epoch is INVALID from fifty and a half on.
   */
  lemma {:induction false} VerdictIff(t: Tally, validators: nat, committee: nat, slots: nat)
    requires slots > 0 && committee > 0
    ensures var blocks := Distance(t.mined + t.proposed + t.missed + t.blocksMissed, slots);
      var expected := (t.mined + t.proposed) * (committee - 1);
      var attestations := if expected > 0 then Distance(t.sent + t.unsent, expected) else 0;
      var empty := if t.missed == 0 && t.blocksMissed == 0 && validators < committee then committee - validators else 0;
      var surplus := if validators > committee then 80 * (slots * committee) else 0;
      var lost := 60 * blocks * committee + 50 * attestations + 40 * empty * slots + surplus;
      var verdict := VerdictOf(Score(t, validators, committee, slots));
      && (verdict == Valid <==> lost <= slots * committee)
      && (verdict == Warning <==> slots * committee < lost <= 21 * (slots * committee))
      && (verdict == Partial <==> 21 * (slots * committee) < lost <= 101 * (slots * committee))
      && (verdict == Invalid <==> lost > 101 * (slots * committee))
  {
    ScoreAtLeastIff(t, validators, committee, slots, 100);
    ScoreAtLeastIff(t, validators, committee, slots, 90);
    ScoreAtLeastIff(t, validators, committee, slots, 50);
    ScoreInRange(t, validators, committee, slots);
    hide Score, Distance;
  }

  /**
   The exact meaning of VALID: no surplus validators, and the three shortfalls
   together, each with its weight, stay below half a point.
   */
  lemma {:induction false} ValidIff(t: Tally, validators: nat, committee: nat, slots: nat)
    requires slots > 0 && committee > 0
    ensures var blocks := Distance(t.mined + t.proposed + t.missed + t.blocksMissed, slots);
      var expected := (t.mined + t.proposed) * (committee - 1);
      var attestations := if expected > 0 then Distance(t.sent + t.unsent, expected) else 0;
      var empty := if t.missed == 0 && t.blocksMissed == 0 then committee - validators else 0;
      VerdictOf(Score(t, validators, committee, slots)) == Valid <==>
        && validators <= committee
        && 60 * blocks * committee + 50 * attestations + 40 * empty * slots <= slots * committee
  {
    hide *;
    VerdictIff(t, validators, committee, slots);
    PositiveMeans(slots, committee);
    var blocks := Distance(t.mined + t.proposed + t.missed + t.blocksMissed, slots);
    var expected := (t.mined + t.proposed) * (committee - 1);
    var attestations := if expected > 0 then Distance(t.sent + t.unsent, expected) else 0;
    var empty := if t.missed == 0 && t.blocksMissed == 0 && validators < committee then committee - validators else 0;
    NoSurplus(validators > committee, blocks, attestations, empty, slots, committee);
  }

  lemma NoSurplus(tooMany: bool, blocks: nat, attestations: nat, empty: nat, slots: nat, committee: nat)
    requires slots * committee > 0
    ensures 60 * blocks * committee + 50 * attestations + 40 * empty * slots
              + (if tooMany then 80 * (slots * committee) else 0) <= slots * committee
      <==> !tooMany && 60 * blocks * committee + 50 * attestations + 40 * empty * slots <= slots * committee
  {
    assert 60 * blocks * committee >= 0 && 40 * empty * slots >= 0 by {
      Times(0, 60 * blocks, committee);
      Times(0, 40 * empty, slots);
    }
  }

  /**
   A complete epoch scores 100: a block record for every slot, every validator of the committee
   seen, and from each of them but the proposer an attestation record for every checkpoint that
   was mined or proposed.
   */
  lemma {:induction false} CompleteEpoch(t: Tally, committee: nat, slots: nat)
    requires t.mined + t.proposed + t.missed + t.blocksMissed == slots > 0 && committee > 0
    requires t.sent + t.unsent == (t.mined + t.proposed) * (committee - 1)
    ensures Score(t, committee, committee, slots) == 100
    ensures forall validators: nat :: committee < validators ==> Score(t, validators, committee, slots) == 60
  {
    ScoreAtLeastIff(t, committee, committee, slots, 100);
    ScoreInRange(t, committee, committee, slots);
    PositiveMeans(slots, committee);
    var n := slots * committee;
    hide Score;
    forall validators: nat | committee < validators ensures Score(t, validators, committee, slots) == 60 {
      ScoreAtLeastIff(t, validators, committee, slots, 60);
      ScoreAtLeastIff(t, validators, committee, slots, 61);
    }
  }

  lemma Times(a: nat, b: nat, c: nat)
    requires c > 0
    ensures a * c <= b * c <==> a <= b
  {
    if a <= b {
      assert (b - a) * c >= 0;
    } else {
      assert (a - b) * c > 0;
    }
  }

  /** One unit of a shortfall already weighs too much. */
  lemma TooMany(weight: nat, part: nat, a: nat, b: nat)
    requires part >= 1 && a < weight && b > 0
    ensures weight * part * b > a * b
  {
    Times(weight, weight * part, b) by { Times(1, part, weight); }
    Times(weight, a, b);
  }

  lemma NoRoom(blocks: nat, attestations: nat, empty: nat, slots: nat, committee: nat)
    requires 0 < slots < 60 && 0 < committee < 40
    ensures 60 * blocks * committee + 50 * attestations + 40 * empty * slots <= slots * committee
      <==> blocks == 0 && empty == 0 && 50 * attestations <= slots * committee
  {
    var b, e := 60 * blocks * committee, 40 * empty * slots;
    assert b >= 0 && e >= 0 by {
      Times(0, 60 * blocks, committee);
      Times(0, 40 * empty, slots);
    }
    if blocks >= 1 {
      TooMany(60, blocks, slots, committee);
    } else if empty >= 1 {
      TooMany(40, empty, committee, slots);
    }
  }

  /**
   For epochs of fewer than 60 slots and committees below 40, VALID leaves no room for
   a missing or surplus block record or an unexplained empty validator; only
   attestation records may be off, by one in fifty of slots times committee.
   */
  lemma {:induction false} ValidIffSmall(t: Tally, validators: nat, committee: nat, slots: nat)
    requires 0 < slots < 60 && 0 < committee < 40
    ensures var expected := (t.mined + t.proposed) * (committee - 1);
      var attestations := if expected > 0 then Distance(t.sent + t.unsent, expected) else 0;
      VerdictOf(Score(t, validators, committee, slots)) == Valid <==>
        && t.mined + t.proposed + t.missed + t.blocksMissed == slots
        && (if t.missed + t.blocksMissed > 0 then validators <= committee else validators == committee)
        && 50 * attestations <= slots * committee
  {
    hide Score, VerdictOf;
    ValidIff(t, validators, committee, slots);
    var expected := (t.mined + t.proposed) * (committee - 1);
    var blocks := Distance(t.mined + t.proposed + t.missed + t.blocksMissed, slots);
    var attestations := if expected > 0 then Distance(t.sent + t.unsent, expected) else 0;
    var empty := if t.missed == 0 && t.blocksMissed == 0 && validators <= committee then committee - validators else 0;
    NoRoom(blocks, attestations, empty, slots, committee);
  }

  /**
   The bound on the committee is sharp: with everything else in place, one empty
   validator keeps an epoch from being VALID exactly when the committee is below 40.
   A committee of 48, the stored default, does not notice it.
   */
  lemma {:induction false} OneEmptyValidator(t: Tally, committee: nat, slots: nat)
    requires t.mined + t.proposed == slots > 0 && committee > 0 && t.missed == 0 && t.blocksMissed == 0
    requires t.sent + t.unsent == slots * (committee - 1)
    ensures VerdictOf(Score(t, committee - 1, committee, slots)) == Valid <==> committee >= 40
  {
    hide Score, VerdictOf;
    ValidIff(t, committee - 1, committee, slots);
    Times(40, committee, slots);
  }

  /**
   The score of an epoch of zero slots: zero with any block record, because the share of missing
   blocks is then without bound, and otherwise decided by the validators alone.
   */
  lemma {:induction false} ScoreWithoutSlots(t: Tally, validators: nat, committee: nat, q: int)
    requires 1 <= q <= 100
    ensures Score(t, validators, committee, 0) >= q <==>
      && t.mined + t.proposed + t.missed + t.blocksMissed == 0
      && (validators > committee ==> q <= 60)
      && (validators < committee ==> 40 * (committee - validators) <= (201 - 2 * q) * committee)
  {
    var empty := if validators < committee then committee - validators else 0;
    if t.BlockRecords() == 0 && validators < committee {
      ShareTimes(empty, committee);
      var x := Share(empty, committee) * 20.0;
      assert x * (2 * committee) as real == (40 * empty) as real;
      hide Share;
      RoundedAtLeast(x, committee, 40 * empty, q);
    }
  }

  /** Without a committee only the block records and a surplus of validators decide. */
  lemma {:induction false} ScoreWithoutCommittee(t: Tally, validators: nat, slots: nat, q: int)
    requires 1 <= q <= 100 && slots > 0
    ensures var blocks := Distance(t.mined + t.proposed + t.missed + t.blocksMissed, slots);
      Score(t, validators, 0, slots) >= q <==>
        60 * blocks + (if validators > 0 then 80 * slots else 0) <= (201 - 2 * q) * slots
  {
    var blocks := BlockShortfall(t, slots);
    var x, fixed := Deducted(t, validators, 0, slots), if validators > 0 then 40.0 else 0.0;
    ShareTimes(blocks, slots);
    assert AttestationShortfall(t, 0) == 0 by {
      assert (t.mined + t.proposed) * (0 - 1) <= 0;
    }
    assert x == fixed + Share(blocks, slots) * 30.0;
    hide Share, BlockShortfall, Deducted, AttestationShortfall;
    var surplus := Surplus(validators > 0, slots);
    assert Halves(Share(blocks, slots) * 30.0, slots, 60 * blocks);
    hide *;
    SumOver(fixed, Share(blocks, slots) * 30.0, slots, surplus, 60 * blocks);
    RoundedAtLeast(x, slots, 60 * blocks + surplus, q);
  }
}
