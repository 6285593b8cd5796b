/**
 Provider state: four kinds of events, each the last writer of some of a provider's
 fields, replayed over rows that earlier passes may have written already.
 */
module ProviderState {
  import opened Wrappers
  import opened EventLog
  import opened Replay

  datatype ProviderEvent =
    | Registered(provider: nat, admin: nat, takeRate: nat, recipient: Option<nat>, rollup: nat, transaction: nat,
      timestamp: nat)
    | TakeRateUpdated(provider: nat, takeRate: nat, transaction: nat)
    | RecipientUpdated(provider: nat, newRecipient: nat, transaction: nat)
    | AdminUpdated(provider: nat, newAdmin: nat, transaction: nat)

  datatype Provider = Provider(admin: nat, takeRate: nat, recipient: nat, rollup: nat,
                               at: Cursor, transaction: nat, timestamp: nat)

  type Providers = map<nat, Provider>

  type Row = Event<ProviderEvent>

  /** The rewards recipient a registration creates: its own, or the admin if it names none. */
  function InitialRecipient(e: ProviderEvent): nat
    requires e.Registered?
  {
    match e.recipient
    case Some(recipient) => recipient
    case None => e.admin
  }

  function ApplyProvider(t: Providers, row: Row): Providers {
    var e := row.body;
    match e
    case Registered(p, admin, takeRate, _, rollup, transaction, timestamp) =>
      var recipient := if p in t then t[p].recipient else InitialRecipient(e);
      t[p := Provider(admin, takeRate, recipient, rollup, row.key, transaction, timestamp)]
    case TakeRateUpdated(p, takeRate, transaction) =>
      if p in t then t[p := t[p].(takeRate := takeRate, at := row.key, transaction := transaction)] else t
    case RecipientUpdated(p, recipient, transaction) =>
      if p in t then t[p := t[p].(recipient := recipient, at := row.key, transaction := transaction)] else t
    case AdminUpdated(p, admin, transaction) =>
      if p in t then t[p := t[p].(admin := admin, at := row.key, transaction := transaction)] else t
  }

  /** Delete-after-block leaves providers alone. */
  function CutProviders(t: Providers, block: int): Providers { t }

  /** The count takes in the providers of the configured rollup only. */
  function CountProviders(rollup: nat): Providers -> nat {
    (t: Providers) => |set p | p in t && t[p].rollup == rollup|
  }

  method NewProviderMaterializer(rollup: nat) returns (m: Materializer<ProviderEvent, Providers>)
    ensures m.apply == ApplyProvider && m.cut == CutProviders && m.countRows == CountProviders(rollup)
      && m.batchSize == 10000
    ensures forall t, block :: m.cut(t, block) == t
    ensures forall t: Providers :: m.countRows(t) == |set p | p in t && t[p].rollup == rollup|
    ensures fresh(m) && m.State() == View(map[], ORIGIN)
  {
    m := new Materializer<ProviderEvent, Providers>(ApplyProvider, CutProviders, CountProviders(rollup), map[]);
  }

  class ProviderTable {
    var rows: Providers

    constructor ()
      ensures rows == map[]
    {
      rows := map[];
    }

    method HandleRegistered(row: Row)
      requires row.body.Registered?
      modifies this
      ensures rows == ApplyProvider(old(rows), row)
    {
      var e := row.body;
      if e.provider in rows {
        var there := rows[e.provider];
        rows := rows[e.provider := there.(admin := e.admin, takeRate := e.takeRate, rollup := e.rollup, at := row.key,
                                          transaction := e.transaction, timestamp := e.timestamp)];
      } else {
        rows := rows[e.provider := Provider(e.admin, e.takeRate, InitialRecipient(e), e.rollup, row.key,
          e.transaction, e.timestamp)];
      }
    }

    method HandleTakeRateUpdated(row: Row) returns (found: bool)
      requires row.body.TakeRateUpdated?
      modifies this
      ensures rows == ApplyProvider(old(rows), row) && found == (row.body.provider in old(rows))
    {
      var e := row.body;
      found := e.provider in rows;
      if found {
        var there := rows[e.provider];
        rows := rows[e.provider := there.(takeRate := e.takeRate, at := row.key, transaction := e.transaction)];
      }
    }

    method HandleRecipientUpdated(row: Row) returns (found: bool)
      requires row.body.RecipientUpdated?
      modifies this
      ensures rows == ApplyProvider(old(rows), row) && found == (row.body.provider in old(rows))
    {
      var e := row.body;
      found := e.provider in rows;
      if found {
        var there := rows[e.provider];
        rows := rows[e.provider := there.(recipient := e.newRecipient, at := row.key, transaction := e.transaction)];
      }
    }

    method HandleAdminUpdated(row: Row) returns (found: bool)
      requires row.body.AdminUpdated?
      modifies this
      ensures rows == ApplyProvider(old(rows), row) && found == (row.body.provider in old(rows))
    {
      var e := row.body;
      found := e.provider in rows;
      if found {
        rows := rows[e.provider := rows[e.provider].(admin := e.newAdmin, at := row.key, transaction := e.transaction)];
      }
    }

    method MaterializeBatch(batch: seq<Row>)
      modifies this
      ensures rows == Fold(ApplyProvider, old(rows), batch)
    {
      for i := 0 to |batch|
        invariant rows == Fold(ApplyProvider, old(rows), batch[..i])
      {
        FoldNext(ApplyProvider, old(rows), batch, i);
        match batch[i].body {
          case Registered(_, _, _, _, _, _, _) => HandleRegistered(batch[i]);
          case TakeRateUpdated(_, _, _) => var _ := HandleTakeRateUpdated(batch[i]);
          case RecipientUpdated(_, _, _) => var _ := HandleRecipientUpdated(batch[i]);
          case AdminUpdated(_, _, _) => var _ := HandleAdminUpdated(batch[i]);
        }
      }
      assert batch[..|batch|] == batch;
    }
  }

  // ---- fields and their writers ----

  /** Position stands for block, log index and transaction hash, which every event writes together. */
  datatype Field = Admin | TakeRate | Recipient | Rollup | Position | Timestamp

  datatype Value = Number(n: nat) | Place(at: Cursor, transaction: nat)

  function Get(p: Provider, f: Field): Value {
    match f
    case Admin => Number(p.admin)
    case TakeRate => Number(p.takeRate)
    case Recipient => Number(p.recipient)
    case Rollup => Number(p.rollup)
    case Position => Place(p.at, p.transaction)
    case Timestamp => Number(p.timestamp)
  }

  /** The fields an event sets in an existing row. */
  predicate Writes(e: ProviderEvent, f: Field) {
    match e
    case Registered(_, _, _, _, _, _, _) => !f.Recipient?
    case TakeRateUpdated(_, _, _) => f.TakeRate? || f.Position?
    case RecipientUpdated(_, _, _) => f.Recipient? || f.Position?
    case AdminUpdated(_, _, _) => f.Admin? || f.Position?
  }

  /** Some row from number k on sets the field of the provider. */
  ghost predicate Touched(log: seq<Row>, k: nat, p: nat, f: Field) {
    exists i :: k <= i < |log| && log[i].body.provider == p && Writes(log[i].body, f)
  }

  ghost predicate RegisteredIn(log: seq<Row>, k: nat, p: nat) {
    exists i :: 0 <= i < k && i < |log| && log[i].body.Registered? && log[i].body.provider == p
  }

  ghost predicate FirstRegistration(log: seq<Row>, i: nat, p: nat) {
    i < |log| && log[i].body.Registered? && log[i].body.provider == p && !RegisteredIn(log, i, p)
  }

  function Pass(t: Providers, log: seq<Row>): Providers {
    Fold(ApplyProvider, t, log)
  }

  /** Provider state after a single pass. */
  function SinglePass(log: seq<Row>): Providers {
    Pass(map[], log)
  }

  lemma {:induction false} KnownAfter(log: seq<Row>, k: nat)
    requires k <= |log|
    ensures forall p :: p in SinglePass(log[..k]) <==> RegisteredIn(log, k, p)
  {
    if k > 0 {
      KnownAfter(log, k - 1);
      FoldNext(ApplyProvider, map[], log, k - 1);
      forall p ensures RegisteredIn(log, k, p) <==>
        RegisteredIn(log, k - 1, p) || (log[k - 1].body.Registered? && log[k - 1].body.provider == p) {
      }
    }
  }

  /** Rows that do not set a field leave it as it was. */
  lemma {:induction false} UntouchedField(t: Providers, log: seq<Row>, p: nat, f: Field)
    requires p in t && !Touched(log, 0, p, f)
    ensures p in Pass(t, log) && Get(Pass(t, log)[p], f) == Get(t[p], f)
    decreases |log|
  {
    if log != [] {
      var t' := ApplyProvider(t, log[0]);
      assert !(log[0].body.provider == p && Writes(log[0].body, f));
      forall i | 0 <= i < |log[1..]| ensures !(log[1..][i].body.provider == p && Writes(log[1..][i].body, f)) {
        assert log[1..][i] == log[i + 1];
      }
      UntouchedField(t', log[1..], p, f);
    }
  }

  /** What the pass up to k has in an untouched field is final. */
  lemma FinalField(log: seq<Row>, k: nat, t: Providers, p: nat, f: Field)
    requires k <= |log| && p in t && !Touched(log, k, p, f)
    ensures p in Pass(t, log[k..]) && Get(Pass(t, log[k..])[p], f) == Get(t[p], f)
  {
    forall i | 0 <= i < |log[k..]| ensures !(log[k..][i].body.provider == p && Writes(log[k..][i].body, f)) {
      assert log[k..][i] == log[k + i];
    }
    UntouchedField(t, log[k..], p, f);
  }

  lemma SinglePassSplit(log: seq<Row>, k: nat)
    requires k < |log|
    ensures SinglePass(log) == Pass(ApplyProvider(SinglePass(log[..k]), log[k]), log[k + 1..])
  {
    FoldNext(ApplyProvider, map[], log, k);
    assert log == log[..k + 1] + log[k + 1..];
    FoldAppend(ApplyProvider, map[], log[..k + 1], log[k + 1..]);
  }

  /** The last writer of a field of a provider known by then decides its final value. */
  lemma LastWrite(log: seq<Row>, k: nat, p: nat, f: Field, t: Providers)
    requires k < |log| && log[k].body.provider == p && Writes(log[k].body, f) && !Touched(log, k + 1, p, f)
    requires RegisteredIn(log, k + 1, p) && p in ApplyProvider(t, log[k])
    ensures p in SinglePass(log) && Get(SinglePass(log)[p], f) == Get(ApplyProvider(t, log[k])[p], f)
  {
    KnownAfter(log, k + 1);
    FoldNext(ApplyProvider, map[], log, k);
    SinglePassSplit(log, k);
    FinalField(log, k + 1, ApplyProvider(SinglePass(log[..k]), log[k]), p, f);
  }

  /** Without a recipient update after it, the first registration decides the recipient. */
  lemma FirstRecipient(log: seq<Row>, i: nat, p: nat)
    requires FirstRegistration(log, i, p) && !Touched(log, i + 1, p, Recipient)
    ensures p in SinglePass(log) && SinglePass(log)[p].recipient == InitialRecipient(log[i].body)
  {
    KnownAfter(log, i);
    SinglePassSplit(log, i);
    var created := ApplyProvider(SinglePass(log[..i]), log[i]);
    FinalField(log, i + 1, created, p, Recipient);
    assert Get(created[p], Recipient) == Number(created[p].recipient);
    assert Get(SinglePass(log)[p], Recipient) == Number(SinglePass(log)[p].recipient);
  }

  ghost predicate NoLaterRegistration(log: seq<Row>, k: nat, p: nat) {
    forall i :: k < i < |log| && log[i].body.provider == p ==> !log[i].body.Registered?
  }

  ghost predicate NoLaterTakeRate(log: seq<Row>, k: nat, p: nat) {
    forall i :: k < i < |log| && log[i].body.provider == p ==> !log[i].body.TakeRateUpdated?
  }

  ghost predicate NoLaterRecipient(log: seq<Row>, k: nat, p: nat) {
    forall i :: k < i < |log| && log[i].body.provider == p ==> !log[i].body.RecipientUpdated?
  }

  ghost predicate NoLaterAdmin(log: seq<Row>, k: nat, p: nat) {
    forall i :: k < i < |log| && log[i].body.provider == p ==> !log[i].body.AdminUpdated?
  }

  /**
   Who decides each column of a provider that row k finds or registers: the take rate and the
   admin come from the last registration or update of them, the recipient from its last update,
   the rollup and the timestamp from the last registration, and the position from the last event.
   */
  ghost predicate LastWritten(log: seq<Row>, k: nat, p: nat, final: Provider)
    requires k < |log|
  {
    var e := log[k].body;
    var noRegistration := NoLaterRegistration(log, k, p);
    && (e.Registered? && noRegistration ==> final.rollup == e.rollup && final.timestamp == e.timestamp)
    && (e.Registered? && noRegistration && NoLaterTakeRate(log, k, p) ==> final.takeRate == e.takeRate)
    && (e.TakeRateUpdated? && noRegistration && NoLaterTakeRate(log, k, p) ==> final.takeRate == e.takeRate)
    && (e.Registered? && noRegistration && NoLaterAdmin(log, k, p) ==> final.admin == e.admin)
    && (e.AdminUpdated? && noRegistration && NoLaterAdmin(log, k, p) ==> final.admin == e.newAdmin)
    && (e.RecipientUpdated? && NoLaterRecipient(log, k, p) ==> final.recipient == e.newRecipient)
    && (noRegistration && NoLaterTakeRate(log, k, p) && NoLaterRecipient(log, k, p) && NoLaterAdmin(log, k, p)
        ==> final.at == log[k].key && final.transaction == e.transaction)
  }

  lemma {:induction false} LastWritersDecide(log: seq<Row>, k: nat, p: nat)
    requires k < |log| && log[k].body.provider == p && RegisteredIn(log, k + 1, p)
    ensures p in SinglePass(log) && LastWritten(log, k, p, SinglePass(log)[p])
  {
    assert log[..|log|] == log && RegisteredIn(log, |log|, p);
    KnownAfter(log, |log|);
    KnownAfter(log, k + 1);
    FoldNext(ApplyProvider, map[], log, k);
    var t := SinglePass(log[..k]);
    hide SinglePass;
    forall f: Field | Writes(log[k].body, f) && !Touched(log, k + 1, p, f)
      ensures Get(SinglePass(log)[p], f) == Get(ApplyProvider(t, log[k])[p], f)
    {
      LastWrite(log, k, p, f, t);
    }
    WrittenColumns(log, k, p, t);
  }

  lemma {:induction false} WrittenColumns(log: seq<Row>, k: nat, p: nat, t: Providers)
    requires k < |log| && log[k].body.provider == p && p in ApplyProvider(t, log[k]) && p in SinglePass(log)
    requires forall f: Field ::
        Writes(log[k].body, f) && !Touched(log, k + 1, p, f) ==>
          Get(SinglePass(log)[p], f) == Get(ApplyProvider(t, log[k])[p], f)
    ensures LastWritten(log, k, p, SinglePass(log)[p])
  {
    hide SinglePass;
    var before, after := ApplyProvider(t, log[k])[p], SinglePass(log)[p];
    assert Get(after, Admin) == Number(after.admin) && Get(after, TakeRate) == Number(after.takeRate);
    assert Get(after, Recipient) == Number(after.recipient) && Get(after, Rollup) == Number(after.rollup);
    assert Get(after, Position) == Place(after.at, after.transaction);
    assert Get(after, Timestamp) == Number(after.timestamp);
  }

  /** The recipient that no later update sets is the one the first registration names, or else its admin. */
  lemma {:induction false} RegisteredRecipient(log: seq<Row>, i: nat, p: nat)
    requires i < |log| && log[i].body.Registered? && log[i].body.provider == p && !RegisteredIn(log, i, p)
    requires NoLaterRecipient(log, i, p)
    ensures p in SinglePass(log)
    ensures SinglePass(log)[p].recipient == match log[i].body.recipient
      case Some(recipient) => recipient
      case None => log[i].body.admin
  {
    FirstRecipient(log, i, p);
  }

  // ---- convergence ----

  /**
   A recipient update that precedes its provider's registration, and is the provider's
   last one, names the recipient the registration creates.  (Single-pass replay drops
   such an update; a later pass finds the provider and applies it.)
   */
  ghost predicate Settled(log: seq<Row>) {
    forall u, i :: 0 <= u < i < |log| && log[u].body.RecipientUpdated?
      && FirstRegistration(log, i, log[u].body.provider) && !Touched(log, u + 1, log[u].body.provider, Recipient)
      ==> log[u].body.newRecipient == InitialRecipient(log[i].body)
  }

  /** A field that no row from k on sets has its single-pass value. */
  ghost predicate FieldFinal(log: seq<Row>, t: Providers, k: nat, p: nat, f: Field) {
    p in t && !Touched(log, k, p, f) ==> p in SinglePass(log) && Get(t[p], f) == Get(SinglePass(log)[p], f)
  }

  /** Provider rows met at position k: known providers are there, and fields no later row sets are final. */
  ghost predicate Converging(log: seq<Row>, t: Providers, k: nat) {
    && k <= |log|
    && (forall p :: p in t ==> RegisteredIn(log, |log|, p))
    && (forall p :: RegisteredIn(log, k, p) ==> p in t)
    && (forall p, f :: FieldFinal(log, t, k, p, f))
  }

  lemma ConvergingStart(log: seq<Row>)
    ensures Converging(log, map[], 0)
  {
  }

  lemma FieldStep(log: seq<Row>, t: Providers, k: nat, p: nat, f: Field)
    requires Settled(log) && k < |log| && Converging(log, t, k)
    requires p in ApplyProvider(t, log[k]) && !Touched(log, k + 1, p, f)
    ensures p in SinglePass(log) && Get(ApplyProvider(t, log[k])[p], f) == Get(SinglePass(log)[p], f)
  {
    hide Settled, SinglePass, FirstRegistration;
    var e := log[k].body;
    if e.provider != p || (p in t && !Writes(e, f)) {
      FieldUnwritten(log, t, k, p, f);
    } else if !Writes(e, f) {
      FirstIsHere(log, t, k, p);
      FirstRecipient(log, k, p);
    } else if RegisteredIn(log, k + 1, p) {
      LastWrite(log, k, p, f, t);
    } else {
      OrphanStep(log, k, p, f);
    }
  }

  lemma FieldUnwritten(log: seq<Row>, t: Providers, k: nat, p: nat, f: Field)
    requires k < |log| && Converging(log, t, k) && p in ApplyProvider(t, log[k]) && !Touched(log, k + 1, p, f)
    requires log[k].body.provider != p || (p in t && !Writes(log[k].body, f))
    ensures p in t && Get(ApplyProvider(t, log[k])[p], f) == Get(t[p], f)
    ensures p in SinglePass(log) && Get(t[p], f) == Get(SinglePass(log)[p], f)
  {
    hide SinglePass;
    assert !Touched(log, k, p, f);
    assert FieldFinal(log, t, k, p, f);
  }

  lemma FirstIsHere(log: seq<Row>, t: Providers, k: nat, p: nat)
    requires k < |log| && Converging(log, t, k) && log[k].body.Registered? && log[k].body.provider == p && p !in t
    ensures FirstRegistration(log, k, p)
  {
    hide FieldFinal;
  }

  /** An update ahead of its provider's registration: only the recipient can survive the registration. */
  lemma OrphanStep(log: seq<Row>, k: nat, p: nat, f: Field)
    requires Settled(log) && k < |log| && log[k].body.provider == p && Writes(log[k].body, f)
      && !Touched(log, k + 1, p, f)
    requires !RegisteredIn(log, k + 1, p) && RegisteredIn(log, |log|, p)
    ensures log[k].body.RecipientUpdated? && f == Recipient
    ensures p in SinglePass(log) && SinglePass(log)[p].recipient == log[k].body.newRecipient
  {
    var i := FindFirst(log, p);
    assert i > k;
    assert forall g: Field :: g != Recipient ==> Writes(log[i].body, g);
    FirstRecipient(log, i, p);
  }

  lemma FindFirst(log: seq<Row>, p: nat) returns (i: nat)
    requires RegisteredIn(log, |log|, p)
    ensures FirstRegistration(log, i, p)
  {
    i := 0;
    while !(log[i].body.Registered? && log[i].body.provider == p)
      invariant i < |log| && !RegisteredIn(log, i, p)
      decreases |log| - i
    {
      assert !RegisteredIn(log, i + 1, p);
      i := i + 1;
    }
  }

  lemma ConvergingStep(log: seq<Row>, t: Providers, k: nat)
    requires Settled(log) && k < |log| && Converging(log, t, k)
    ensures Converging(log, ApplyProvider(t, log[k]), k + 1)
  {
    var t', next := ApplyProvider(t, log[k]), k + 1;
    forall p | p in t' ensures RegisteredIn(log, |log|, p) {
      assert p in t || (log[k].body.Registered? && log[k].body.provider == p);
    }
    forall p | RegisteredIn(log, k + 1, p) ensures p in t' {
      assert RegisteredIn(log, k, p) || (log[k].body.Registered? && log[k].body.provider == p);
    }
    forall p, f ensures FieldFinal(log, t', next, p, f) {
      if p in t' && !Touched(log, next, p, f) {
        FieldStep(log, t, k, p, f);
      }
    }
  }

  lemma ConvergingEarlier(log: seq<Row>, t: Providers, j: nat, k: nat)
    requires j <= k && Converging(log, t, k)
    ensures Converging(log, t, j)
  {
    assert forall p :: RegisteredIn(log, j, p) ==> RegisteredIn(log, k, p);
    forall p, f ensures FieldFinal(log, t, j, p, f) {
      assert FieldFinal(log, t, k, p, f);
      assert Touched(log, k, p, f) ==> Touched(log, j, p, f);
    }
  }

  /** At the log's end the rows are those of a single pass. */
  lemma ConvergingAtEnd(log: seq<Row>, t: Providers)
    requires Converging(log, t, |log|)
    ensures t == SinglePass(log)
  {
    assert log[..|log|] == log;
    KnownAfter(log, |log|);
    forall p | p in t ensures p in SinglePass(log) && t[p] == SinglePass(log)[p] {
      FieldAtEnd(log, t, p, Admin);
      FieldAtEnd(log, t, p, TakeRate);
      FieldAtEnd(log, t, p, Recipient);
      FieldAtEnd(log, t, p, Rollup);
      FieldAtEnd(log, t, p, Position);
      FieldAtEnd(log, t, p, Timestamp);
    }
  }

  lemma FieldAtEnd(log: seq<Row>, t: Providers, p: nat, f: Field)
    requires Converging(log, t, |log|) && p in t
    ensures p in SinglePass(log) && Get(t[p], f) == Get(SinglePass(log)[p], f)
  {
    assert FieldFinal(log, t, |log|, p, f);
    assert !Touched(log, |log|, p, f);
  }

  ghost function ProviderInvariant(log: seq<Row>): (Providers, nat) -> bool {
    (t, k) => Converging(log, t, k)
  }

  lemma InvariantMeaning(log: seq<Row>)
    ensures forall t, k :: ProviderInvariant(log)(t, k) <==> Converging(log, t, k)
  {
  }

  lemma ConvergingReplayable(log: seq<Row>)
    requires Settled(log)
    ensures Replayable(ApplyProvider, log, 0, ProviderInvariant(log))
  {
    hide *;
    var J := ProviderInvariant(log);
    assert forall t, k :: J(t, k) <==> Converging(log, t, k) by { InvariantMeaning(log); }
    forall t, k | 0 <= k < |log| && J(t, k) ensures J(ApplyProvider(t, log[k]), k + 1) {
      ConvergingStep(log, t, k);
    }
    forall t, k, j | 0 <= j <= k <= |log| && J(t, k) ensures J(t, j) {
      ConvergingEarlier(log, t, j, k);
    }
    ReplayableIntro(ApplyProvider, log, 0, J);
  }

  /**
   Last-writer-wins replay converges: after any run of polls, failed polls and backward
   rewinds that keeps the rows, an idle table is the fold of a single pass.
   */
  lemma ProvidersConverge(log: seq<Row>, ops: seq<Op>)
    requires Sorted(log) && Settled(log) && Rank(log, ORIGIN) == 0
    requires Backward(ApplyProvider, log, View(map[], ORIGIN), ops, 0)
    requires Idle(log, Run(ApplyProvider, log, View(map[], ORIGIN), ops))
    ensures Run(ApplyProvider, log, View(map[], ORIGIN), ops).table == SinglePass(log)
  {
    ConvergingReplayable(log);
    RunKeeps(ApplyProvider, log, 0, ProviderInvariant(log), View(map[], ORIGIN), ops);
    ConvergingAtEnd(log, Run(ApplyProvider, log, View(map[], ORIGIN), ops).table);
  }

  // ---- catching up from what a reset left ----

  ghost predicate RegisteredOnce(log: seq<Row>) {
    forall i, j :: 0 <= i < j < |log| && log[i].body.Registered? && log[j].body.Registered?
      ==> log[i].body.provider != log[j].body.provider
  }

  lemma RaiseFloor(log: seq<Row>, k: nat)
    requires Settled(log)
    ensures Replayable(ApplyProvider, log, k, ProviderInvariant(log))
  {
    ConvergingReplayable(log);
    hide Settled, ProviderInvariant;
  }

  /** A provider that no row from k on registers is never added by them. */
  lemma AbsentStays(log: seq<Row>, t: Providers, k: nat, p: nat, passes: seq<Stretch>)
    requires k <= |log| && p !in t && Chained(k, |log|, k, passes)
    requires forall i :: k <= i < |log| && log[i].body.Registered? ==> log[i].body.provider != p
    ensures p !in RunPasses(ApplyProvider, log, t, passes)
  {
    var J := (t': Providers, i: nat) => p !in t';
    PassesKeep(ApplyProvider, log, k, J, t, k, passes);
  }

  /** A field that no row from k on sets stays, and so does its provider. */
  lemma FieldStays(log: seq<Row>, t: Providers, k: nat, p: nat, f: Field, passes: seq<Stretch>)
    requires k <= |log| && p in t && !Touched(log, k, p, f) && Chained(k, |log|, k, passes)
    ensures var final := RunPasses(ApplyProvider, log, t, passes); p in final && Get(final[p], f) == Get(t[p], f)
  {
    var J := (t': Providers, i: nat) => p in t' && Get(t'[p], f) == Get(t[p], f);
    assert Replayable(ApplyProvider, log, k, J) by {
      forall t', i | k <= i < |log| && J(t', i) ensures J(ApplyProvider(t', log[i]), i + 1) {
        assert !(log[i].body.provider == p && Writes(log[i].body, f));
      }
    }
    PassesKeep(ApplyProvider, log, k, J, t, k, passes);
  }

  lemma PresentStays(log: seq<Row>, t: Providers, k: nat, p: nat, passes: seq<Stretch>)
    requires k <= |log| && p in t && Chained(k, |log|, k, passes)
    ensures p in RunPasses(ApplyProvider, log, t, passes)
  {
    var J := (t': Providers, i: nat) => p in t';
    PassesKeep(ApplyProvider, log, k, J, t, k, passes);
  }

  /**
   A reset deletes no provider.  Catching up from row k, through any passes, with the
   table as the old chain left it gives the single pass over the new chain if and only
   if the table has no provider the new chain never registers, has those it registers
   before k, and is final in every field that no row from k on sets.
   */
  lemma ProvidersCatchUpIff(log: seq<Row>, t: Providers, k: nat, passes: seq<Stretch>)
    requires Settled(log) && RegisteredOnce(log) && k <= |log|
    requires Chained(k, |log|, k, passes) && Reached(k, passes) == |log|
    ensures RunPasses(ApplyProvider, log, t, passes) == SinglePass(log) <==> Converging(log, t, k)
  {
    var final := RunPasses(ApplyProvider, log, t, passes);
    if Converging(log, t, k) {
      RaiseFloor(log, k);
      InvariantMeaning(log);
      PassesKeep(ApplyProvider, log, k, ProviderInvariant(log), t, k, passes);
      ConvergingAtEnd(log, final);
    }
    if final == SinglePass(log) {
      OnlyIfConverging(log, t, k, passes);
    }
  }

  lemma {:induction false} OnlyIfConverging(log: seq<Row>, t: Providers, k: nat, passes: seq<Stretch>)
    requires RegisteredOnce(log) && k <= |log| && Chained(k, |log|, k, passes)
    requires RunPasses(ApplyProvider, log, t, passes) == SinglePass(log)
    ensures Converging(log, t, k)
  {
    hide Chained, RunPasses, Get, Writes, Fold;
    assert log[..|log|] == log;
    KnownAfter(log, |log|);
    forall p | p in t ensures RegisteredIn(log, |log|, p) {
      PresentStays(log, t, k, p, passes);
    }
    forall p | RegisteredIn(log, k, p) ensures p in t {
      assert RegisteredIn(log, |log|, p);
      if p !in t {
        AbsentStays(log, t, k, p, passes);
      }
    }
    forall p, f ensures FieldFinal(log, t, k, p, f) {
      if p in t && !Touched(log, k, p, f) {
        FieldStays(log, t, k, p, f, passes);
      }
    }
  }

  // ---- which logs converge ----

  /** Stopping after m rows, going back to row j and catching up gives what one pass gives. */
  ghost predicate ReplayHarmless(log: seq<Row>) {
    forall j, m :: 0 <= j <= m <= |log| ==> Pass(SinglePass(log[..m]), log[j..]) == SinglePass(log)
  }

  /** The exact condition: replay is harmless if and only if the log is settled. */
  lemma HarmlessIffSettled(log: seq<Row>)
    ensures ReplayHarmless(log) <==> Settled(log)
  {
    if Settled(log) {
      forall j, m | 0 <= j <= m <= |log| ensures Pass(SinglePass(log[..m]), log[j..]) == SinglePass(log) {
        SettledIsHarmless(log, j, m);
      }
    } else {
      var u, i :| 0 <= u < i < |log| && log[u].body.RecipientUpdated?
        && FirstRegistration(log, i, log[u].body.provider) && !Touched(log, u + 1, log[u].body.provider, Recipient)
        && log[u].body.newRecipient != InitialRecipient(log[i].body);
      UnsettledDoesHarm(log, u, i);
    }
  }

  lemma SettledIsHarmless(log: seq<Row>, j: nat, m: nat)
    requires Settled(log) && j <= m <= |log|
    ensures Pass(SinglePass(log[..m]), log[j..]) == SinglePass(log)
  {
    hide ApplyProvider, Converging, Settled, Replayable, Fold;
    ConvergingStart(log);
    ConvergingReplayable(log);
    FoldKeeps(ApplyProvider, log, 0, ProviderInvariant(log), map[], 0, m);
    assert log[0..0 + m] == log[..m];
    ConvergingEarlier(log, SinglePass(log[..m]), j, m);
    FoldKeeps(ApplyProvider, log, 0, ProviderInvariant(log), SinglePass(log[..m]), j, |log| - j);
    assert log[j..j + (|log| - j)] == log[j..];
    ConvergingAtEnd(log, Pass(SinglePass(log[..m]), log[j..]));
  }

  /** Replaying a complete table from the unsettled update on changes the recipient for good. */
  lemma UnsettledDoesHarm(log: seq<Row>, u: nat, i: nat)
    requires u < i < |log| && log[u].body.RecipientUpdated?
    requires FirstRegistration(log, i, log[u].body.provider) && !Touched(log, u + 1, log[u].body.provider, Recipient)
    requires log[u].body.newRecipient != InitialRecipient(log[i].body)
    ensures !ReplayHarmless(log)
  {
    var p, final := log[u].body.provider, SinglePass(log);
    FirstRecipient(log, i, p);
    var replayed := ApplyProvider(final, log[u]);
    FinalField(log, u + 1, replayed, p, Recipient);
    assert Get(replayed[p], Recipient) == Number(log[u].body.newRecipient);
    assert Get(final[p], Recipient) == Number(final[p].recipient);
    assert log[u..] == [log[u]] + log[u + 1..];
    assert Pass(final, log[u..]) == Pass(replayed, log[u + 1..]);
    assert log[..|log|] == log;
    assert Pass(SinglePass(log[..|log|]), log[u..]) != SinglePass(log);
  }
}
