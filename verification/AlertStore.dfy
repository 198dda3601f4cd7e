/**
 * The alert table and the reconcile run that brings its active alerts to the desired ones: load, upsert each,
 * resolve the rest, tolerating tables that do not exist yet.
 */
module AlertStore {
  import opened Results
  import opened Text
  import opened FleetAlerts

  datatype DbError = UndefinedTable | OtherError

  /** A stored alert; its id is its place in the table, from which nothing is ever deleted. */
  datatype StoredAlert = StoredAlert(alert: Alert, active: bool)

  type Table = seq<StoredAlert>

  function ActiveKeys(rows: Table): set<AlertKey> {
    set i | 0 <= i < |rows| && rows[i].active :: rows[i].alert.key
  }

  /** The partial unique index: at most one active alert of a key. */
  predicate UniqueActive(rows: Table) {
    forall i, j :: 0 <= i < j < |rows| && rows[i].active && rows[j].active ==> rows[i].alert.key != rows[j].alert.key
  }

  // ---------- Keys as texts ----------

  function Prefix(item: ItemType): string {
    match item
    case CivilInsurance => "insurance"
    case Casco => "casco"
    case Vignette => "vignette"
    case TechnicalInspection => "inspection"
    case Untracked => ""
  }

  function TypeText(t: AlertType): string {
    match t
    case ItemExpired(item) => Prefix(item) + "_expired"
    case ExpiringSoon(item) => Prefix(item) + "_expiring_soon"
    case UnresolvedDamage => "unresolved_damage"
  }

  function KindText(kind: SourceKind): string {
    match kind
    case ComplianceItem => "compliance_item"
    case DamageReport => "damage_report"
  }

  /** carId:type:sourceKind:sourceId */
  function KeyText(key: AlertKey): string {
    Join([Decimal(key.carId), TypeText(key.alertType), KindText(key.kind), Decimal(key.sourceId)], ':')
  }

  lemma TypeTextLength(t: AlertType)
    ensures |TypeText(t)| == match t
                             case ItemExpired(item) => |Prefix(item)| + 8
                             case ExpiringSoon(item) => |Prefix(item)| + 14
                             case UnresolvedDamage => 17
    ensures TypeText(t)[0] == 'u' <==> t.UnresolvedDamage?
  {
  }

  lemma TypeTextsDiffer(a: AlertType, b: AlertType)
    requires TypeText(a) == TypeText(b)
    ensures a == b
  {
    TypeTextLength(a);
    TypeTextLength(b);
  }

  lemma NoColon(s: string)
    requires forall i :: 0 <= i < |s| ==> IsDigit(s[i]) || s[i] == '_' || 'a' <= s[i] <= 'z'
    ensures ':' !in s
  {
  }

  lemma NumberHasNoColon(n: nat)
    ensures ':' !in Decimal(n)
  {
    NumberOfDecimal(n);
    NumbersHaveDigits(Decimal(n));
    NoColon(Decimal(n));
  }

  lemma TypeHasNoColon(t: AlertType)
    ensures ':' !in TypeText(t)
  {
    assert t.ItemExpired? || t.ExpiringSoon? ==> ':' !in Prefix(t.item);
  }

  /** Different keys have different texts, so a set of texts stands for the set of keys. */
  lemma KeyTextsDiffer(a: AlertKey, b: AlertKey)
    ensures KeyText(a) == KeyText(b) <==> a == b
  {
    if KeyText(a) == KeyText(b) {
      FieldsOf(a);
      FieldsOf(b);
      var x := Split(KeyText(a), ':');
      assert x[0] == Decimal(a.carId) == Decimal(b.carId) && x[3] == Decimal(a.sourceId) == Decimal(b.sourceId);
      assert x[1] == TypeText(a.alertType) == TypeText(b.alertType) && x[2] == KindText(a.kind) == KindText(b.kind);
      NumberOfDecimal(a.carId);
      NumberOfDecimal(b.carId);
      NumberOfDecimal(a.sourceId);
      NumberOfDecimal(b.sourceId);
      TypeTextsDiffer(a.alertType, b.alertType);
      KindTextsDiffer(a.kind, b.kind);
    }
  }

  lemma KindTextsDiffer(a: SourceKind, b: SourceKind)
    requires KindText(a) == KindText(b)
    ensures a == b
  {
    assert KindText(ComplianceItem)[0] == 'c' && KindText(DamageReport)[0] == 'd';
  }

  lemma FieldsOf(key: AlertKey)
    ensures Split(KeyText(key), ':') == [Decimal(key.carId), TypeText(key.alertType), KindText(key.kind), Decimal(key.sourceId)]
  {
    NumberHasNoColon(key.carId);
    NumberHasNoColon(key.sourceId);
    TypeHasNoColon(key.alertType);
    assert ':' !in KindText(key.kind);
    SplitJoin([Decimal(key.carId), TypeText(key.alertType), KindText(key.kind), Decimal(key.sourceId)], ':');
  }

  // ---------- The statements ----------

  function ActiveAt(rows: Table, key: AlertKey): (k: Option<nat>)
    ensures k.Some? ==> k.value < |rows| && rows[k.value].active && rows[k.value].alert.key == key
    ensures k.None? ==> key !in ActiveKeys(rows)
  {
    if rows == [] then None
    else
      var n := |rows| - 1;
      if rows[n].active && rows[n].alert.key == key then Some(n) else ActiveAt(rows[..n], key)
  }

  /** INSERT … ON CONFLICT on the active key DO UPDATE. */
  function Upserted(rows: Table, a: Alert): Table {
    var k := ActiveAt(rows, a.key);
    if k.Some? then rows[k.value := StoredAlert(a, true)] else rows + [StoredAlert(a, true)]
  }

  function UpsertedAll(rows: Table, alerts: seq<Alert>): Table {
    if alerts == [] then rows else Upserted(UpsertedAll(rows, alerts[..|alerts| - 1]), alerts[|alerts| - 1])
  }

  /** Active alerts of cars that are not deleted, by id. */
  function Listed(rows: Table, deletedCars: set<nat>): set<nat> {
    set i: nat | i < |rows| && rows[i].active && rows[i].alert.key.carId !in deletedCars
  }

  function Unwarranted(rows: Table, keep: set<string>, deletedCars: set<nat>): set<nat> {
    set i: nat | i in Listed(rows, deletedCars) && KeyText(rows[i].alert.key) !in keep
  }

  function ResolvedRows(rows: Table, ids: set<nat>): (r: Table)
    ensures |r| == |rows|
    ensures forall i :: 0 <= i < |r| ==> r[i] == if i in ids then rows[i].(active := false) else rows[i]
  {
    seq(|rows|, i requires 0 <= i < |rows| => if i in ids then rows[i].(active := false) else rows[i])
  }

  function KeyTexts(alerts: seq<Alert>): set<string> {
    set i | 0 <= i < |alerts| :: KeyText(alerts[i].key)
  }

  function Keys(alerts: seq<Alert>): set<AlertKey> {
    set i | 0 <= i < |alerts| :: alerts[i].key
  }

  // ---------- The run ----------

  datatype Loaded<T> = Loaded(rows: seq<T>) | LoadFailed(error: DbError)

  /** How the database answers a run: loads, each upsert by its place, and the final resolve. */
  datatype Answers = Answers(
    compliance: Loaded<ComplianceRow>, damage: Loaded<DamageRow>,
    upsert: nat -> Option<DbError>, resolve: Option<DbError>)

  datatype Outcome = Outcome(upserted: nat, resolved: nat, desired: nat, skipped: bool)

  /** A table that is missing loads as empty. */
  function RowsOf<T>(loaded: Loaded<T>): seq<T> {
    if loaded.Loaded? then loaded.rows else []
  }

  predicate FatalLoad<T>(loaded: Loaded<T>) {
    loaded == LoadFailed(OtherError)
  }

  function DesiredOf(answers: Answers, today: string, parse: Parser): seq<Alert> {
    ForCompliance(RowsOf(answers.compliance), today, parse) + ForDamage(RowsOf(answers.damage))
  }

  /** The place of the first upsert to fail from a place on, or the end of the list. */
  function FirstFailure(n: nat, upsert: nat -> Option<DbError>, from: nat): (k: nat)
    requires from <= n
    ensures from <= k <= n && (forall i: nat :: from <= i < k ==> upsert(i).None?) && (k < n ==> upsert(k).Some?)
    decreases n - from
  {
    if from == n || upsert(from).Some? then from else FirstFailure(n, upsert, from + 1)
  }

  /** The run from its desired alerts on: upserts up to the first failure, and the resolve if there is none. */
  function Settle(
    rows: Table, deletedCars: set<nat>, desired: seq<Alert>, upsert: nat -> Option<DbError>, resolve: Option<DbError>)
    : (Table, Result<Outcome, DbError>)
  {
    var stop := FirstFailure(|desired|, upsert, 0);
    var stored := UpsertedAll(rows, desired[..stop]);
    if stop < |desired| then
      (stored, if upsert(stop) == Some(UndefinedTable) then Ok(Outcome(0, 0, |desired|, true)) else Err(OtherError))
    else
      var ids := Unwarranted(stored, KeyTexts(desired), deletedCars);
      match resolve
      case None => (ResolvedRows(stored, ids), Ok(Outcome(|desired|, |ids|, |desired|, false)))
      case Some(UndefinedTable) => (stored, Ok(Outcome(|desired|, 0, |desired|, false)))
      case Some(OtherError) => (stored, Err(OtherError))
  }

  /** What a run does to the table, and what it reports, by how the database answers. */
  function Reconcile(rows: Table, deletedCars: set<nat>, answers: Answers, today: string, parse: Parser)
    : (Table, Result<Outcome, DbError>)
  {
    if FatalLoad(answers.compliance) || FatalLoad(answers.damage) then (rows, Err(OtherError))
    else Settle(rows, deletedCars, DesiredOf(answers, today, parse), answers.upsert, answers.resolve)
  }

  method KeepKey(keepKeys: set<string>, desired: seq<Alert>, i: nat) returns (more: set<string>)
    requires i < |desired| && keepKeys == KeyTexts(desired[..i])
    ensures more == KeyTexts(desired[..i + 1])
  {
    KeyTextsGrow(desired, i);
    more := keepKeys + {KeyText(desired[i].key)};
  }

  class Store {
    var rows: Table
    var deletedCars: set<nat>

    constructor (initial: Table, deleted: set<nat>)
      ensures rows == initial && deletedCars == deleted
    {
      rows, deletedCars := initial, deleted;
    }

    method UpsertActive(a: Alert, failure: Option<DbError>) returns (r: Result<(), DbError>)
      modifies this`rows
      ensures r == if failure.Some? then Err(failure.value) else Ok(())
      ensures rows == if failure.Some? then old(rows) else Upserted(old(rows), a)
    {
      if failure.Some? {
        return Err(failure.value);
      }
      rows := Upserted(rows, a);
      r := Ok(());
    }

    method ResolveMissing(keepKeys: set<string>, failure: Option<DbError>) returns (r: Result<nat, DbError>)
      modifies this`rows
      ensures failure.Some? ==> r == Err(failure.value) && rows == old(rows)
      ensures failure.None? ==>
                && r == Ok(|Unwarranted(old(rows), keepKeys, deletedCars)|)
                && rows == ResolvedRows(old(rows), Unwarranted(old(rows), keepKeys, deletedCars))
    {
      if failure.Some? {
        return Err(failure.value);
      }
      var toResolve := Unwarranted(rows, keepKeys, deletedCars);
      rows := ResolvedRows(rows, toResolve);
      r := Ok(|toResolve|);
    }

    /** The loop over the desired alerts: it stops at the first that cannot be stored. */
    method UpsertDesired(desired: seq<Alert>, upsert: nat -> Option<DbError>)
      returns (r: Result<nat, DbError>, keepKeys: set<string>, ghost reached: nat)
      modifies this`rows
      ensures reached == FirstFailure(|desired|, upsert, 0) && rows == UpsertedAll(old(rows), desired[..reached])
      ensures r.Ok? <==> reached == |desired|
      ensures r.Ok? ==> r.value == |desired| && keepKeys == KeyTexts(desired)
      ensures r.Err? ==> upsert(reached) == Some(r.error)
    {
      keepKeys := {};
      var upserted := 0;
      reached := 0;
      for i := 0 to |desired|
        invariant reached == upserted == i && FirstFailure(|desired|, upsert, 0) == FirstFailure(|desired|, upsert, i)
        invariant rows == UpsertedAll(old(rows), desired[..i]) && keepKeys == KeyTexts(desired[..i])
      {
        keepKeys := KeepKey(keepKeys, desired, i);
        var stored := UpsertActive(desired[i], upsert(i));
        if stored.Err? {
          return Err(stored.error), keepKeys, i;
        }
        OneMore(old(rows), desired, i);
        upserted := upserted + 1;
        reached := i + 1;
      }
      assert desired[..|desired|] == desired;
      r := Ok(upserted);
    }

    method ReconcileFleetAlerts(answers: Answers, today: string, parse: Parser)
      returns (r: Result<Outcome, DbError>)
      modifies this`rows
      ensures (rows, r) == Reconcile(old(rows), deletedCars, answers, today, parse)
    {
      if FatalLoad(answers.compliance) || FatalLoad(answers.damage) {
        return Err(OtherError);
      }
      var desired := BuildDesiredAlerts(RowsOf(answers.compliance), RowsOf(answers.damage), today, parse);
      var stored, keepKeys, stop := UpsertDesired(desired, answers.upsert);
      if stored.Err? {
        return if stored.error == UndefinedTable then Ok(Outcome(0, 0, |desired|, true)) else Err(stored.error);
      }
      var resolved := 0;
      var done := ResolveMissing(keepKeys, answers.resolve);
      if done.Err? {
        if done.error != UndefinedTable {
          return Err(done.error);
        }
      } else {
        resolved := done.value;
      }
      r := Ok(Outcome(stored.value, resolved, |desired|, false));
    }
  }

  lemma OneMore(rows: Table, alerts: seq<Alert>, i: nat)
    requires i < |alerts|
    ensures UpsertedAll(rows, alerts[..i + 1]) == Upserted(UpsertedAll(rows, alerts[..i]), alerts[i])
  {
    assert alerts[..i + 1][..i] == alerts[..i];
  }

  lemma KeyTextsGrow(alerts: seq<Alert>, i: nat)
    requires i < |alerts|
    ensures KeyTexts(alerts[..i + 1]) == KeyTexts(alerts[..i]) + {KeyText(alerts[i].key)}
  {
    var longer := alerts[..i + 1];
    assert longer[..i] == alerts[..i] && longer[i] == alerts[i];
    forall t | t in KeyTexts(alerts[..i]) ensures t in KeyTexts(longer) {
      var k :| 0 <= k < i && KeyText(alerts[..i][k].key) == t;
      assert longer[k] == alerts[k];
    }
    forall t | t in KeyTexts(longer) ensures t in KeyTexts(alerts[..i]) || t == KeyText(alerts[i].key) {
      var k :| 0 <= k < i + 1 && KeyText(longer[k].key) == t;
      if k < i { assert alerts[..i][k] == longer[k]; }
    }
  }

  // ---------- What a run achieves ----------

  lemma UpsertedKeys(rows: Table, a: Alert)
    requires UniqueActive(rows)
    ensures UniqueActive(Upserted(rows, a)) && ActiveKeys(Upserted(rows, a)) == ActiveKeys(rows) + {a.key}
    ensures StoredAlert(a, true) in Upserted(rows, a)
  {
    var rows' := Upserted(rows, a);
    var k := ActiveAt(rows, a.key);
    if k.None? {
      assert forall i :: 0 <= i < |rows| && rows[i].active ==> rows[i].alert.key in ActiveKeys(rows);
      assert rows'[|rows|] == StoredAlert(a, true);
    } else {
      assert rows'[k.value] == StoredAlert(a, true);
    }
    forall key | key in ActiveKeys(rows) ensures key in ActiveKeys(rows') {
      var i :| 0 <= i < |rows| && rows[i].active && rows[i].alert.key == key;
      assert rows'[i].active && rows'[i].alert.key == key;
    }
  }

  lemma {:induction false} UpsertedAllKeys(rows: Table, alerts: seq<Alert>)
    requires UniqueActive(rows)
    ensures UniqueActive(UpsertedAll(rows, alerts)) && ActiveKeys(UpsertedAll(rows, alerts)) == ActiveKeys(rows) + Keys(alerts)
  {
    if alerts != [] {
      var n := |alerts| - 1;
      UpsertedAllKeys(rows, alerts[..n]);
      UpsertedKeys(UpsertedAll(rows, alerts[..n]), alerts[n]);
      KeysSplit(alerts);
    }
  }

  lemma KeysSplit(alerts: seq<Alert>)
    requires alerts != []
    ensures Keys(alerts) == Keys(alerts[..|alerts| - 1]) + {alerts[|alerts| - 1].key}
  {
    var n := |alerts| - 1;
    forall key | key in Keys(alerts[..n]) ensures key in Keys(alerts) {
      var i :| 0 <= i < n && alerts[..n][i].key == key;
      assert alerts[i].key == key;
    }
    forall key | key in Keys(alerts) ensures key in Keys(alerts[..n]) || key == alerts[n].key {
      var i :| 0 <= i < |alerts| && alerts[i].key == key;
      if i < n { assert alerts[..n][i].key == key; }
    }
  }

  /** A text is kept exactly when its key is desired. */
  lemma KeptIsDesired(alerts: seq<Alert>, key: AlertKey)
    ensures KeyText(key) in KeyTexts(alerts) <==> key in Keys(alerts)
  {
    if KeyText(key) in KeyTexts(alerts) {
      var i :| 0 <= i < |alerts| && KeyText(alerts[i].key) == KeyText(key);
      KeyTextsDiffer(alerts[i].key, key);
    }
  }

  /** The alerts that stay of an earlier store: those of deleted cars, which a run never lists. */
  function Ignored(rows: Table, deletedCars: set<nat>): set<AlertKey> {
    set key | key in ActiveKeys(rows) && key.carId in deletedCars
  }

  lemma ResolvedKeys(rows: Table, alerts: seq<Alert>, deletedCars: set<nat>)
    requires UniqueActive(rows)
    ensures var after := ResolvedRows(rows, Unwarranted(rows, KeyTexts(alerts), deletedCars));
            && UniqueActive(after)
            && ActiveKeys(after) == set key | key in ActiveKeys(rows) && (key.carId in deletedCars || key in Keys(alerts))
  {
    var ids := Unwarranted(rows, KeyTexts(alerts), deletedCars);
    var after := ResolvedRows(rows, ids);
    forall i: nat | i < |rows| && rows[i].active
      ensures i !in ids <==> rows[i].alert.key.carId in deletedCars || rows[i].alert.key in Keys(alerts)
    {
      KeptIsDesired(alerts, rows[i].alert.key);
    }
    forall key | key in ActiveKeys(rows) && (key.carId in deletedCars || key in Keys(alerts)) ensures key in ActiveKeys(after) {
      var i :| 0 <= i < |rows| && rows[i].active && rows[i].alert.key == key;
      assert after[i] == rows[i];
    }
  }

  /** The table after a run in which nothing failed. */
  function Reconciled(rows: Table, desired: seq<Alert>, deletedCars: set<nat>): Table {
    var full := UpsertedAll(rows, desired);
    ResolvedRows(full, Unwarranted(full, KeyTexts(desired), deletedCars))
  }

  /**
   * After a run in which nothing failed, whatever was in the store before, the active alerts are exactly the
   * desired ones, besides those of deleted cars that were active already.
   */
  lemma ReconcileReachesDesired(rows: Table, desired: seq<Alert>, deletedCars: set<nat>)
    requires UniqueActive(rows)
    ensures UniqueActive(Reconciled(rows, desired, deletedCars))
    ensures ActiveKeys(Reconciled(rows, desired, deletedCars)) == Keys(desired) + Ignored(rows, deletedCars)
  {
    UpsertedAllKeys(rows, desired);
    ResolvedKeys(UpsertedAll(rows, desired), desired, deletedCars);
  }

  predicate DistinctKeys(alerts: seq<Alert>) {
    forall i, j :: 0 <= i < j < |alerts| ==> alerts[i].key != alerts[j].key
  }

  lemma UpsertedKeeps(rows: Table, a: Alert, x: StoredAlert)
    requires x in rows && x.alert.key != a.key
    ensures x in Upserted(rows, a)
  {
    var i :| 0 <= i < |rows| && rows[i] == x;
    assert Upserted(rows, a)[i] == x;
  }

  /** Every desired alert is stored with its own content. */
  lemma {:induction false} DesiredAreStored(rows: Table, alerts: seq<Alert>, k: nat)
    requires UniqueActive(rows) && DistinctKeys(alerts) && k < |alerts|
    ensures StoredAlert(alerts[k], true) in UpsertedAll(rows, alerts)
  {
    var n := |alerts| - 1;
    UpsertedAllKeys(rows, alerts[..n]);
    UpsertedKeys(UpsertedAll(rows, alerts[..n]), alerts[n]);
    if k < n {
      DesiredAreStored(rows, alerts[..n], k);
      UpsertedKeeps(UpsertedAll(rows, alerts[..n]), alerts[n], StoredAlert(alerts[k], true));
    }
  }

  lemma UpsertOfStored(rows: Table, a: Alert)
    requires UniqueActive(rows) && StoredAlert(a, true) in rows
    ensures Upserted(rows, a) == rows
  {
    var i :| 0 <= i < |rows| && rows[i] == StoredAlert(a, true);
    assert a.key in ActiveKeys(rows);
    var k := ActiveAt(rows, a.key).value;
    assert k == i;
    assert rows[k := StoredAlert(a, true)] == rows;
  }

  lemma {:induction false} UpsertsOfStored(rows: Table, alerts: seq<Alert>)
    requires UniqueActive(rows) && forall k :: 0 <= k < |alerts| ==> StoredAlert(alerts[k], true) in rows
    ensures UpsertedAll(rows, alerts) == rows
  {
    if alerts != [] {
      UpsertsOfStored(rows, alerts[..|alerts| - 1]);
      UpsertOfStored(rows, alerts[|alerts| - 1]);
    }
  }

  lemma StoredSurvive(rows: Table, desired: seq<Alert>, deletedCars: set<nat>, k: nat)
    requires k < |desired| && StoredAlert(desired[k], true) in rows
    ensures StoredAlert(desired[k], true) in ResolvedRows(rows, Unwarranted(rows, KeyTexts(desired), deletedCars))
  {
    var ids := Unwarranted(rows, KeyTexts(desired), deletedCars);
    var i :| 0 <= i < |rows| && rows[i] == StoredAlert(desired[k], true);
    assert KeyText(desired[k].key) in KeyTexts(desired);
    assert i !in ids;
    assert ResolvedRows(rows, ids)[i] == rows[i];
  }

  /** A second run with the same desired alerts resolves nothing and changes no alert at all. */
  lemma SecondRunIsIdle(rows: Table, desired: seq<Alert>, deletedCars: set<nat>)
    requires UniqueActive(rows) && DistinctKeys(desired)
    ensures var once := Reconciled(rows, desired, deletedCars);
            && Unwarranted(UpsertedAll(once, desired), KeyTexts(desired), deletedCars) == {}
            && Reconciled(once, desired, deletedCars) == once
  {
    var full := UpsertedAll(rows, desired);
    var once := Reconciled(rows, desired, deletedCars);
    ReconcileReachesDesired(rows, desired, deletedCars);
    forall k: nat | k < |desired| ensures StoredAlert(desired[k], true) in once {
      DesiredAreStored(rows, desired, k);
      StoredSurvive(full, desired, deletedCars, k);
    }
    UpsertsOfStored(once, desired);
    forall i: nat | i < |once| && once[i].active && once[i].alert.key.carId !in deletedCars
      ensures KeyText(once[i].alert.key) in KeyTexts(desired)
    {
      assert once[i].alert.key in ActiveKeys(once);
      KeptIsDesired(desired, once[i].alert.key);
    }
    assert Unwarranted(once, KeyTexts(desired), deletedCars) == {};
  }

  // ---------- Desired alerts have distinct keys ----------

  predicate DistinctItems(rows: seq<ComplianceRow>) {
    forall i, j :: 0 <= i < j < |rows| ==> rows[i].id != rows[j].id
  }

  predicate DistinctReports(rows: seq<DamageRow>) {
    forall i, j :: 0 <= i < j < |rows| ==> rows[i].id != rows[j].id
  }

  /** Alerts of compliance rows come from those rows. */
  lemma {:induction false} ComplianceSources(rows: seq<ComplianceRow>, today: string, parse: Parser)
    ensures forall a :: a in ForCompliance(rows, today, parse) ==>
              a.key.kind == ComplianceItem && exists i :: 0 <= i < |rows| && rows[i].id == a.key.sourceId
  {
    if rows != [] {
      var n := |rows| - 1;
      ComplianceSources(rows[..n], today, parse);
      forall a | a in ForCompliance(rows[..n], today, parse) ensures exists i :: 0 <= i < |rows| && rows[i].id == a.key.sourceId {
        var i :| 0 <= i < n && rows[..n][i].id == a.key.sourceId;
        assert rows[i].id == a.key.sourceId;
      }
    }
  }

  lemma {:induction false} ComplianceKeysDistinct(rows: seq<ComplianceRow>, today: string, parse: Parser)
    requires DistinctItems(rows)
    ensures DistinctKeys(ForCompliance(rows, today, parse))
  {
    if rows != [] {
      var n := |rows| - 1;
      var front := ForCompliance(rows[..n], today, parse);
      ComplianceKeysDistinct(rows[..n], today, parse);
      ComplianceSources(rows[..n], today, parse);
      forall i | 0 <= i < |front| ensures front[i].key.sourceId != rows[n].id {
        assert front[i] in front;
        var j :| 0 <= j < n && rows[..n][j].id == front[i].key.sourceId;
      }
    }
  }

  /** With row ids distinct, as primary keys are, no two desired alerts share a key. */
  lemma DesiredKeysDistinct(compliance: seq<ComplianceRow>, damage: seq<DamageRow>, today: string, parse: Parser)
    requires DistinctItems(compliance) && DistinctReports(damage)
    ensures DistinctKeys(ForCompliance(compliance, today, parse) + ForDamage(damage))
  {
    ComplianceSources(compliance, today, parse);
    ComplianceKeysDistinct(compliance, today, parse);
    assert forall a :: a in ForCompliance(compliance, today, parse) ==> a.key.kind == ComplianceItem;
  }

  // ---------- Whole runs ----------

  lemma SettledOutcome(
      rows: Table, deletedCars: set<nat>, desired: seq<Alert>, upsert: nat -> Option<DbError>, resolve: Option<DbError>)
    requires UniqueActive(rows)
    ensures var (after, r) := Settle(rows, deletedCars, desired, upsert, resolve);
            r.Ok? && !r.value.skipped ==>
              && UniqueActive(after) && r.value.upserted == r.value.desired == |desired|
              && ActiveKeys(after) == Keys(desired) + (if resolve.None? then Ignored(rows, deletedCars) else ActiveKeys(rows))
  {
    assert desired[..|desired|] == desired;
    if resolve.None? {
      ReconcileReachesDesired(rows, desired, deletedCars);
    } else {
      UpsertedAllKeys(rows, desired);
    }
  }

  /**
   * A run that reports success and was not skipped: with the resolve done the active keys are the desired ones
   * and those of deleted cars; if the resolve met a missing table they are the old and the desired ones.
   */
  lemma RunOutcome(rows: Table, deletedCars: set<nat>, answers: Answers, today: string, parse: Parser)
    requires UniqueActive(rows)
    ensures var (after, r) := Reconcile(rows, deletedCars, answers, today, parse);
            var desired := DesiredOf(answers, today, parse);
            r.Ok? && !r.value.skipped ==>
              && UniqueActive(after) && r.value.upserted == r.value.desired == |desired|
              && ActiveKeys(after) == Keys(desired)
                                      + (if answers.resolve.None? then Ignored(rows, deletedCars) else ActiveKeys(rows))
  {
    SettledOutcome(rows, deletedCars, DesiredOf(answers, today, parse), answers.upsert, answers.resolve);
  }

  lemma ComplianceKind(rows: seq<ComplianceRow>, damage: seq<DamageRow>, today: string, parse: Parser, key: AlertKey)
    requires rows == [] && key in Keys(ForCompliance(rows, today, parse) + ForDamage(damage))
    ensures key.kind == DamageReport
  {
  }

  /**
   * A run whose compliance load meets a missing table takes every compliance alert for settled: if it then
   * succeeds, none of a car on file is active any more.
   */
  lemma MissingTableResolvesAll(rows: Table, deletedCars: set<nat>, answers: Answers, today: string, parse: Parser, key: AlertKey)
    requires UniqueActive(rows) && answers.compliance == LoadFailed(UndefinedTable) && answers.resolve.None?
    requires var (after, r) := Reconcile(rows, deletedCars, answers, today, parse);
             r.Ok? && !r.value.skipped && key in ActiveKeys(after)
    ensures key.kind == ComplianceItem ==> key.carId in deletedCars
  {
    RunOutcome(rows, deletedCars, answers, today, parse);
    if key in Keys(DesiredOf(answers, today, parse)) {
      ComplianceKind([], RowsOf(answers.damage), today, parse, key);
    }
  }

  // ---------- Errors, reports and history ----------

  /** A load that fails with anything but a missing table ends the run in that error, with nothing written. */
  lemma FailedLoadStops(rows: Table, deletedCars: set<nat>, answers: Answers, today: string, parse: Parser)
    requires answers.compliance == LoadFailed(OtherError) || answers.damage == LoadFailed(OtherError)
    ensures Reconcile(rows, deletedCars, answers, today, parse) == (rows, Err(OtherError))
  {
  }

  /** An error otherwise comes from an upsert or from the resolve, and then no alert has been resolved. */
  lemma ErrorsResolveNothing(rows: Table, deletedCars: set<nat>, answers: Answers, today: string, parse: Parser)
    requires UniqueActive(rows)
    ensures var (after, r) := Reconcile(rows, deletedCars, answers, today, parse);
            r.Err? || r.value.skipped ==> UniqueActive(after) && ActiveKeys(rows) <= ActiveKeys(after)
  {
    var desired := DesiredOf(answers, today, parse);
    var stop := FirstFailure(|desired|, answers.upsert, 0);
    UpsertedAllKeys(rows, desired[..stop]);
  }

  lemma UpsertedFrame(rows: Table, a: Alert)
    ensures |rows| <= |Upserted(rows, a)|
    ensures forall i :: 0 <= i < |rows| ==>
              Upserted(rows, a)[i] == rows[i]
              || (rows[i].active && rows[i].alert.key == a.key && Upserted(rows, a)[i] == StoredAlert(a, true))
  {
  }

  /** Upserts leave alone every alert that is resolved already or whose key they do not name. */
  lemma {:induction false} UpsertedAllFrame(rows: Table, alerts: seq<Alert>, i: nat)
    requires i < |rows|
    ensures i < |UpsertedAll(rows, alerts)|
    ensures !rows[i].active || rows[i].alert.key !in Keys(alerts) ==> UpsertedAll(rows, alerts)[i] == rows[i]
    ensures UpsertedAll(rows, alerts)[i].active == rows[i].active
         && UpsertedAll(rows, alerts)[i].alert.key == rows[i].alert.key
  {
    if alerts != [] {
      var n := |alerts| - 1;
      UpsertedAllFrame(rows, alerts[..n], i);
      UpsertedFrame(UpsertedAll(rows, alerts[..n]), alerts[n]);
      KeysSplit(alerts);
    }
  }

  /**
   * What a good run does to each alert of the earlier store: one that was resolved stays as it was, one that is
   * desired stays active, one of a deleted car stays as it was, and any other is resolved with its content kept.
   */
  lemma HistoryIsKept(rows: Table, desired: seq<Alert>, deletedCars: set<nat>, i: nat)
    requires i < |rows|
    ensures var after := Reconciled(rows, desired, deletedCars);
            && i < |after|
            && (!rows[i].active ==> after[i] == rows[i])
            && (rows[i].active && rows[i].alert.key in Keys(desired) ==> after[i].active && after[i].alert.key == rows[i].alert.key)
            && (rows[i].active && rows[i].alert.key !in Keys(desired) ==>
                  after[i] == StoredAlert(rows[i].alert, rows[i].alert.key.carId in deletedCars))
  {
    UpsertedAllFrame(rows, desired, i);
    KeptIsDesired(desired, rows[i].alert.key);
  }

  /** The stored names of the alert types are those that the table allows. */
  lemma TypeTextsAre()
    ensures TypeText(ItemExpired(CivilInsurance)) == "insurance_expired" && TypeText(ExpiringSoon(CivilInsurance)) == "insurance_expiring_soon"
    ensures TypeText(ItemExpired(Casco)) == "casco_expired" && TypeText(ExpiringSoon(Casco)) == "casco_expiring_soon"
    ensures TypeText(ItemExpired(Vignette)) == "vignette_expired" && TypeText(ExpiringSoon(Vignette)) == "vignette_expiring_soon"
    ensures TypeText(ItemExpired(TechnicalInspection)) == "inspection_expired"
    ensures TypeText(ExpiringSoon(TechnicalInspection)) == "inspection_expiring_soon"
    ensures TypeText(UnresolvedDamage) == "unresolved_damage"
    ensures KindText(ComplianceItem) == "compliance_item" && KindText(DamageReport) == "damage_report"
  {
  }

  /** The count that a good run reports is that of the alerts it turns from active to resolved. */
  lemma ResolvedAreCounted(rows: Table, desired: seq<Alert>, deletedCars: set<nat>)
    ensures var full, after := UpsertedAll(rows, desired), Reconciled(rows, desired, deletedCars);
            |after| == |full|
            && Unwarranted(full, KeyTexts(desired), deletedCars) == set i: nat | i < |full| && full[i].active && !after[i].active
  {
  }

  /** The first upsert to fail is the k-th. */
  ghost predicate FailsFirstAt(upsert: nat -> Option<DbError>, n: nat, k: nat, error: DbError) {
    k < n && upsert(k) == Some(error) && forall j: nat :: j < k ==> upsert(j) == None
  }

  /** What a run reports, by what failed: an error, that it was skipped, or how much it stored and resolved. */
  lemma ReportedExactly(rows: Table, deletedCars: set<nat>, answers: Answers, today: string, parse: Parser)
    ensures var (after, r) := Reconcile(rows, deletedCars, answers, today, parse);
            var loaded := answers.compliance != LoadFailed(OtherError) && answers.damage != LoadFailed(OtherError);
            var n := |DesiredOf(answers, today, parse)|;
            var stored := forall k: nat :: k < n ==> answers.upsert(k) == None;
            && (r.Ok? && r.value.skipped <==> loaded && exists k: nat :: FailsFirstAt(answers.upsert, n, k, UndefinedTable))
            && (r.Ok? && !r.value.skipped <==> loaded && stored && answers.resolve != Some(OtherError))
            && (r.Ok? && r.value.skipped ==> r.value == Outcome(0, 0, n, true))
            && (r.Ok? && !r.value.skipped && answers.resolve == Some(UndefinedTable) ==> r.value == Outcome(n, 0, n, false))
            && (r.Err? ==> r.error == OtherError)
  {
    var desired := DesiredOf(answers, today, parse);
    var stop := FirstFailure(|desired|, answers.upsert, 0);
    if stop < |desired| {
      assert FailsFirstAt(answers.upsert, |desired|, stop, answers.upsert(stop).value);
    }
  }

  /** A run in which nothing fails leaves the reconciled table, and reports how many alerts it turned from active to resolved. */
  lemma GoodRun(rows: Table, deletedCars: set<nat>, answers: Answers, today: string, parse: Parser)
    requires answers.compliance.Loaded? && answers.damage.Loaded? && answers.resolve == None
    requires forall k: nat :: answers.upsert(k) == None
    ensures var desired := ForCompliance(answers.compliance.rows, today, parse) + ForDamage(answers.damage.rows);
            var (after, r) := Reconcile(rows, deletedCars, answers, today, parse);
            var full := UpsertedAll(rows, desired);
            && after == Reconciled(rows, desired, deletedCars) && |after| == |full|
            && r == Ok(Outcome(|desired|, |set i: nat | i < |full| && full[i].active && !after[i].active|, |desired|, false))
  {
    var desired := DesiredOf(answers, today, parse);
    SettledWell(rows, deletedCars, desired, answers.upsert);
    ResolvedAreCounted(rows, desired, deletedCars);
  }

  lemma SettledWell(rows: Table, deletedCars: set<nat>, desired: seq<Alert>, upsert: nat -> Option<DbError>)
    requires forall k: nat :: upsert(k) == None
    ensures var ids := Unwarranted(UpsertedAll(rows, desired), KeyTexts(desired), deletedCars);
            Settle(rows, deletedCars, desired, upsert, None)
            == (Reconciled(rows, desired, deletedCars), Ok(Outcome(|desired|, |ids|, |desired|, false)))
  {
    assert desired[..|desired|] == desired;
  }
}
