/**
 * Which fleet alerts are due on a day: compliance rows with an expiry date, and unresolved damage.
 * Days are texts YYYY-MM-DD; the date parser of the engine is a parameter, `parse`, known on well-formed days.
 */
module FleetAlerts {
  import opened Results
  import opened Text
  import opened Gregorian

  const FLEET_ALERT_EXPIRY_WINDOW_DAYS: int := 7

  datatype ItemType = CivilInsurance | Casco | Vignette | TechnicalInspection | Untracked
  datatype ComplianceStatus = Valid | StatusExpired | Missing

  const DAY_MS: int := 86400000

  /** The expiry column as a caller gives it: nothing, a text, or a date object, that is an instant in milliseconds. */
  datatype Expiry = NoExpiry | ExpiryText(text: string) | ExpiryInstant(ms: int)

  datatype ComplianceRow = ComplianceRow(id: nat, carId: nat, item: ItemType, expires: Expiry, status: ComplianceStatus)
  datatype DamageRow = DamageRow(id: nat, carId: nat)

  datatype AlertType = ItemExpired(item: ItemType) | ExpiringSoon(item: ItemType) | UnresolvedDamage
  datatype SourceKind = ComplianceItem | DamageReport
  datatype AlertKey = AlertKey(carId: nat, alertType: AlertType, kind: SourceKind, sourceId: nat)
  datatype Severity = Critical | Warning

  /** An alert; `date` and `daysUntil` are its metadata. */
  datatype Alert = Alert(key: AlertKey, severity: Severity, date: Option<string>, daysUntil: Option<int>)

  /** The day number of a text, if it is a date. */
  type Parser = string -> Option<int>

  predicate WrittenDate(d: Date) {
    ValidDate(d) && 0 <= d.year <= 9999
  }

  /** YYYY-MM-DD */
  function DayText(d: Date): string
    requires WrittenDate(d)
  {
    PadTwo(d.year / 100) + (PadTwo(d.year % 100) + ("-" + (PadTwo(d.month) + ("-" + PadTwo(d.day)))))
  }

  /** The first ten characters of toISOString: years outside 0 to 9999 have a sign and six digits. */
  function IsoDay(ms: int): string {
    var d := FromDayNumber(ms / DAY_MS);
    if WrittenDate(d) then DayText(d)
    else
      var year := if d.year < 0 then -d.year else d.year;
      (if d.year < 0 then "-" else "+") + PadTwo(year / 10000) + PadTwo(year / 100 % 100) + PadTwo(year % 100) + "-" + PadTwo(d.month)
  }

  function ToDateOnly(value: Expiry): Option<string> {
    match value
    case NoExpiry => None
    case ExpiryInstant(ms) => Some(IsoDay(ms))
    case ExpiryText(text) => if text == "" then None else if |text| >= 10 then Some(text[..10]) else Some(text)
  }

  function DaysUntilExpiry(today: string, expires: string, parse: Parser): Option<int> {
    if parse(today).None? || parse(expires).None? then None else Some(parse(expires).value - parse(today).value)
  }

  function DesiredFromCompliance(row: ComplianceRow, today: string, parse: Parser): Option<Alert> {
    if row.item.Untracked? then None
    else
      var expires := ToDateOnly(row.expires);
      if row.status.Missing? then None
      else if row.status.StatusExpired? || (expires.Some? && StringLess(expires.value, today)) then
        Some(Alert(AlertKey(row.carId, ItemExpired(row.item), ComplianceItem, row.id), Critical, expires, None))
      else if expires.Some? then
        var days := DaysUntilExpiry(today, expires.value, parse);
        if days.Some? && 0 <= days.value <= FLEET_ALERT_EXPIRY_WINDOW_DAYS then
          Some(Alert(AlertKey(row.carId, ExpiringSoon(row.item), ComplianceItem, row.id), Warning, expires, days))
        else None
      else None
  }

  function DesiredFromDamage(row: DamageRow): Alert {
    Alert(AlertKey(row.carId, UnresolvedDamage, DamageReport, row.id), Warning, None, None)
  }

  function ForCompliance(rows: seq<ComplianceRow>, today: string, parse: Parser): seq<Alert> {
    if rows == [] then []
    else
      var n := |rows| - 1;
      var alert := DesiredFromCompliance(rows[n], today, parse);
      ForCompliance(rows[..n], today, parse) + if alert.Some? then [alert.value] else []
  }

  function ForDamage(rows: seq<DamageRow>): (alerts: seq<Alert>)
    ensures |alerts| == |rows| && forall i :: 0 <= i < |rows| ==> alerts[i] == DesiredFromDamage(rows[i])
  {
    seq(|rows|, i requires 0 <= i < |rows| => DesiredFromDamage(rows[i]))
  }

  method BuildDesiredAlerts(complianceRows: seq<ComplianceRow>, damageRows: seq<DamageRow>, today: string, parse: Parser)
    returns (desired: seq<Alert>)
    ensures desired == ForCompliance(complianceRows, today, parse) + ForDamage(damageRows)
  {
    desired := [];
    for i := 0 to |complianceRows|
      invariant desired == ForCompliance(complianceRows[..i], today, parse)
    {
      assert complianceRows[..i + 1][..i] == complianceRows[..i];
      var alert := DesiredFromCompliance(complianceRows[i], today, parse);
      if alert.Some? {
        desired := desired + [alert.value];
      }
    }
    assert complianceRows[..|complianceRows|] == complianceRows;
    for i := 0 to |damageRows|
      invariant desired == ForCompliance(complianceRows, today, parse) + ForDamage(damageRows)[..i]
    {
      desired := desired + [DesiredFromDamage(damageRows[i])];
    }
  }

  /** Some row asks for the alert. */
  predicate Asks(rows: seq<ComplianceRow>, today: string, parse: Parser, a: Alert) {
    exists i :: 0 <= i < |rows| && DesiredFromCompliance(rows[i], today, parse) == Some(a)
  }

  lemma AsksSplit(rows: seq<ComplianceRow>, today: string, parse: Parser, a: Alert)
    requires rows != []
    ensures Asks(rows, today, parse, a) <==>
              Asks(rows[..|rows| - 1], today, parse, a) || DesiredFromCompliance(rows[|rows| - 1], today, parse) == Some(a)
  {
    var n := |rows| - 1;
    if Asks(rows[..n], today, parse, a) {
      var i :| 0 <= i < n && DesiredFromCompliance(rows[..n][i], today, parse) == Some(a);
      assert rows[i] == rows[..n][i];
    }
    if i :| 0 <= i < n && DesiredFromCompliance(rows[i], today, parse) == Some(a) {
      assert rows[..n][i] == rows[i];
    }
  }

  /** Exactly the alerts that some row asks for. */
  lemma {:induction false} ForComplianceContents(rows: seq<ComplianceRow>, today: string, parse: Parser, a: Alert)
    ensures a in ForCompliance(rows, today, parse) <==> Asks(rows, today, parse, a)
  {
    if rows != [] {
      ForComplianceContents(rows[..|rows| - 1], today, parse, a);
      AsksSplit(rows, today, parse, a);
    }
  }

  // ---------- Days as texts ----------

  lemma TwoDigitsLess(a: nat, b: nat, x: string, y: string)
    requires a < 100 && b < 100
    ensures StringLess(PadTwo(a) + x, PadTwo(b) + y) <==> a < b || (a == b && StringLess(x, y))
  {
    PadTwoDigits(a);
    PadTwoDigits(b);
    var s, t := PadTwo(a) + x, PadTwo(b) + y;
    assert s[1..][1..] == x && t[1..][1..] == y;
    assert StringLess(s, t) <==> s[0] < t[0] || (s[0] == t[0] && StringLess(s[1..], t[1..]));
    assert StringLess(s[1..], t[1..]) <==> s[1] < t[1] || (s[1] == t[1] && StringLess(x, y));
    DigitsLess(a, b);
  }

  /** Two numbers below a hundred compare as their digits do. */
  lemma DigitsLess(a: nat, b: nat)
    requires a < 100 && b < 100
    ensures a < b <==> a / 10 < b / 10 || (a / 10 == b / 10 && a % 10 < b % 10)
    ensures DigitChar(a / 10) < DigitChar(b / 10) <==> a / 10 < b / 10
    ensures DigitChar(a % 10) < DigitChar(b % 10) <==> a % 10 < b % 10
    ensures DigitChar(a / 10) == DigitChar(b / 10) <==> a / 10 == b / 10
  {
  }

  lemma YearsLess(a: nat, b: nat)
    requires a <= 9999 && b <= 9999
    ensures a < b <==> a / 100 < b / 100 || (a / 100 == b / 100 && a % 100 < b % 100)
    ensures a / 100 < 100 && b / 100 < 100
  {
  }

  lemma DashLess(x: string, y: string)
    ensures StringLess("-" + x, "-" + y) <==> StringLess(x, y)
  {
    StringLessAfterPrefix("-", x, y);
  }

  lemma LastDigitsLess(a: nat, b: nat)
    requires a < 100 && b < 100
    ensures StringLess(PadTwo(a), PadTwo(b)) <==> a < b
  {
    TwoDigitsLess(a, b, "", "");
    assert PadTwo(a) + "" == PadTwo(a) && PadTwo(b) + "" == PadTwo(b);
  }

  lemma MonthDayLess(m: nat, d: nat, n: nat, e: nat)
    requires m < 100 && d < 100 && n < 100 && e < 100
    ensures StringLess("-" + (PadTwo(m) + ("-" + PadTwo(d))), "-" + (PadTwo(n) + ("-" + PadTwo(e)))) <==> m < n || (m == n && d < e)
  {
    LastDigitsLess(d, e);
    DashLess(PadTwo(d), PadTwo(e));
    TwoDigitsLess(m, n, "-" + PadTwo(d), "-" + PadTwo(e));
    DashLess(PadTwo(m) + ("-" + PadTwo(d)), PadTwo(n) + ("-" + PadTwo(e)));
  }

  /** Comparing the texts of two days compares the days: the sign of the difference of their day numbers. */
  lemma TextsCompareAsDays(a: Date, b: Date)
    requires WrittenDate(a) && WrittenDate(b)
    ensures StringLess(DayText(a), DayText(b)) <==> DayNumber(a) < DayNumber(b)
  {
    var restA := "-" + (PadTwo(a.month) + ("-" + PadTwo(a.day)));
    var restB := "-" + (PadTwo(b.month) + ("-" + PadTwo(b.day)));
    MonthDayLess(a.month, a.day, b.month, b.day);
    YearsLess(a.year, b.year);
    TwoDigitsLess(a.year % 100, b.year % 100, restA, restB);
    TwoDigitsLess(a.year / 100, b.year / 100, PadTwo(a.year % 100) + restA, PadTwo(b.year % 100) + restB);
    DaysOrderDates(a, b);
  }

  lemma DayTextLength(d: Date)
    requires WrittenDate(d)
    ensures |DayText(d)| == 10
  {
    PadTwoDigits(d.year / 100);
    PadTwoDigits(d.year % 100);
    PadTwoDigits(d.month);
    PadTwoDigits(d.day);
  }

  /** What is kept of a text: all of it up to ten characters, and nothing of an empty one. */
  lemma DateOnlyKeeps(text: string)
    ensures ToDateOnly(ExpiryText(text)) == None <==> text == ""
    ensures text != "" ==>
              var kept := ToDateOnly(ExpiryText(text)).value;
              kept <= text && |kept| == if |text| < 10 then |text| else 10
  {
  }

  /** The day of a date object: of the years 0 to 9999 as the text of its date. */
  lemma IsoDayIs(ms: int, d: Date)
    requires FromDayNumber(ms / 86400000) == d && 0 <= d.year <= 9999
    ensures IsoDay(ms) == DayText(d)
  {
  }

  /** Of any other year: a sign, six digits of the year, and the month. */
  lemma IsoDayExpanded(ms: int, d: Date)
    requires FromDayNumber(ms / 86400000) == d && (-999999 <= d.year < 0 || 10000 <= d.year <= 999999)
    ensures var text, year := IsoDay(ms), if d.year < 0 then -d.year else d.year;
            && |text| == 10 && text[0] == (if d.year < 0 then '-' else '+')
            && Number(text[1..3]) == Some(year / 10000) && Number(text[3..5]) == Some(year / 100 % 100)
            && Number(text[5..7]) == Some(year % 100) && text[7] == '-' && Number(text[8..]) == Some(d.month)
  {
    var year := if d.year < 0 then -d.year else d.year;
    var a, b, c, m := PadTwo(year / 10000), PadTwo(year / 100 % 100), PadTwo(year % 100), PadTwo(d.month);
    PadTwoDigits(year / 10000);
    PadTwoDigits(year / 100 % 100);
    PadTwoDigits(year % 100);
    PadTwoDigits(d.month);
    NumberOfPadTwo(year / 10000);
    NumberOfPadTwo(year / 100 % 100);
    NumberOfPadTwo(year % 100);
    NumberOfPadTwo(d.month);
    var text := (if d.year < 0 then "-" else "+") + a + b + c + "-" + m;
    assert text[1..3] == a && text[3..5] == b && text[5..7] == c && text[8..] == m;
  }

  // ---------- Classification ----------

  /** The parser knows every well-formed day; of other texts nothing is assumed. */
  ghost predicate ParsesDays(parse: Parser) {
    forall d: Date :: WrittenDate(d) ==> parse(DayText(d)) == Some(DayNumber(d))
  }

  /** The day that the service reads from the column: the one a text begins with, or the UTC day of a date object. */
  ghost predicate ExpiresOn(row: ComplianceRow, d: Date) {
    WrittenDate(d) && match row.expires
                      case NoExpiry => false
                      case ExpiryText(text) => DayText(d) <= text
                      case ExpiryInstant(ms) => FromDayNumber(ms / DAY_MS) == d
  }

  lemma DateOnly(row: ComplianceRow, d: Date)
    requires ExpiresOn(row, d)
    ensures ToDateOnly(row.expires) == Some(DayText(d))
  {
    DayTextLength(d);
    if row.expires.ExpiryText? { assert row.expires.text[..10] == DayText(d); }
  }

  // ---------- Days from the database driver ----------

  /** A DATE column reaches the service as midnight of its day in the zone of the process, so many minutes east. */
  function LocalMidnight(d: Date, eastMinutes: int): Expiry
    requires ValidDate(d)
  {
    ExpiryInstant(DayNumber(d) * DAY_MS - eastMinutes * 60000)
  }

  /**
   * The day that is read back is the column's own iff the process runs at or west of Greenwich; east of it,
   * it is the day before.
   */
  lemma DriverDay(row: ComplianceRow, d: Date, eastMinutes: int)
    requires ValidDate(d) && row.expires == LocalMidnight(d, eastMinutes) && -1440 < eastMinutes < 1440
    requires WrittenDate(d) && WrittenDate(FromDayNumber(DayNumber(d) - 1))
    ensures ExpiresOn(row, d) <==> eastMinutes <= 0
    ensures eastMinutes > 0 ==> ExpiresOn(row, FromDayNumber(DayNumber(d) - 1))
  {
    var n := DayNumber(d);
    MidnightDay(n, eastMinutes);
    RoundTrip(d);
    NumberOfDate(n - 1);
  }

  lemma MidnightDay(n: int, eastMinutes: int)
    requires -1440 < eastMinutes < 1440
    ensures (n * DAY_MS - eastMinutes * 60000) / DAY_MS == if eastMinutes <= 0 then n else n - 1
  {
    var ms := n * DAY_MS - eastMinutes * 60000;
    var q := if eastMinutes <= 0 then n else n - 1;
    assert q * DAY_MS <= ms < (q + 1) * DAY_MS;
  }

  /** No alert, a warning, or a critical one. */
  function Rank(alert: Option<Alert>): int {
    if alert.None? then 0 else if alert.value.severity.Warning? then 1 else 2
  }

  /**
   * A tracked row that is on file and expires on a day alerts by the days left alone: critical when the
   * status says expired or none are left, a warning with the exact count up to a week, silent beyond.
   */
  lemma Classified(row: ComplianceRow, d: Date, today: Date, parse: Parser)
    requires ParsesDays(parse) && WrittenDate(today) && ExpiresOn(row, d)
    requires !row.item.Untracked? && !row.status.Missing?
    ensures var days := DayNumber(d) - DayNumber(today);
            var alert := DesiredFromCompliance(row, DayText(today), parse);
            && (Rank(alert) == 2 <==> row.status.StatusExpired? || days < 0)
            && (Rank(alert) == 1 <==> !row.status.StatusExpired? && 0 <= days <= 7)
            && (Rank(alert) == 2 ==> alert == Some(Alert(
                  AlertKey(row.carId, ItemExpired(row.item), ComplianceItem, row.id), Critical, Some(DayText(d)), None)))
            && (Rank(alert) == 1 ==> alert == Some(Alert(
                  AlertKey(row.carId, ExpiringSoon(row.item), ComplianceItem, row.id), Warning, Some(DayText(d)), Some(days))))
  {
    DateOnly(row, d);
    TextsCompareAsDays(d, today);
  }

  /** Without an expiry day only the status counts; an untracked item or a missing paper never alerts. */
  lemma ClassifiedWithoutDay(row: ComplianceRow, today: string, parse: Parser)
    requires ToDateOnly(row.expires) == None
    ensures DesiredFromCompliance(row, today, parse)
         == if row.item.Untracked? || !row.status.StatusExpired? then None
            else Some(Alert(AlertKey(row.carId, ItemExpired(row.item), ComplianceItem, row.id), Critical, None, None))
    ensures row.item.Untracked? || row.status.Missing? ==> DesiredFromCompliance(row, today, parse) == None
  {
  }

  /** East of Greenwich a valid paper whose column names today is already critical on its last day. */
  lemma EastExpiresEarly(row: ComplianceRow, today: Date, eastMinutes: int, parse: Parser)
    requires ParsesDays(parse) && WrittenDate(today) && WrittenDate(FromDayNumber(DayNumber(today) - 1))
    requires row.expires == LocalMidnight(today, eastMinutes) && -1440 < eastMinutes < 1440
    requires !row.item.Untracked? && row.status.Valid?
    ensures Rank(DesiredFromCompliance(row, DayText(today), parse)) == if eastMinutes > 0 then 2 else 1
  {
    DriverDay(row, today, eastMinutes);
    var d := if eastMinutes > 0 then FromDayNumber(DayNumber(today) - 1) else today;
    NumberOfDate(DayNumber(today) - 1);
    Classified(row, d, today, parse);
  }

  /** As the days go by the severity of a row never drops. */
  lemma SeverityNeverDrops(row: ComplianceRow, d: Date, today: Date, later: Date, parse: Parser)
    requires ParsesDays(parse) && WrittenDate(today) && WrittenDate(later) && ExpiresOn(row, d)
    requires DayNumber(today) <= DayNumber(later)
    ensures Rank(DesiredFromCompliance(row, DayText(today), parse)) <= Rank(DesiredFromCompliance(row, DayText(later), parse))
  {
    if !row.item.Untracked? && !row.status.Missing? {
      Classified(row, d, today, parse);
      Classified(row, d, later, parse);
    }
  }

  /** Every damage report asks for its own warning on its own car, and for nothing else. */
  lemma DamageAlerts(rows: seq<DamageRow>)
    ensures |ForDamage(rows)| == |rows|
    ensures forall i :: 0 <= i < |rows| ==>
              ForDamage(rows)[i] == Alert(AlertKey(rows[i].carId, UnresolvedDamage, DamageReport, rows[i].id), Warning, None, None)
  {
  }
}
