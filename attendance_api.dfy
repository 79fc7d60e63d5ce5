/** The read side of attendance: today's record of one employee, a month
    summary, and today's sheet for every employee. The store is the map of
    day records kept by `Attendance.AttendanceService`. */
module AttendanceApi {
  import opened Common
  import opened Attendance

  /** The reply of `/{employee_id}/today`: the record, or a message. */
  datatype TodayReply = Found(record: Record) | NoRecord(message: string)

  const NoRecordMessage := "No attendance record for today"

  function GetTodayAttendance(records: map<(string, string), Record>, id: string, today: string): (reply: TodayReply)
    ensures reply.Found? <==> (id, today) in records
    ensures reply.Found? ==> reply.record == records[(id, today)]
    ensures reply.NoRecord? ==> reply.message == NoRecordMessage
  {
    if (id, today) in records then Found(records[(id, today)]) else NoRecord(NoRecordMessage)
  }

  /** A detection that was recorded is visible at once in today's reply,
      with the kind just recorded as its latest event. */
  lemma RecordedIsVisible(records: map<(string, string), Record>, id: string, now: Moment, k: EventKind)
    requires LastKindIs(records, id, now.date, k)
    ensures GetTodayAttendance(records, id, now.date).Found?
    ensures var es := GetTodayAttendance(records, id, now.date).record.entries; |es| > 0 && es[|es| - 1].kind == k
  {
  }

  // ---------------------------------------------------------------------
  // Month summary
  // ---------------------------------------------------------------------

  datatype MonthSummary = MonthSummary(employeeId: string, year: int, month: int,
                                       totalDaysPresent: nat, totalEntries: nat, totalExits: nat,
                                       records: seq<Record>)

  function SumEntries(rs: seq<Record>): nat
  {
    if |rs| == 0 then 0 else SumEntries(rs[..|rs| - 1]) + rs[|rs| - 1].totalEntries
  }

  function SumExits(rs: seq<Record>): nat
  {
    if |rs| == 0 then 0 else SumExits(rs[..|rs| - 1]) + rs[|rs| - 1].totalExits
  }

  function SumEvents(rs: seq<Record>): nat
  {
    if |rs| == 0 then 0 else SumEvents(rs[..|rs| - 1]) + |rs[|rs| - 1].entries|
  }

  /** `/{employee_id}/month/{year}/{month}` over the month's records as the
      store returns them: one day per record, entries and exits summed. */
  function GetMonthlyAttendance(id: string, year: int, month: int, records: seq<Record>): (s: MonthSummary)
    ensures s.employeeId == id && s.year == year && s.month == month && s.records == records
    ensures s.totalDaysPresent == |records|
    ensures s.totalEntries == SumEntries(records) && s.totalExits == SumExits(records)
  {
    MonthSummary(id, year, month, |records|, SumEntries(records), SumExits(records), records)
  }

  /** Month totals of well-formed records: every event is an entry or an
      exit, and entries exceed exits by at most one per day present. */
  lemma {:induction false} MonthTotalsBalance(rs: seq<Record>)
    requires forall i :: 0 <= i < |rs| ==> WellFormed(rs[i])
    ensures SumEntries(rs) + SumExits(rs) == SumEvents(rs)
    ensures SumExits(rs) <= SumEntries(rs) <= SumExits(rs) + |rs|
    ensures |rs| <= SumEntries(rs)
  {
    if |rs| > 0 {
      MonthTotalsBalance(rs[..|rs| - 1]);
      WellFormedBalance(rs[|rs| - 1]);
    }
  }

  lemma MonthSummaryBalance(id: string, year: int, month: int, rs: seq<Record>)
    requires forall i :: 0 <= i < |rs| ==> WellFormed(rs[i])
    ensures var s := GetMonthlyAttendance(id, year, month, rs);
      s.totalDaysPresent <= s.totalEntries <= s.totalExits + s.totalDaysPresent
  {
    MonthTotalsBalance(rs);
  }

  // ---------------------------------------------------------------------
  // Today's sheet for every employee
  // ---------------------------------------------------------------------

  /** An employee as listed by the store: id and name. */
  datatype Person = Person(employeeId: string, name: string)

  datatype SheetRow = SheetRow(employeeId: string, name: string, status: string,
                               firstEntry: Option<Moment>, lastExit: Option<Moment>,
                               totalEntries: nat, totalExits: nat)

  /** The row of one employee: the record's fields, or an absent row. */
  function RowOf(records: map<(string, string), Record>, p: Person, today: string): SheetRow
  {
    if (p.employeeId, today) in records then
      var r := records[(p.employeeId, today)];
      SheetRow(p.employeeId, p.name, r.status, Some(r.firstEntry), r.lastExit, r.totalEntries, r.totalExits)
    else
      SheetRow(p.employeeId, p.name, "absent", None, None, 0, 0)
  }

  /** `/all/today`: one row per listed employee, in the listed order. */
  method GetAllTodayAttendance(records: map<(string, string), Record>, employees: seq<Person>, today: string)
    returns (date: string, rows: seq<SheetRow>)
    ensures date == today
    ensures |rows| == |employees|
    ensures forall i :: 0 <= i < |employees| ==> rows[i] == RowOf(records, employees[i], today)
  {
    date := today;
    rows := [];
    for i := 0 to |employees|
      invariant |rows| == i
      invariant forall j :: 0 <= j < i ==> rows[j] == RowOf(records, employees[j], today)
    {
      var p := employees[i];
      var row;
      if (p.employeeId, today) in records {
        var r := records[(p.employeeId, today)];
        row := SheetRow(p.employeeId, p.name, r.status, Some(r.firstEntry), r.lastExit, r.totalEntries, r.totalExits);
      } else {
        row := SheetRow(p.employeeId, p.name, "absent", None, None, 0, 0);
      }
      rows := rows + [row];
    }
  }

  /** Over a store this service wrote, a row is "present" exactly when the
      employee was recorded today, and then it shows at least one entry and
      at most one more entry than exits; an absent row shows none. */
  lemma RowMeaning(records: map<(string, string), Record>, p: Person, today: string)
    requires StoreWellFormed(records)
    ensures var row := RowOf(records, p, today);
      && (row.status == "present" <==> (p.employeeId, today) in records)
      && (row.status == "present" ==> row.firstEntry.Some? && 1 <= row.totalEntries && row.totalEntries - row.totalExits in {0, 1})
      && (row.status != "present" ==> row.totalEntries == 0 && row.totalExits == 0 && row.firstEntry.None?)
  {
    if (p.employeeId, today) in records {
      var r := records[(p.employeeId, today)];
      WellFormedBalance(r);
      AlternatingCounts(r.entries);
    }
  }
}
