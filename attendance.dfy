/** The door-camera attendance service: shift windows, the per-employee
    cooldown, and the day record whose events alternate entry/exit.
    The attendance collection of the document store is the field `records`,
    keyed by (employee id, date); the clock is a parameter. */
module Attendance {
  import opened Common

  /** A clock reading: the day (`%Y-%m-%d`), the time of day in
      microseconds, and an absolute instant in microseconds. */
  datatype Moment = Moment(date: string, timeOfDayUs: nat, epochUs: int)

  const MinutesPerDay: nat := 1440
  const UsPerMinute: nat := 60_000_000

  /** Seconds that must pass before the same employee is recorded again. */
  const CooldownSeconds: nat := 30
  const CooldownUs: nat := CooldownSeconds * 1_000_000

  // ---------------------------------------------------------------------
  // Parsing `%I:%M %p` and `%H:%M` the way Python's strptime does: each
  // field is a regular-expression alternation tried in order, the format's
  // blank matches one or more blanks, am/pm ignores case, and the whole
  // string must be consumed.
  // ---------------------------------------------------------------------

  datatype Field = Field(value: nat, width: nat)

  /** `%I` is `1[0-2]|0[1-9]|[1-9]`. */
  function Hour12Field(s: string): (f: Option<Field>)
    ensures f.Some? ==> 1 <= f.value.value <= 12 && 1 <= f.value.width <= 2 && f.value.width <= |s|
  {
    if |s| >= 2 && s[0] == '1' && '0' <= s[1] <= '2' then Some(Field(10 + DigitValue(s[1]), 2))
    else if |s| >= 2 && s[0] == '0' && '1' <= s[1] <= '9' then Some(Field(DigitValue(s[1]), 2))
    else if |s| >= 1 && '1' <= s[0] <= '9' then Some(Field(DigitValue(s[0]), 1))
    else None
  }

  /** `%H` is `2[0-3]|[0-1]\d|\d`. */
  function Hour24Field(s: string): (f: Option<Field>)
    ensures f.Some? ==> f.value.value <= 23 && 1 <= f.value.width <= 2 && f.value.width <= |s|
  {
    if |s| >= 2 && s[0] == '2' && '0' <= s[1] <= '3' then Some(Field(20 + DigitValue(s[1]), 2))
    else if |s| >= 2 && '0' <= s[0] <= '1' && IsDigit(s[1]) then Some(Field(10 * DigitValue(s[0]) + DigitValue(s[1]), 2))
    else if |s| >= 1 && IsDigit(s[0]) then Some(Field(DigitValue(s[0]), 1))
    else None
  }

  /** `%M` is `[0-5]\d|\d`. */
  function MinuteField(s: string): (f: Option<Field>)
    ensures f.Some? ==> f.value.value <= 59 && 1 <= f.value.width <= 2 && f.value.width <= |s|
  {
    if |s| >= 2 && '0' <= s[0] <= '5' && IsDigit(s[1]) then Some(Field(10 * DigitValue(s[0]) + DigitValue(s[1]), 2))
    else if |s| >= 1 && IsDigit(s[0]) then Some(Field(DigitValue(s[0]), 1))
    else None
  }

  predicate IsBlank(c: char)
  {
    c == ' ' || c == '\t' || c == '\n' || c == '\r' || c == 11 as char || c == 12 as char
  }

  /** The number of leading blanks (the greedy `\s+`). */
  function LeadingBlanks(s: string): (n: nat)
    ensures n <= |s|
  {
    if |s| > 0 && IsBlank(s[0]) then 1 + LeadingBlanks(s[1..]) else 0
  }

  /** `%p`: "am" or "pm" in any case; `Some(true)` for pm. */
  function Meridiem(s: string): Option<bool>
  {
    if |s| == 2 && LowerChar(s[1]) == 'm' && LowerChar(s[0]) == 'a' then Some(false)
    else if |s| == 2 && LowerChar(s[1]) == 'm' && LowerChar(s[0]) == 'p' then Some(true)
    else None
  }

  /** strptime's conversion of a 12-hour clock hour and am/pm to 0..23. */
  function To24Hour(h: nat, pm: bool): nat
  {
    if pm then (if h == 12 then 12 else h + 12) else (if h == 12 then 0 else h)
  }

  /** `strptime(s, '%I:%M %p')`, as minutes since midnight. */
  function Parse12(s: string): (t: Option<nat>)
    ensures t.Some? ==> t.value < MinutesPerDay
  {
    match Hour12Field(s)
    case None => None
    case Some(h) => AfterHour12(h.value, s[h.width..])
  }

  /** The rest of `%I:%M %p` once the hour `h` (1..12) is read. */
  function AfterHour12(h: nat, r: string): (t: Option<nat>)
    requires 1 <= h <= 12
    ensures t.Some? ==> t.value < MinutesPerDay
  {
    if |r| == 0 || r[0] != ':' then None
    else
      match MinuteField(r[1..])
      case None => None
      case Some(m) => AfterMinute12(h, m.value, r[1..][m.width..])
  }

  /** The blank and am/pm once hour and minute are read. */
  function AfterMinute12(h: nat, m: nat, r: string): (t: Option<nat>)
    requires 1 <= h <= 12 && m < 60
    ensures t.Some? ==> t.value < MinutesPerDay
  {
    var blanks := LeadingBlanks(r);
    if blanks == 0 then None
    else
      match Meridiem(r[blanks..])
      case None => None
      case Some(pm) => Some(To24Hour(h, pm) * 60 + m)
  }

  /** `strptime(s, '%H:%M')`, as minutes since midnight. */
  function Parse24(s: string): (t: Option<nat>)
    ensures t.Some? ==> t.value < MinutesPerDay
  {
    match Hour24Field(s)
    case None => None
    case Some(h) =>
      var r := s[h.width..];
      if |r| == 0 || r[0] != ':' then None
      else
        match MinuteField(r[1..])
        case None => None
        case Some(m) =>
          if |r[1..]| != m.width then None else Some(h.value * 60 + m.value)
  }

  /** The nested `parse_time`: 12-hour first, then 24-hour, then the
      default. A missing field is read as the default. The defaults are
      literal 12-hour strings; `DefaultTimes` shows what they parse to. */
  function ParseTime(field: Option<string>, default: nat): (t: nat)
    ensures field.None? ==> t == default
    ensures field.Some? && Parse12(field.value).Some? ==> t == Parse12(field.value).value
    ensures field.Some? && Parse12(field.value).None? && Parse24(field.value).Some? ==> t == Parse24(field.value).value
    ensures field.Some? && Parse12(field.value).None? && Parse24(field.value).None? ==> t == default
  {
    match field
    case None => default
    case Some(s) =>
      if Parse12(s).Some? then Parse12(s).value
      else if Parse24(s).Some? then Parse24(s).value
      else default
  }

  // strftime counterparts, used to state what the parsers accept.

  /** `strftime('%I:%M %p')` of a time of day given in minutes. */
  function Format12(t: nat): string
    requires t < MinutesPerDay
  {
    Time12(t / 60, t % 60)
  }

  /** `%I:%M %p` of hour `h` (0-23) and minute `m`: hour 0 reads 12 AM. */
  function Time12(h: nat, m: nat): string
  {
    Clock12(if h == 0 then 12 else if h > 12 then h - 12 else h, m, h >= 12)
  }

  /** The 12-hour rendering of clock hour `h`, minute `m` and am/pm. */
  function Clock12(h: nat, m: nat, pm: bool): string
  {
    Pad(h, 2) + (":" + Pad(m, 2) + " " + (if pm then "PM" else "AM"))
  }

  /** `strftime('%H:%M')`. */
  function Format24(t: nat): string
    requires t < MinutesPerDay
  {
    Pad(t / 60, 2) + ":" + Pad(t % 60, 2)
  }

  lemma PadTwo(n: nat)
    requires n < 100
    ensures |Pad(n, 2)| == 2
    ensures Pad(n, 2)[0] == ('0' as int + n / 10) as char
    ensures Pad(n, 2)[1] == ('0' as int + n % 10) as char
  {
  }

  lemma MinuteFieldOfPad(m: nat, rest: string)
    requires m < 60
    ensures MinuteField(Pad(m, 2) + rest) == Some(Field(m, 2))
  {
    PadTwo(m);
  }

  lemma Hour12FieldOfPad(h: nat, rest: string)
    requires 1 <= h <= 12
    ensures Hour12Field(Pad(h, 2) + rest) == Some(Field(h, 2))
  {
    PadTwo(h);
  }

  lemma MeridiemOfSuffix(pm: bool)
    ensures Meridiem(if pm then "PM" else "AM") == Some(pm)
  {
  }

  lemma AfterMinute12OfSuffix(h: nat, m: nat, pm: bool, suffix: string)
    requires 1 <= h <= 12 && m < 60 && suffix == (if pm then "PM" else "AM")
    ensures AfterMinute12(h, m, " " + suffix) == Some(To24Hour(h, pm) * 60 + m)
  {
    var tail := " " + suffix;
    assert LeadingBlanks(tail) == 1;
    assert tail[1..] == suffix;
    MeridiemOfSuffix(pm);
  }

  /** Past the colon, a padded minute hands the rest on unchanged. */
  lemma AfterHour12OfMinute(h: nat, m: nat, mm: string, suffix: string)
    requires 1 <= h <= 12 && m < 60 && mm == Pad(m, 2)
    ensures AfterHour12(h, ":" + mm + " " + suffix) == AfterMinute12(h, m, " " + suffix)
  {
    var r := ":" + mm + " " + suffix;
    assert r[1..] == mm + (" " + suffix);
    MinuteFieldOfPad(m, " " + suffix);
    assert r[1..][2..] == " " + suffix;
  }

  /** Every 12-hour clock reading strftime produces is read back exactly. */
  lemma Parse12OfFormat12(t: nat)
    requires t < MinutesPerDay
    ensures Parse12(Format12(t)) == Some(t)
  {
    Parse12OfTime12(t / 60, t % 60);
  }

  lemma Parse12OfTime12(h: nat, m: nat)
    requires h < 24 && m < 60
    ensures Parse12(Time12(h, m)) == Some(h * 60 + m)
  {
    Parse12OfClock12(if h == 0 then 12 else if h > 12 then h - 12 else h, m, h >= 12);
  }

  /** Reading back a 12-hour rendering gives the time it shows. */
  lemma Parse12OfClock12(h: nat, m: nat, pm: bool)
    requires 1 <= h <= 12 && m < 60
    ensures Parse12(Clock12(h, m, pm)) == Some(To24Hour(h, pm) * 60 + m)
  {
    Parse12OfFields(h, m, pm, Pad(h, 2), Pad(m, 2), if pm then "PM" else "AM");
  }

  /** A reading made of a padded hour, a padded minute and a suffix is
      read field by field. */
  lemma Parse12OfFields(h: nat, m: nat, pm: bool, hh: string, mm: string, suffix: string)
    requires 1 <= h <= 12 && m < 60
    requires hh == Pad(h, 2) && mm == Pad(m, 2) && suffix == (if pm then "PM" else "AM")
    ensures Parse12(hh + (":" + mm + " " + suffix)) == Some(To24Hour(h, pm) * 60 + m)
  {
    Parse12OfHour(h, hh, ":" + mm + " " + suffix);
    AfterHour12OfMinute(h, m, mm, suffix);
    AfterMinute12OfSuffix(h, m, pm, suffix);
  }

  /** A padded 12-hour clock hour is read, and the rest decides. */
  lemma Parse12OfHour(h: nat, hh: string, rest: string)
    requires 1 <= h <= 12 && hh == Pad(h, 2)
    ensures Parse12(hh + rest) == AfterHour12(h, rest)
  {
    Hour12FieldOfPad(h, rest);
    assert (hh + rest)[2..] == rest;
  }

  /** Every 24-hour clock reading strftime produces is read back exactly:
      it is not a 12-hour reading, so the second attempt decides. */
  lemma Parse24OfFormat24(t: nat)
    requires t < MinutesPerDay
    ensures Parse12(Format24(t)) == None
    ensures Parse24(Format24(t)) == Some(t)
  {
    var s := Format24(t);
    PadTwo(t / 60);
    PadTwo(t % 60);
    assert s == Pad(t / 60, 2) + (":" + Pad(t % 60, 2));
    assert Hour24Field(s) == Some(Field(t / 60, 2));
    var r := s[2..];
    assert r == ":" + Pad(t % 60, 2);
    assert r[1..] == Pad(t % 60, 2) + "";
    MinuteFieldOfPad(t % 60, "");
    assert |s| == 5;
    // As a 12-hour reading, nothing is left for the blank and am/pm.
    match Hour12Field(s)
    case None =>
    case Some(h) =>
      if h.width == 2 && s[2] == ':' {
        assert MinuteField(s[3..]) == Some(Field(t % 60, 2));
        assert s[3..][2..] == "";
      } else {
        assert h.width == 1 ==> s[1] != ':';
      }
  }

  /** Default shift: 10:30 to 18:00, lunch 13:30 to 14:30 (minutes). */
  const DefaultShiftStart: nat := 10 * 60 + 30
  const DefaultShiftEnd: nat := 18 * 60
  const DefaultLunchStart: nat := 13 * 60 + 30
  const DefaultLunchEnd: nat := 14 * 60 + 30

  /** The default shift as the documents spell it. */
  const DefaultShiftStartText: string := "10:30 AM"
  const DefaultShiftEndText: string := "06:00 PM"
  const DefaultLunchStartText: string := "01:30 PM"
  const DefaultLunchEndText: string := "02:30 PM"

  /** The default texts read as the default constants. */
  lemma DefaultShiftStartTime()
    ensures Parse12(DefaultShiftStartText) == Some(DefaultShiftStart)
  {
    assert 630 / 60 == 10 && 630 % 60 == 30;
    assert Pad(10, 2) == "10" && Pad(30, 2) == "30";
    assert Format12(630) == DefaultShiftStartText;
    Parse12OfFormat12(630);
  }

  lemma DefaultShiftEndTime()
    ensures Parse12(DefaultShiftEndText) == Some(DefaultShiftEnd)
  {
    assert 1080 / 60 == 18 && 1080 % 60 == 0;
    assert Pad(6, 2) == "06" && Pad(0, 2) == "00";
    assert Format12(1080) == DefaultShiftEndText;
    Parse12OfFormat12(1080);
  }

  lemma DefaultLunchStartTime()
    ensures Parse12(DefaultLunchStartText) == Some(DefaultLunchStart)
  {
    assert 810 / 60 == 13 && 810 % 60 == 30;
    assert Pad(1, 2) == "01" && Pad(30, 2) == "30";
    assert Format12(810) == DefaultLunchStartText;
    Parse12OfFormat12(810);
  }

  lemma DefaultLunchEndTime()
    ensures Parse12(DefaultLunchEndText) == Some(DefaultLunchEnd)
  {
    assert 870 / 60 == 14 && 870 % 60 == 30;
    assert Pad(2, 2) == "02" && Pad(30, 2) == "30";
    assert Format12(870) == DefaultLunchEndText;
    Parse12OfFormat12(870);
  }

  // ---------------------------------------------------------------------
  // Shift window and cooldown
  // ---------------------------------------------------------------------

  /** The shift fields of an employee document; `None` when absent. */
  datatype Employee = Employee(shiftStart: Option<string>, shiftEnd: Option<string>,
                               lunchStart: Option<string>, lunchEnd: Option<string>)

  datatype ShiftTimes = ShiftTimes(start: nat, end: nat, lunchStart: nat, lunchEnd: nat)

  function ShiftOf(e: Employee): ShiftTimes
  {
    ShiftTimes(ParseTime(e.shiftStart, DefaultShiftStart), ParseTime(e.shiftEnd, DefaultShiftEnd),
               ParseTime(e.lunchStart, DefaultLunchStart), ParseTime(e.lunchEnd, DefaultLunchEnd))
  }

  /** Whether the employee is on shift and not at lunch; both windows are
      closed intervals, and an unknown employee is never on shift. Times of
      day are compared, so a shift that ends before it starts (one across
      midnight) never holds. */
  predicate IsWithinShift(employees: map<string, Employee>, id: string, now: Moment)
    ensures IsWithinShift(employees, id, now) ==> id in employees
    ensures IsWithinShift(employees, id, now) ==> ShiftOf(employees[id]).start <= ShiftOf(employees[id]).end
  {
    id in employees &&
    var st := ShiftOf(employees[id]);
    var t := now.timeOfDayUs;
    st.start * UsPerMinute <= t <= st.end * UsPerMinute &&
    !(st.lunchStart * UsPerMinute <= t <= st.lunchEnd * UsPerMinute)
  }

  /** `should_record`: no earlier detection, or the cooldown has elapsed. */
  predicate ShouldRecord(recent: map<string, int>, id: string, now: Moment)
  {
    id !in recent || now.epochUs - recent[id] >= CooldownUs
  }

  /** Once an employee is noted at instant `t`, they are recorded again
      exactly from 30 seconds later on; nobody else's cooldown changes. */
  lemma CooldownAfterRecord(recent: map<string, int>, id: string, t: int, other: string, now: Moment)
    ensures ShouldRecord(recent[id := t], id, now) <==> now.epochUs >= t + CooldownUs
    ensures other != id ==> ShouldRecord(recent[id := t], other, now) == ShouldRecord(recent, other, now)
  {
  }

  // ---------------------------------------------------------------------
  // Day records
  // ---------------------------------------------------------------------

  datatype EventKind = Entry | Exit

  datatype Event = Event(kind: EventKind, time: Moment, cameraId: string)

  datatype Record = Record(employeeId: string, date: string, entries: seq<Event>,
                           totalEntries: nat, totalExits: nat,
                           firstEntry: Moment, lastExit: Option<Moment>, status: string)

  function CountKind(es: seq<Event>, k: EventKind): nat
  {
    if |es| == 0 then 0
    else CountKind(es[..|es| - 1], k) + (if es[|es| - 1].kind == k then 1 else 0)
  }

  /** Events alternate, starting with an entry. */
  predicate Alternates(es: seq<Event>)
  {
    forall i :: 0 <= i < |es| ==> es[i].kind == (if i % 2 == 0 then Entry else Exit)
  }

  /** What every record this service writes satisfies. */
  predicate WellFormed(r: Record)
  {
    |r.entries| >= 1 && Alternates(r.entries) &&
    r.totalEntries == CountKind(r.entries, Entry) &&
    r.totalExits == CountKind(r.entries, Exit) &&
    r.status == "present"
  }

  /** The kind of the next event: entry after nothing or after an exit. */
  function NextKind(es: seq<Event>): EventKind
  {
    if |es| == 0 || es[|es| - 1].kind == Exit then Entry else Exit
  }

  function FirstRecord(id: string, cameraId: string, now: Moment): Record
  {
    Record(id, now.date, [Event(Entry, now, cameraId)], 1, 0, now, None, "present")
  }

  /** The update of an existing record: one event appended, both totals
      recounted, `last_exit` set on an exit. */
  function Appended(r: Record, cameraId: string, now: Moment): Record
  {
    var kind := NextKind(r.entries);
    var es := r.entries + [Event(kind, now, cameraId)];
    r.(entries := es, totalEntries := CountKind(es, Entry), totalExits := CountKind(es, Exit),
       lastExit := if kind == Exit then Some(now) else r.lastExit)
  }

  lemma {:induction false} CountsAddUp(es: seq<Event>)
    ensures CountKind(es, Entry) + CountKind(es, Exit) == |es|
  {
    if |es| > 0 {
      CountsAddUp(es[..|es| - 1]);
    }
  }

  lemma {:induction false} AlternatingCounts(es: seq<Event>)
    requires Alternates(es)
    ensures CountKind(es, Entry) == (|es| + 1) / 2
    ensures CountKind(es, Exit) == |es| / 2
  {
    if |es| > 0 {
      AlternatingCounts(es[..|es| - 1]);
    }
  }

  /** A first detection makes a well-formed record with one entry. */
  lemma FirstRecordWellFormed(id: string, cameraId: string, now: Moment)
    ensures WellFormed(FirstRecord(id, cameraId, now))
    ensures FirstRecord(id, cameraId, now).totalEntries - FirstRecord(id, cameraId, now).totalExits == 1
  {
    var r := FirstRecord(id, cameraId, now);
    assert r.entries[..0] == [];
  }

  /** Appending keeps the record well formed, adds exactly one event of the
      alternating kind, keeps entries minus exits in {0, 1}, and touches
      `last_exit` only on an exit. */
  lemma AppendedWellFormed(r: Record, cameraId: string, now: Moment)
    requires WellFormed(r)
    ensures var r' := Appended(r, cameraId, now);
      && WellFormed(r')
      && r'.entries[..|r.entries|] == r.entries
      && |r'.entries| == |r.entries| + 1
      && r'.entries[|r.entries|] == Event(if |r.entries| % 2 == 0 then Entry else Exit, now, cameraId)
      && r'.totalEntries + r'.totalExits == |r'.entries|
      && 0 <= r'.totalEntries - r'.totalExits <= 1
      && (r'.lastExit != r.lastExit ==> r'.entries[|r.entries|].kind == Exit)
      && r'.firstEntry == r.firstEntry && r'.status == r.status
  {
    var r' := Appended(r, cameraId, now);
    NextKindAlternates(r.entries, Event(NextKind(r.entries), now, cameraId));
    AlternatingCounts(r'.entries);
    CountsAddUp(r'.entries);
  }

  /** On an alternating list the next kind continues the alternation. */
  lemma NextKindAlternates(es: seq<Event>, e: Event)
    requires Alternates(es) && e.kind == NextKind(es)
    ensures e.kind == (if |es| % 2 == 0 then Entry else Exit)
    ensures Alternates(es + [e])
  {
    var es' := es + [e];
    if |es| > 0 {
      assert es[|es| - 1].kind == (if (|es| - 1) % 2 == 0 then Entry else Exit);
    }
    forall i | 0 <= i < |es'|
      ensures es'[i].kind == (if i % 2 == 0 then Entry else Exit)
    {
      if i < |es| {
        assert es'[i] == es[i];
      }
    }
  }

  /** In every well-formed record the totals count the events, and entries
      exceed exits by at most one. */
  lemma WellFormedBalance(r: Record)
    requires WellFormed(r)
    ensures r.totalEntries + r.totalExits == |r.entries|
    ensures r.totalEntries - r.totalExits == |r.entries| % 2
  {
    AlternatingCounts(r.entries);
  }

  // ---------------------------------------------------------------------
  // The service
  // ---------------------------------------------------------------------

  /** A face handed over by recognition; `None` for an absent key. */
  datatype Face = Face(employeeId: Option<string>, name: Option<string>)

  /** One row of `process_door_camera_frame`'s result. */
  datatype Marked = Marked(employeeId: string, name: string, kind: EventKind, time: Moment)

  /** Faces without an id, with an empty id or with "Unknown" are skipped. */
  predicate Identified(f: Face)
  {
    f.employeeId.Some? && f.employeeId.value != "" && f.employeeId.value != "Unknown"
  }

  function NameOf(f: Face): string
  {
    if f.name.Some? then f.name.value else "Unknown"
  }

  /** Whether a detection of `id` at `now` is recorded. */
  predicate Accepts(employees: map<string, Employee>, recent: map<string, int>, id: string, now: Moment)
  {
    IsWithinShift(employees, id, now) && ShouldRecord(recent, id, now)
  }

  /** Which faces of one frame are recorded, as (id, name) in input order,
      and the cooldown map afterwards. Recording a face never depends on the
      day records, only on the shift and the cooldown map. */
  function Outcome(employees: map<string, Employee>, recent: map<string, int>, faces: seq<Face>, now: Moment)
    : (seq<(string, string)>, map<string, int>)
    decreases |faces|
  {
    if |faces| == 0 then ([], recent)
    else
      var f := faces[0];
      if Identified(f) && Accepts(employees, recent, f.employeeId.value, now) then
        var rest := Outcome(employees, recent[f.employeeId.value := now.epochUs], faces[1..], now);
        ([(f.employeeId.value, NameOf(f))] + rest.0, rest.1)
      else
        Outcome(employees, recent, faces[1..], now)
  }

  /** An id whose last detection is `now` is not recorded again in the same
      frame: the cooldown is positive. */
  lemma {:induction false} OutcomeSkipsCooled(employees: map<string, Employee>, recent: map<string, int>,
                                               faces: seq<Face>, now: Moment, id: string)
    requires id in recent && recent[id] == now.epochUs
    ensures forall k :: 0 <= k < |Outcome(employees, recent, faces, now).0| ==>
              Outcome(employees, recent, faces, now).0[k].0 != id
    decreases |faces|
  {
    if |faces| > 0 {
      var f := faces[0];
      if Identified(f) && Accepts(employees, recent, f.employeeId.value, now) {
        OutcomeSkipsCooled(employees, recent[f.employeeId.value := now.epochUs], faces[1..], now, id);
      } else {
        OutcomeSkipsCooled(employees, recent, faces[1..], now, id);
      }
    }
  }

  /** Within one frame an id is recorded at most once, every recorded id is
      an identified face, and the result is never longer than the input. */
  lemma {:induction false} OutcomeProperties(employees: map<string, Employee>, recent: map<string, int>,
                                             faces: seq<Face>, now: Moment)
    ensures var ms := Outcome(employees, recent, faces, now).0;
      && |ms| <= |faces|
      && (forall k, l :: 0 <= k < l < |ms| ==> ms[k].0 != ms[l].0)
      && (forall k :: 0 <= k < |ms| ==> exists i :: 0 <= i < |faces| && Identified(faces[i]) && faces[i].employeeId.value == ms[k].0)
    decreases |faces|
  {
    if |faces| > 0 {
      var f := faces[0];
      if Identified(f) && Accepts(employees, recent, f.employeeId.value, now) {
        var r1 := recent[f.employeeId.value := now.epochUs];
        OutcomeProperties(employees, r1, faces[1..], now);
        OutcomeSkipsCooled(employees, r1, faces[1..], now, f.employeeId.value);
        var ms := Outcome(employees, recent, faces, now).0;
        var tail := Outcome(employees, r1, faces[1..], now).0;
        assert ms == [(f.employeeId.value, NameOf(f))] + tail;
        forall k | 0 <= k < |ms|
          ensures exists i :: 0 <= i < |faces| && Identified(faces[i]) && faces[i].employeeId.value == ms[k].0
        {
          if k == 0 {
            assert Identified(faces[0]);
          } else {
            assert ms[k] == tail[k - 1];
            var i :| 0 <= i < |faces[1..]| && Identified(faces[1..][i]) && faces[1..][i].employeeId.value == tail[k - 1].0;
            assert faces[i + 1] == faces[1..][i];
          }
        }
      } else {
        OutcomeProperties(employees, recent, faces[1..], now);
        var ms := Outcome(employees, recent, faces, now).0;
        forall k | 0 <= k < |ms|
          ensures exists i :: 0 <= i < |faces| && Identified(faces[i]) && faces[i].employeeId.value == ms[k].0
        {
          var i :| 0 <= i < |faces[1..]| && Identified(faces[1..][i]) && faces[1..][i].employeeId.value == ms[k].0;
          assert faces[i + 1] == faces[1..][i];
        }
      }
    }
  }

  /** Every stored record is well formed and filed under its own key. */
  predicate StoreWellFormed(records: map<(string, string), Record>)
  {
    forall key :: key in records ==>
      WellFormed(records[key]) && records[key].employeeId == key.0 && records[key].date == key.1
  }

  /** The day record of `id` exists and its latest event has kind `k`. */
  predicate LastKindIs(records: map<(string, string), Record>, id: string, date: string, k: EventKind)
  {
    (id, date) in records && |records[(id, date)].entries| > 0 &&
    records[(id, date)].entries[|records[(id, date)].entries| - 1].kind == k
  }

  function Pairs(ms: seq<Marked>): (ps: seq<(string, string)>)
    ensures |ps| == |ms|
    ensures forall k :: 0 <= k < |ms| ==> ps[k] == (ms[k].employeeId, ms[k].name)
  {
    if |ms| == 0 then [] else Pairs(ms[..|ms| - 1]) + [(ms[|ms| - 1].employeeId, ms[|ms| - 1].name)]
  }

  lemma PairsAppend(ms: seq<Marked>, m: Marked)
    ensures Pairs(ms + [m]) == Pairs(ms) + [(m.employeeId, m.name)]
  {
    assert (ms + [m])[..|ms|] == ms;
  }

  /** Each marked employee's day record ends with the marked kind. */
  predicate LastKinds(records: map<(string, string), Record>, ms: seq<Marked>, date: string)
  {
    forall k :: 0 <= k < |ms| ==> LastKindIs(records, ms[k].employeeId, date, ms[k].kind)
  }

  /** What handling one face does to the cooldown map and the records. */
  predicate FaceHandled(employees: map<string, Employee>, f: Face, now: Moment,
                        recent: map<string, int>, records: map<(string, string), Record>,
                        recent': map<string, int>, records': map<(string, string), Record>,
                        m: Option<Marked>)
  {
    && (m.Some? <==> Identified(f) && Accepts(employees, recent, f.employeeId.value, now))
    && (m.None? ==> recent' == recent && records' == records)
    && (m.Some? ==>
          && m.value == Marked(f.employeeId.value, NameOf(f), m.value.kind, now)
          && recent' == recent[f.employeeId.value := now.epochUs]
          && LastKindIs(records', f.employeeId.value, now.date, m.value.kind)
          && (forall key :: key != (f.employeeId.value, now.date) && key in records ==>
                key in records' && records'[key] == records[key]))
  }

  /** The loop invariant of `ProcessDoorCameraFrame` after `i` faces. */
  predicate FrameProgress(employees: map<string, Employee>, recent0: map<string, int>, faces: seq<Face>,
                          now: Moment, i: nat, results: seq<Marked>,
                          recent: map<string, int>, records: map<(string, string), Record>)
  {
    && i <= |faces|
    && Outcome(employees, recent0, faces, now).0 == Pairs(results) + Outcome(employees, recent, faces[i..], now).0
    && Outcome(employees, recent0, faces, now).1 == Outcome(employees, recent, faces[i..], now).1
    && (forall k :: 0 <= k < |results| ==> results[k].time == now)
    && (forall k :: 0 <= k < |results| ==>
          results[k].employeeId in recent && recent[results[k].employeeId] == now.epochUs)
    && LastKinds(records, results, now.date)
  }

  lemma FrameProgressStart(employees: map<string, Employee>, recent0: map<string, int>, faces: seq<Face>,
                           now: Moment, records: map<(string, string), Record>)
    ensures FrameProgress(employees, recent0, faces, now, 0, [], recent0, records)
  {
    assert faces[0..] == faces;
    assert Pairs([]) == [];
  }

  lemma LastKindsExtend(records: map<(string, string), Record>, records': map<(string, string), Record>,
                        results: seq<Marked>, m: Marked, date: string)
    requires LastKinds(records, results, date)
    requires forall k :: 0 <= k < |results| ==> results[k].employeeId != m.employeeId
    requires LastKindIs(records', m.employeeId, date, m.kind)
    requires forall key :: key != (m.employeeId, date) && key in records ==> key in records' && records'[key] == records[key]
    ensures LastKinds(records', results + [m], date)
  {
    var results' := results + [m];
    forall k | 0 <= k < |results'|
      ensures LastKindIs(records', results'[k].employeeId, date, results'[k].kind)
    {
      if k < |results| {
        assert results'[k] == results[k];
        assert LastKindIs(records, results[k].employeeId, date, results[k].kind);
      }
    }
  }

  /** `Outcome` advanced by one recorded face. */
  lemma OutcomeAdvanceMark(employees: map<string, Employee>, recent0: map<string, int>, faces: seq<Face>,
                           now: Moment, i: nat, results: seq<Marked>, recent: map<string, int>, m: Marked)
    requires i < |faces|
    requires Outcome(employees, recent0, faces, now).0 == Pairs(results) + Outcome(employees, recent, faces[i..], now).0
    requires Outcome(employees, recent0, faces, now).1 == Outcome(employees, recent, faces[i..], now).1
    requires Identified(faces[i]) && Accepts(employees, recent, faces[i].employeeId.value, now)
    requires m.employeeId == faces[i].employeeId.value && m.name == NameOf(faces[i])
    ensures var recent' := recent[m.employeeId := now.epochUs];
      && Outcome(employees, recent0, faces, now).0 == Pairs(results + [m]) + Outcome(employees, recent', faces[i + 1..], now).0
      && Outcome(employees, recent0, faces, now).1 == Outcome(employees, recent', faces[i + 1..], now).1
  {
    var tail := faces[i..];
    assert tail[0] == faces[i] && tail[1..] == faces[i + 1..];
    OutcomeAccepted(employees, recent, tail, now);
    PairsAppend(results, m);
    var rest := Outcome(employees, recent[m.employeeId := now.epochUs], faces[i + 1..], now).0;
    assert Pairs(results) + ([(m.employeeId, m.name)] + rest) == Pairs(results) + [(m.employeeId, m.name)] + rest;
  }

  /** One accepted face at the head of the frame. */
  lemma OutcomeAccepted(employees: map<string, Employee>, recent: map<string, int>, faces: seq<Face>, now: Moment)
    requires |faces| > 0 && Identified(faces[0]) && Accepts(employees, recent, faces[0].employeeId.value, now)
    ensures var id := faces[0].employeeId.value;
      var rest := Outcome(employees, recent[id := now.epochUs], faces[1..], now);
      Outcome(employees, recent, faces, now) == ([(id, NameOf(faces[0]))] + rest.0, rest.1)
  {
  }

  lemma FrameProgressMark(employees: map<string, Employee>, recent0: map<string, int>, faces: seq<Face>,
                          now: Moment, i: nat, results: seq<Marked>,
                          recent: map<string, int>, records: map<(string, string), Record>,
                          recent': map<string, int>, records': map<(string, string), Record>,
                          m: Option<Marked>)
    requires i < |faces|
    requires FrameProgress(employees, recent0, faces, now, i, results, recent, records)
    requires FaceHandled(employees, faces[i], now, recent, records, recent', records', m)
    requires m.Some?
    ensures FrameProgress(employees, recent0, faces, now, i + 1, results + [m.value], recent', records')
  {
    var id := m.value.employeeId;
    var results' := results + [m.value];
    forall k | 0 <= k < |results|
      ensures results[k].employeeId != id
    {
      assert ShouldRecord(recent, id, now);
    }
    LastKindsExtend(records, records', results, m.value, now.date);
    OutcomeAdvanceMark(employees, recent0, faces, now, i, results, recent, m.value);
    assert forall k :: 0 <= k < |results'| ==> results'[k].time == now;
    assert forall k :: 0 <= k < |results'| ==>
      results'[k].employeeId in recent' && recent'[results'[k].employeeId] == now.epochUs;
  }

  lemma FrameProgressSkip(employees: map<string, Employee>, recent0: map<string, int>, faces: seq<Face>,
                          now: Moment, i: nat, results: seq<Marked>,
                          recent: map<string, int>, records: map<(string, string), Record>,
                          recent': map<string, int>, records': map<(string, string), Record>,
                          m: Option<Marked>)
    requires i < |faces|
    requires FrameProgress(employees, recent0, faces, now, i, results, recent, records)
    requires FaceHandled(employees, faces[i], now, recent, records, recent', records', m)
    requires m.None?
    ensures FrameProgress(employees, recent0, faces, now, i + 1, results, recent', records')
  {
    assert faces[i..][0] == faces[i] && faces[i..][1..] == faces[i + 1..];
    assert Outcome(employees, recent, faces[i..], now) == Outcome(employees, recent', faces[i + 1..], now);
  }

  lemma FrameProgressStep(employees: map<string, Employee>, recent0: map<string, int>, faces: seq<Face>,
                          now: Moment, i: nat, results: seq<Marked>,
                          recent: map<string, int>, records: map<(string, string), Record>,
                          recent': map<string, int>, records': map<(string, string), Record>,
                          m: Option<Marked>)
    requires i < |faces|
    requires FrameProgress(employees, recent0, faces, now, i, results, recent, records)
    requires FaceHandled(employees, faces[i], now, recent, records, recent', records', m)
    ensures FrameProgress(employees, recent0, faces, now, i + 1,
                          if m.Some? then results + [m.value] else results, recent', records')
  {
    if m.Some? {
      FrameProgressMark(employees, recent0, faces, now, i, results, recent, records, recent', records', m);
    } else {
      FrameProgressSkip(employees, recent0, faces, now, i, results, recent, records, recent', records', m);
    }
  }

  /** At the end of the frame the marks are exactly `Outcome`'s. */
  lemma FrameProgressEnd(employees: map<string, Employee>, recent0: map<string, int>, faces: seq<Face>,
                         now: Moment, results: seq<Marked>,
                         recent: map<string, int>, records: map<(string, string), Record>)
    requires FrameProgress(employees, recent0, faces, now, |faces|, results, recent, records)
    ensures Pairs(results) == Outcome(employees, recent0, faces, now).0
    ensures recent == Outcome(employees, recent0, faces, now).1
  {
    assert faces[|faces|..] == [];
  }

  /** The day record `record_attendance` writes for an accepted detection:
      a first record, or the stored one extended with the next event. */
  function DayRecord(records: map<(string, string), Record>, id: string, cameraId: string, now: Moment): Record
  {
    var key := (id, now.date);
    if key in records then Appended(records[key], cameraId, now) else FirstRecord(id, cameraId, now)
  }

  /** `record_attendance`'s write for one accepted detection. */
  function RecordOne(records: map<(string, string), Record>, id: string, cameraId: string, now: Moment)
    : map<(string, string), Record>
  {
    records[(id, now.date) := DayRecord(records, id, cameraId, now)]
  }

  /** The attendance collection after the marked detections of one frame,
      written in turn. */
  function RecordsAfter(records: map<(string, string), Record>, cameraId: string, now: Moment, ms: seq<Marked>)
    : map<(string, string), Record>
  {
    if |ms| == 0 then records
    else RecordOne(RecordsAfter(records, cameraId, now, ms[..|ms| - 1]), ms[|ms| - 1].employeeId, cameraId, now)
  }

  /** The day-record keys of the marked detections. */
  function MarkedKeys(ms: seq<Marked>, date: string): set<(string, string)>
  {
    set k | 0 <= k < |ms| :: (ms[k].employeeId, date)
  }

  lemma MarkedKeysLast(ms: seq<Marked>, date: string)
    requires |ms| > 0
    ensures MarkedKeys(ms, date) == MarkedKeys(ms[..|ms| - 1], date) + {(ms[|ms| - 1].employeeId, date)}
  {
    var n := |ms| - 1;
    forall key | key in MarkedKeys(ms, date)
      ensures key in MarkedKeys(ms[..n], date) + {(ms[n].employeeId, date)}
    {
      var k :| 0 <= k < |ms| && key == (ms[k].employeeId, date);
      if k < n {
        assert ms[..n][k] == ms[k];
      }
    }
    forall key | key in MarkedKeys(ms[..n], date)
      ensures key in MarkedKeys(ms, date)
    {
      var k :| 0 <= k < n && key == (ms[..n][k].employeeId, date);
      assert ms[..n][k] == ms[k];
    }
  }

  /** The frame adds exactly the marked keys to the collection. */
  lemma {:induction false} RecordsAfterKeys(records: map<(string, string), Record>, cameraId: string,
                                            now: Moment, ms: seq<Marked>)
    ensures RecordsAfter(records, cameraId, now, ms).Keys == records.Keys + MarkedKeys(ms, now.date)
  {
    if |ms| > 0 {
      RecordsAfterKeys(records, cameraId, now, ms[..|ms| - 1]);
      MarkedKeysLast(ms, now.date);
    }
  }

  /** Every record not marked in the frame is kept as it is. */
  lemma {:induction false} RecordsAfterKept(records: map<(string, string), Record>, cameraId: string,
                                            now: Moment, ms: seq<Marked>)
    ensures forall key :: key in records && key !in MarkedKeys(ms, now.date) ==>
      key in RecordsAfter(records, cameraId, now, ms) && RecordsAfter(records, cameraId, now, ms)[key] == records[key]
  {
    if |ms| > 0 {
      RecordsAfterKept(records, cameraId, now, ms[..|ms| - 1]);
      MarkedKeysLast(ms, now.date);
    }
  }

  /** When the marked ids are distinct, each marked day record is a first
      record or the old one extended by one event. */
  lemma {:induction false} RecordsAfterWritten(records: map<(string, string), Record>, cameraId: string,
                                               now: Moment, ms: seq<Marked>)
    requires forall k, l :: 0 <= k < l < |ms| ==> ms[k].employeeId != ms[l].employeeId
    ensures var rs := RecordsAfter(records, cameraId, now, ms);
      forall k :: 0 <= k < |ms| ==>
        (ms[k].employeeId, now.date) in rs && rs[(ms[k].employeeId, now.date)] == DayRecord(records, ms[k].employeeId, cameraId, now)
  {
    if |ms| > 0 {
      var n := |ms| - 1;
      var init := ms[..n];
      var key := (ms[n].employeeId, now.date);
      RecordsAfterWritten(records, cameraId, now, init);
      RecordsAfterKept(records, cameraId, now, init);
      RecordsAfterKeys(records, cameraId, now, init);
      var rs0 := RecordsAfter(records, cameraId, now, init);
      forall k | 0 <= k < n
        ensures init[k] == ms[k] && (init[k].employeeId, now.date) != key
      {
      }
      assert key !in MarkedKeys(init, now.date);
      assert DayRecord(rs0, ms[n].employeeId, cameraId, now) == DayRecord(records, ms[n].employeeId, cameraId, now);
    }
  }

  /** The records a frame writes, for marks that are `Outcome`'s. */
  lemma FrameRecords(employees: map<string, Employee>, recent: map<string, int>, faces: seq<Face>, now: Moment,
                     records: map<(string, string), Record>, cameraId: string, results: seq<Marked>)
    requires Pairs(results) == Outcome(employees, recent, faces, now).0
    ensures var rs := RecordsAfter(records, cameraId, now, results);
      && rs.Keys == records.Keys + MarkedKeys(results, now.date)
      && (forall key :: key in records && key !in MarkedKeys(results, now.date) ==> rs[key] == records[key])
      && (forall k :: 0 <= k < |results| ==>
            (results[k].employeeId, now.date) in rs &&
            rs[(results[k].employeeId, now.date)] == DayRecord(records, results[k].employeeId, cameraId, now))
  {
    OutcomeProperties(employees, recent, faces, now);
    forall k, l | 0 <= k < l < |results|
      ensures results[k].employeeId != results[l].employeeId
    {
      assert Pairs(results)[k].0 == results[k].employeeId && Pairs(results)[l].0 == results[l].employeeId;
    }
    RecordsAfterKeys(records, cameraId, now, results);
    RecordsAfterKept(records, cameraId, now, results);
    RecordsAfterWritten(records, cameraId, now, results);
  }

  class AttendanceService {
    /** Last recorded detection per employee (an instant in microseconds). */
    var recentDetections: map<string, int>
    /** The attendance collection, keyed by (employee id, date). */
    var records: map<(string, string), Record>

    ghost predicate Valid()
      reads this
    {
      StoreWellFormed(records)
    }

    constructor ()
      ensures Valid() && recentDetections == map[] && records == map[]
    {
      recentDetections := map[];
      records := map[];
    }

    /** `record_attendance`: refused outside the shift or within the
        cooldown, without any change; otherwise the cooldown map records
        `now` and the day record is created or extended. */
    method RecordAttendance(employees: map<string, Employee>, id: string, cameraId: string, now: Moment)
      returns (kind: Option<EventKind>)
      requires Valid()
      modifies this
      ensures Valid()
      ensures !Accepts(employees, old(recentDetections), id, now) ==>
        kind == None && recentDetections == old(recentDetections) && records == old(records)
      ensures Accepts(employees, old(recentDetections), id, now) ==>
        var key := (id, now.date);
        && recentDetections == old(recentDetections)[id := now.epochUs]
        && (key !in old(records) ==>
              kind == Some(Entry) && records == old(records)[key := FirstRecord(id, cameraId, now)])
        && (key in old(records) ==>
              kind == Some(NextKind(old(records)[key].entries)) &&
              records == old(records)[key := Appended(old(records)[key], cameraId, now)])
      ensures kind.Some? ==> LastKindIs(records, id, now.date, kind.value)
    {
      if !IsWithinShift(employees, id, now) {
        return None;
      }
      if !ShouldRecord(recentDetections, id, now) {
        return None;
      }
      recentDetections := recentDetections[id := now.epochUs];
      var key := (id, now.date);
      if key !in records {
        FirstRecordWellFormed(id, cameraId, now);
        records := records[key := FirstRecord(id, cameraId, now)];
        kind := Some(Entry);
      } else {
        var r := records[key];
        AppendedWellFormed(r, cameraId, now);
        kind := Some(NextKind(r.entries));
        records := records[key := Appended(r, cameraId, now)];
      }
    }

    /** One face of a door-camera frame: skipped unless identified, then
        handed to `RecordAttendance`. */
    method HandleFace(employees: map<string, Employee>, cameraId: string, f: Face, now: Moment)
      returns (m: Option<Marked>)
      requires Valid()
      modifies this
      ensures Valid()
      ensures FaceHandled(employees, f, now, old(recentDetections), old(records), recentDetections, records, m)
      ensures m.Some? ==> records == RecordOne(old(records), m.value.employeeId, cameraId, now)
    {
      if !Identified(f) {
        return None;
      }
      var id := f.employeeId.value;
      var kind := RecordAttendance(employees, id, cameraId, now);
      if kind.Some? {
        m := Some(Marked(id, NameOf(f), kind.value, now));
      } else {
        m := None;
      }
    }

    /** `process_door_camera_frame`: records each identified face in turn and
        reports the recorded ones, in input order, as `Outcome` says. */
    method ProcessDoorCameraFrame(employees: map<string, Employee>, cameraId: string, faces: seq<Face>, now: Moment)
      returns (results: seq<Marked>)
      requires Valid()
      modifies this
      ensures Valid()
      ensures Pairs(results) == Outcome(employees, old(recentDetections), faces, now).0
      ensures recentDetections == Outcome(employees, old(recentDetections), faces, now).1
      ensures forall k :: 0 <= k < |results| ==> results[k].time == now
      ensures LastKinds(records, results, now.date)
      ensures records == RecordsAfter(old(records), cameraId, now, results)
      ensures records.Keys == old(records).Keys + MarkedKeys(results, now.date)
      ensures forall key :: key in old(records) && key !in MarkedKeys(results, now.date) ==>
        records[key] == old(records)[key]
      ensures forall k :: 0 <= k < |results| ==>
        (results[k].employeeId, now.date) in records &&
        records[(results[k].employeeId, now.date)] == DayRecord(old(records), results[k].employeeId, cameraId, now)
    {
      ghost var recent0, records0 := recentDetections, records;
      results := [];
      var i := 0;
      FrameProgressStart(employees, recent0, faces, now, records);
      while i < |faces|
        invariant Valid()
        invariant FrameProgress(employees, recent0, faces, now, i, results, recentDetections, records)
        invariant records == RecordsAfter(records0, cameraId, now, results)
      {
        ghost var recentBefore, recordsBefore, resultsBefore := recentDetections, records, results;
        var m := HandleFace(employees, cameraId, faces[i], now);
        if m.Some? {
          results := results + [m.value];
          assert results[..|results| - 1] == resultsBefore;
        }
        FrameProgressStep(employees, recent0, faces, now, i, resultsBefore, recentBefore, recordsBefore,
                          recentDetections, records, m);
        i := i + 1;
      }
      FrameProgressEnd(employees, recent0, faces, now, results, recentDetections, records);
      FrameRecords(employees, recent0, faces, now, records0, cameraId, results);
    }
  }
}
