/** The state transitions of the monthly roster screen: the day-status
    toggle over the holiday and closed sets, the cell edit that mirrors a
    pair, the merge of a generated month, the cell read, and the row and
    column tallies. Each handler builds a new value, as the screen does
    before it replaces its state. */
module MonthlyRoster {
  import opened Calendar
  import opened Roster
  import opened Generator
  import opened GeneratorProofs

  // ---------------------------------------------------------------------
  // Day status

  /** The two sets of marked dates. */
  datatype DayMarks = DayMarks(holidays: set<string>, closedDays: set<string>)

  datatype DayStatus = Normal | Holiday | ClosedDay

  predicate Disjoint(marks: DayMarks) {
    marks.holidays !! marks.closedDays
  }

  /** The status the toggle reads: the holiday set is consulted first. */
  function StatusOf(marks: DayMarks, date: string): DayStatus {
    if date in marks.holidays then Holiday
    else if date in marks.closedDays then ClosedDay
    else Normal
  }

  /** The cycle Normal, Holiday, ClosedDay, Normal. */
  function NextStatus(status: DayStatus): DayStatus {
    match status
    case Normal => Holiday
    case Holiday => ClosedDay
    case ClosedDay => Normal
  }

  /** A tap on a date header: a holiday becomes closed, a closed day
      becomes normal, and a normal day becomes a holiday. */
  function ToggleDayStatus(marks: DayMarks, date: string): (r: DayMarks)
    ensures StatusOf(r, date) == NextStatus(StatusOf(marks, date))
    ensures date in r.holidays ==> date !in r.closedDays
    ensures forall other :: other != date ==>
      (other in r.holidays <==> other in marks.holidays) && (other in r.closedDays <==> other in marks.closedDays)
    ensures Disjoint(marks) ==> Disjoint(r)
  {
    if date in marks.holidays then
      DayMarks(marks.holidays - {date}, marks.closedDays + {date})
    else if date in marks.closedDays then
      DayMarks(marks.holidays, marks.closedDays - {date})
    else
      DayMarks(marks.holidays + {date}, marks.closedDays)
  }

  /** Three taps restore both sets, unless the date was in both sets to
      begin with. */
  lemma ToggleThriceRestores(marks: DayMarks, date: string)
    requires !(date in marks.holidays && date in marks.closedDays)
    ensures ToggleDayStatus(ToggleDayStatus(ToggleDayStatus(marks, date), date), date) == marks
  {
    var once := ToggleDayStatus(marks, date);
    var twice := ToggleDayStatus(once, date);
    var thrice := ToggleDayStatus(twice, date);
    assert thrice.holidays == marks.holidays;
    assert thrice.closedDays == marks.closedDays;
  }

  // ---------------------------------------------------------------------
  // Cell edit

  /** The pair partner of u, i, k and t. */
  function PartnerOf(s: Staff): (p: Staff)
    requires s != M
    ensures p != s && p != M && (s in {U, I} <==> p in {U, I})
  {
    match s
    case U => I
    case I => U
    case K => T
    case T => K
  }

  /** Whether setting `value` on `staff` also sets the partner. */
  predicate Mirrors(staff: Staff, value: Shift) {
    IsWork(value) && staff != M
  }

  /** Sets `staff`'s code on `date` to `value`; an A or B on u, i, k or t
      also gives the partner the opposite code. */
  function HandleChange(schedule: Schedule, date: string, staff: Staff, value: Shift): (r: Schedule)
    ensures r.Keys == schedule.Keys + {date}
    ensures forall other :: other != date && other in schedule ==> r[other] == schedule[other]
    ensures Holds(r[date], staff, value)
    ensures Mirrors(staff, value) ==> Holds(r[date], PartnerOf(staff), Opposite(value))
    ensures forall s :: s != staff && !(Mirrors(staff, value) && s == PartnerOf(staff)) ==>
      (s in r[date] <==> s in DayOf(schedule, date)) &&
      (s in r[date] ==> r[date][s] == DayOf(schedule, date)[s])
  {
    var day := DayOf(schedule, date)[staff := value];
    var day' := if Mirrors(staff, value) then day[PartnerOf(staff) := Opposite(value)] else day;
    schedule[date := day']
  }

  /** After an A or B on a pair member, that pair no longer collides, so
      the validator does not report it for the date. */
  lemma HandleChangeResolvesPair(schedule: Schedule, date: string, staff: Staff, value: Shift)
    requires Mirrors(staff, value)
    ensures var r := HandleChange(schedule, date, staff, value);
      && !SameWorkShift(DayOf(r, date), staff, PartnerOf(staff))
      && ValidateRoster(r, date) != Invalid(if staff in {U, I} then PairUIWarning else PairKTWarning)
  {
    var r := HandleChange(schedule, date, staff, value);
    var day := DayOf(r, date);
    assert Holds(day, PartnerOf(staff), Opposite(value));
    if staff in {U, I} {
      assert !SameWorkShift(day, U, I);
    } else {
      assert !SameWorkShift(day, K, T);
    }
  }

  /** Repeating an edit changes nothing more. */
  lemma HandleChangeIdempotent(schedule: Schedule, date: string, staff: Staff, value: Shift)
    ensures var once := HandleChange(schedule, date, staff, value);
      HandleChange(once, date, staff, value) == once
  {
    var once := HandleChange(schedule, date, staff, value);
    var twice := HandleChange(once, date, staff, value);
    assert twice[date] == once[date];
    assert twice == once;
  }

  // ---------------------------------------------------------------------
  // Cell read and merge

  /** The code a cell shows: the stored code, or Off for an unset cell. */
  function CellShift(schedule: Schedule, date: string, staff: Staff): (c: Shift)
    ensures Holds(DayOf(schedule, date), staff, c) || (c == Off && staff !in DayOf(schedule, date))
  {
    var day := DayOf(schedule, date);
    if staff in day then day[staff] else Off
  }

  /** A cell shows the code just chosen for it. */
  lemma CellShowsChange(schedule: Schedule, date: string, staff: Staff, value: Shift)
    ensures CellShift(HandleChange(schedule, date, staff, value), date, staff) == value
  {
  }

  /** The object spread of a generated month over the previous schedule:
      the generated entries win, and other entries are kept. */
  function MergeGenerated(prev: Schedule, generated: Schedule): (r: Schedule)
    ensures r.Keys == prev.Keys + generated.Keys
    ensures forall key :: key in generated ==> r[key] == generated[key]
    ensures forall key :: key in prev && key !in generated ==> r[key] == prev[key]
  {
    prev + generated
  }

  /** Merging the generator's output over the schedule it was generated
      from gives the output itself. */
  lemma MergeOfGeneratedIsGenerated(cfg: Settings, current: Schedule, choices: seq<DayChoice>)
    requires |choices| == DaysInMonth(cfg.year, cfg.month)
    ensures MergeGenerated(current, Generate(cfg, current, choices)) == Generate(cfg, current, choices)
  {
    GenerateCoversMonth(cfg, current, choices);
  }

  // ---------------------------------------------------------------------
  // Row and column tallies

  /** Number of days 1 .. n of the month on which `staff` holds `c`. */
  function DaysHolding(schedule: Schedule, year: nat, month: MonthIndex, staff: Staff, c: Shift, n: nat): (r: nat)
    ensures r <= n
  {
    if n == 0 then 0
    else DaysHolding(schedule, year, month, staff, c, n - 1)
         + if Holds(DayOf(schedule, DateStr(year, month, n)), staff, c) then 1 else 0
  }

  /** A cell holds one code, so the four tallies of a row share the days. */
  lemma {:induction false} RowTalliesBounded(schedule: Schedule, year: nat, month: MonthIndex, staff: Staff, n: nat)
    ensures DaysHolding(schedule, year, month, staff, A, n) + DaysHolding(schedule, year, month, staff, B, n)
          + DaysHolding(schedule, year, month, staff, S, n) + DaysHolding(schedule, year, month, staff, PL, n) <= n
  {
    if n > 0 {
      RowTalliesBounded(schedule, year, month, staff, n - 1);
    }
  }

  datatype RowStats = RowStats(aCount: nat, bCount: nat, sCount: nat, plCount: nat, totalWork: nat)

  /** The A, B, S and PL counts of one staff member's row over days
      1 .. `days` of the month; the screen passes the month's length. */
  method GetRowStats(schedule: Schedule, year: nat, month: MonthIndex, days: nat, staff: Staff) returns (stats: RowStats)
    ensures && stats.aCount == DaysHolding(schedule, year, month, staff, A, days)
            && stats.bCount == DaysHolding(schedule, year, month, staff, B, days)
            && stats.sCount == DaysHolding(schedule, year, month, staff, S, days)
            && stats.plCount == DaysHolding(schedule, year, month, staff, PL, days)
    ensures stats.totalWork == stats.aCount + stats.bCount
    ensures stats.aCount + stats.bCount + stats.sCount + stats.plCount <= days
  {
    var aCount, bCount, sCount, plCount := 0, 0, 0, 0;
    for d := 1 to days + 1
      invariant aCount == DaysHolding(schedule, year, month, staff, A, d - 1)
      invariant bCount == DaysHolding(schedule, year, month, staff, B, d - 1)
      invariant sCount == DaysHolding(schedule, year, month, staff, S, d - 1)
      invariant plCount == DaysHolding(schedule, year, month, staff, PL, d - 1)
    {
      var day := DayOf(schedule, DateStr(year, month, d));
      if Holds(day, staff, A) { aCount := aCount + 1; }
      if Holds(day, staff, B) { bCount := bCount + 1; }
      if Holds(day, staff, S) { sCount := sCount + 1; }
      if Holds(day, staff, PL) { plCount := plCount + 1; }
    }
    RowTalliesBounded(schedule, year, month, staff, days);
    stats := RowStats(aCount, bCount, sCount, plCount, aCount + bCount);
  }

  /** Number of the listed staff who work A or B on `day`. */
  function WorkingCount(day: Day, staff: seq<Staff>): (r: nat)
    ensures r <= |staff|
  {
    if |staff| == 0 then 0
    else WorkingCount(day, staff[..|staff| - 1])
         + if staff[|staff| - 1] in day && IsWork(day[staff[|staff| - 1]]) then 1 else 0
  }

  /** The staff working A or B on `day`. */
  function WorkingStaff(day: Day): set<Staff> {
    set s | s in day && IsWork(day[s])
  }

  /** The staff of the list who work A or B on `day`. */
  function WorkingAmong(day: Day, staff: seq<Staff>): set<Staff> {
    set s | s in staff && s in WorkingStaff(day)
  }

  /** One more staff member joins the working set exactly when working. */
  lemma WorkingAmongStep(day: Day, staff: seq<Staff>, last: Staff)
    ensures WorkingAmong(day, staff + [last])
         == WorkingAmong(day, staff) + if last in WorkingStaff(day) then {last} else {}
  {
    forall s | s in WorkingAmong(day, staff + [last])
      ensures s in WorkingAmong(day, staff) + if last in WorkingStaff(day) then {last} else {}
    {
    }
  }

  /** Counting a list of distinct staff one by one gives the number of
      them who work. */
  lemma {:induction false} WorkingCountIsCardinality(day: Day, staff: seq<Staff>)
    requires forall i, j :: 0 <= i < j < |staff| ==> staff[i] != staff[j]
    ensures WorkingCount(day, staff) == |WorkingAmong(day, staff)|
  {
    if |staff| > 0 {
      var last := staff[|staff| - 1];
      var init := staff[..|staff| - 1];
      WorkingCountIsCardinality(day, init);
      assert staff == init + [last];
      WorkingAmongStep(day, init, last);
      assert last !in WorkingAmong(day, init);
    }
  }

  /** Over the whole roster, the count is the number of staff working. */
  lemma ColumnIsWorkingStaff(day: Day)
    ensures WorkingCount(day, AllStaff) == |WorkingStaff(day)|
  {
    WorkingCountIsCardinality(day, AllStaff);
    assert WorkingAmong(day, AllStaff) == WorkingStaff(day) by {
      AllStaffListed();
    }
  }

  /** The number of staff working A or B on day `d`. */
  method GetColTotal(schedule: Schedule, year: nat, month: MonthIndex, d: nat) returns (count: nat)
    ensures count == WorkingCount(DayOf(schedule, DateStr(year, month, d)), AllStaff)
    ensures count == |WorkingStaff(DayOf(schedule, DateStr(year, month, d)))|
    ensures count <= 5
  {
    var day := DayOf(schedule, DateStr(year, month, d));
    count := 0;
    for j := 0 to |AllStaff|
      invariant count == WorkingCount(day, AllStaff[..j])
    {
      assert AllStaff[..j + 1][..j] == AllStaff[..j];
      if AllStaff[j] in day && IsWork(day[AllStaff[j]]) {
        count := count + 1;
      }
    }
    assert AllStaff[..|AllStaff|] == AllStaff;
    ColumnIsWorkingStaff(day);
  }
}
