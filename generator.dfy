/** The monthly roster generator.

    The first part states, as functions, what one run computes: the rule
    set applied to each day (closing, clearing, availability, m's rule,
    the u/i and k/t pairs, the greedy balancing of whoever is left) and the
    fold of that rule set over the days of the month. The second part is
    the generator itself, a loop over the days that updates a copy of the
    schedule and three running tallies step by step; each method is proved
    to compute what the first part states.

    The two random choices of a run are inputs: a coin per pair per day,
    used only when the pair's history is level, and an order of the five
    staff per day, which the pending staff are served in. */
module Generator {
  import opened Calendar
  import opened Roster

  /** A count of A shifts and B shifts. */
  datatype Tally = Tally(a: nat, b: nat)

  /** One more `c`, when `c` is A or B. */
  function Bump(t: Tally, c: Shift): Tally {
    if c == A then Tally(t.a + 1, t.b) else if c == B then Tally(t.a, t.b + 1) else t
  }

  /** What one run is asked for: the month, its holidays and its closed days. */
  datatype Settings = Settings(year: nat, month: MonthIndex, holidays: set<string>, closedDays: set<string>)

  /** The random choices of one day: a coin for each pair, and the order in
      which the pending staff are served. */
  datatype DayChoice = DayChoice(uiCoin: bool, ktCoin: bool, order: seq<Staff>)

  /** No staff member is listed twice. */
  predicate Distinct(r: seq<Staff>) {
    forall i, j :: 0 <= i < j < |r| ==> r[i] != r[j]
  }

  /** `order` lists each of the five staff once. */
  predicate IsStaffOrder(order: seq<Staff>) {
    && |order| == |AllStaff|
    && (forall s :: s in order)
    && (forall i, j :: 0 <= i < j < |order| ==> order[i] != order[j])
  }

  predicate ValidChoices(choices: seq<DayChoice>) {
    forall j :: 0 <= j < |choices| ==> IsStaffOrder(choices[j].order)
  }

  // ---------------------------------------------------------------------
  // Specification: the history tallies

  /** `s` holds `c` on `date` of `schedule`. */
  predicate HoldsOn(schedule: Schedule, date: string, s: Staff, c: Shift) {
    date in schedule && Holds(schedule[date], s, c)
  }

  /** The dates among `dates` on which `s` holds `c`. */
  function DatesHolding(schedule: Schedule, dates: set<string>, s: Staff, c: Shift): set<string> {
    set date | date in dates && HoldsOn(schedule, date, s, c)
  }

  /** Number of dates among `dates` on which `s` holds `c`. */
  function CountHolding(schedule: Schedule, dates: set<string>, s: Staff, c: Shift): nat {
    |DatesHolding(schedule, dates, s, c)|
  }

  /** The A/B history of `s` over every date of `schedule`. */
  function HistoryTally(schedule: Schedule, s: Staff): Tally {
    Tally(CountHolding(schedule, schedule.Keys, s, A), CountHolding(schedule, schedule.Keys, s, B))
  }

  // ---------------------------------------------------------------------
  // Specification: the rules of one day

  /** The day with every ShopClosed entry removed. */
  function WithoutShopClosed(day: Day): (r: Day)
    ensures forall s :: s in r <==> s in day && day[s] != ShopClosed
    ensures forall s :: s in r ==> r[s] == day[s]
  {
    map s | s in day && day[s] != ShopClosed :: day[s]
  }

  /** Everyone ShopClosed, except a manual Closed, which stays. */
  function ShopClosedDay(day: Day): Day {
    map s | s in AllStaff :: if Holds(day, s, Closed) then Closed else ShopClosed
  }

  /** Staff on paid leave or manually closed are not available. */
  predicate Available(day: Day, s: Staff) {
    !Holds(day, s, PL) && !Holds(day, s, Closed)
  }

  /** m's code: S on a short day, B otherwise. */
  function MShift(short: bool): Shift {
    if short then S else B
  }

  /** The code of a pair's first member, chosen from that member's history:
      B when it has more A than B, A when fewer, the coin when level. */
  function PairLead(hist: Tally, coin: bool): Shift {
    if hist.a > hist.b then B else if hist.b > hist.a then A else if coin then A else B
  }

  datatype PairOutcome = PairOutcome(day: Day, hist: Tally, today: Tally)

  /** The pair rule for `x` and `y`: when both are available and both unset,
      they get opposite codes, `x`'s history and the day's tally are counted. */
  function PairAssigned(avail: Day, day: Day, x: Staff, y: Staff, hist: Tally, today: Tally, coin: bool): PairOutcome {
    if Available(avail, x) && Available(avail, y) && x !in day && y !in day then
      var c := PairLead(hist, coin);
      PairOutcome(day[x := c][y := Opposite(c)], Bump(hist, c), Bump(Bump(today, c), Opposite(c)))
    else
      PairOutcome(day, hist, today)
  }

  /** The staff of `order` who are available and still unset, in that order. */
  function Pending(order: seq<Staff>, avail: Day, day: Day): (r: seq<Staff>)
    ensures forall s :: s in r <==> s in order && Available(avail, s) && s !in day
    ensures |r| <= |order|
  {
    if order == [] then []
    else
      (if Available(avail, order[0]) && order[0] !in day then [order[0]] else [])
      + Pending(order[1..], avail, day)
  }

  /** The greedy choice: A while the day has no more A than B. */
  function Greedy(today: Tally): Shift {
    if today.a <= today.b then A else B
  }

  datatype Filled = Filled(day: Day, today: Tally)

  /** The remaining staff served in order, each with the greedy choice. */
  function Remaining(day: Day, pending: seq<Staff>, today: Tally): Filled
    decreases |pending|
  {
    if pending == [] then Filled(day, today)
    else
      var c := Greedy(today);
      Remaining(day[pending[0] := c], pending[1..], Bump(today, c))
  }

  /** The day's A/B tally before the pairs: m's code alone. */
  function MTally(day: Day): Tally {
    if M in day then Bump(Tally(0, 0), day[M]) else Tally(0, 0)
  }

  /** m's rule: an available m gets m's code, whatever m held. */
  function WithMShift(cleared: Day, short: bool): Day {
    if Available(cleared, M) then cleared[M := MShift(short)] else cleared
  }

  /** An open day after m's rule and the two pair rules, with both pair
      histories and the day's A/B tally so far. */
  datatype Paired = Paired(day: Day, u: Tally, k: Tally, today: Tally)

  function PairsAssigned(cleared: Day, short: bool, u: Tally, k: Tally, choice: DayChoice): Paired {
    var withM := WithMShift(cleared, short);
    var ui := PairAssigned(cleared, withM, U, I, u, MTally(withM), choice.uiCoin);
    var kt := PairAssigned(cleared, ui.day, K, T, k, ui.today, choice.ktCoin);
    Paired(kt.day, ui.hist, kt.hist, kt.today)
  }

  datatype DayOutcome = DayOutcome(day: Day, u: Tally, k: Tally)

  /** Rules 3 to 6 on an open day whose ShopClosed entries are cleared. */
  function OpenDay(cleared: Day, short: bool, u: Tally, k: Tally, choice: DayChoice): DayOutcome {
    var p := PairsAssigned(cleared, short, u, k, choice);
    var rest := Remaining(p.day, Pending(choice.order, cleared, p.day), p.today);
    DayOutcome(rest.day, p.u, p.k)
  }

  /** The whole rule set for one day, given its input codes and the pair histories. */
  function GenerateDay(input: Day, open: bool, short: bool, u: Tally, k: Tally, choice: DayChoice): DayOutcome {
    if open then OpenDay(WithoutShopClosed(input), short, u, k, choice)
    else DayOutcome(ShopClosedDay(input), u, k)
  }

  // ---------------------------------------------------------------------
  // Specification: the month

  function DateKey(cfg: Settings, d: nat): string {
    DateStr(cfg.year, cfg.month, d)
  }

  /** Open: not a closed day, and not a Monday or Tuesday. */
  predicate IsOpen(cfg: Settings, d: nat) {
    var w := DayOfWeek(cfg.year, cfg.month, d);
    DateKey(cfg, d) !in cfg.closedDays && w != Mon && w != Tue
  }

  /** A day on which m works S: a Wednesday, Thursday or Friday that is not a holiday. */
  predicate IsShortDay(cfg: Settings, d: nat) {
    var w := DayOfWeek(cfg.year, cfg.month, d);
    (w == Wed || w == Thu || w == Fri) && !IsHoliday(DateKey(cfg, d), cfg.holidays)
  }

  datatype State = State(schedule: Schedule, u: Tally, k: Tally)

  function StepDay(cfg: Settings, st: State, d: nat, choice: DayChoice): State {
    var key := DateKey(cfg, d);
    var r := GenerateDay(DayOf(st.schedule, key), IsOpen(cfg, d), IsShortDay(cfg, d), st.u, st.k, choice);
    State(st.schedule[key := r.day], r.u, r.k)
  }

  /** The schedule and the pair histories after the first `n` days. */
  function RunDays(cfg: Settings, current: Schedule, choices: seq<DayChoice>, n: nat): State
    requires n <= |choices|
  {
    if n == 0 then State(current, HistoryTally(current, U), HistoryTally(current, K))
    else StepDay(cfg, RunDays(cfg, current, choices, n - 1), n, choices[n - 1])
  }

  /** The schedule a run returns. */
  function Generate(cfg: Settings, current: Schedule, choices: seq<DayChoice>): Schedule
    requires |choices| == DaysInMonth(cfg.year, cfg.month)
  {
    RunDays(cfg, current, choices, |choices|).schedule
  }

  // ---------------------------------------------------------------------
  // The generator

  /** One more date adds itself to the matching dates exactly when it matches. */
  lemma DatesHoldingStep(schedule: Schedule, dates: set<string>, date: string, s: Staff, c: Shift)
    ensures DatesHolding(schedule, dates + {date}, s, c)
         == DatesHolding(schedule, dates, s, c) + if HoldsOn(schedule, date, s, c) then {date} else {}
  {
    var before := DatesHolding(schedule, dates, s, c);
    var after := DatesHolding(schedule, dates + {date}, s, c);
    forall x | x in after
      ensures x in before + if HoldsOn(schedule, date, s, c) then {date} else {}
    {
    }
  }

  lemma CountHoldingStep(schedule: Schedule, dates: set<string>, date: string, s: Staff, c: Shift)
    requires date in schedule && date !in dates
    ensures CountHolding(schedule, dates + {date}, s, c)
         == CountHolding(schedule, dates, s, c) + if Holds(schedule[date], s, c) then 1 else 0
  {
    DatesHoldingStep(schedule, dates, date, s, c);
    assert date !in DatesHolding(schedule, dates, s, c);
  }

  /** The A/B histories of u and k over every date of `schedule`. */
  method CountHistory(schedule: Schedule) returns (uCounts: Tally, kCounts: Tally)
    ensures uCounts == HistoryTally(schedule, U) && kCounts == HistoryTally(schedule, K)
  {
    uCounts, kCounts := Tally(0, 0), Tally(0, 0);
    var todo := schedule.Keys;
    while todo != {}
      invariant todo <= schedule.Keys
      invariant uCounts == Tally(CountHolding(schedule, schedule.Keys - todo, U, A), CountHolding(schedule, schedule.Keys - todo, U, B))
      invariant kCounts == Tally(CountHolding(schedule, schedule.Keys - todo, K, A), CountHolding(schedule, schedule.Keys - todo, K, B))
      decreases |todo|
    {
      var date :| date in todo;
      var done := schedule.Keys - todo;
      assert schedule.Keys - (todo - {date}) == done + {date};
      CountHoldingStep(schedule, done, date, U, A);
      CountHoldingStep(schedule, done, date, U, B);
      CountHoldingStep(schedule, done, date, K, A);
      CountHoldingStep(schedule, done, date, K, B);
      var dayData := schedule[date];
      if Holds(dayData, U, A) { uCounts := Tally(uCounts.a + 1, uCounts.b); }
      if Holds(dayData, U, B) { uCounts := Tally(uCounts.a, uCounts.b + 1); }
      if Holds(dayData, K, A) { kCounts := Tally(kCounts.a + 1, kCounts.b); }
      if Holds(dayData, K, B) { kCounts := Tally(kCounts.a, kCounts.b + 1); }
      todo := todo - {date};
    }
    assert schedule.Keys - todo == schedule.Keys;
  }

  /** Deletes every ShopClosed entry of an open day. */
  method ClearShopClosed(day: Day) returns (r: Day)
    ensures r == WithoutShopClosed(day)
  {
    r := day;
    for j := 0 to |AllStaff|
      invariant forall s :: s in r <==> s in day && (day[s] == ShopClosed ==> s !in AllStaff[..j])
      invariant forall s :: s in r ==> r[s] == day[s]
    {
      var s := AllStaff[j];
      if s in r && r[s] == ShopClosed {
        r := r - {s};
      }
    }
    assert AllStaff[..|AllStaff|] == AllStaff;
    AllStaffListed();
  }

  /** Marks everyone ShopClosed on a closed day, except a manual Closed. */
  method MarkShopClosed(day: Day) returns (r: Day)
    ensures r == ShopClosedDay(day)
  {
    r := day;
    for j := 0 to |AllStaff|
      invariant forall s :: s in AllStaff[..j] ==> s in r && r[s] == if Holds(day, s, Closed) then Closed else ShopClosed
      invariant forall s :: s !in AllStaff[..j] ==> (s in r <==> s in day) && (s in r ==> r[s] == day[s])
    {
      var s := AllStaff[j];
      if !(s in r && r[s] == Closed) {
        r := r[s := ShopClosed];
      }
    }
    assert AllStaff[..|AllStaff|] == AllStaff;
    AllStaffListed();
  }

  /** Serves the pending staff in order, each with A while the day has no
      more A than B, and B otherwise. */
  method AssignRemaining(day: Day, shuffled: seq<Staff>, shiftCounts: Tally) returns (r: Day, counts: Tally)
    ensures Filled(r, counts) == Remaining(day, shuffled, shiftCounts)
  {
    r, counts := day, shiftCounts;
    for j := 0 to |shuffled|
      invariant Remaining(r, shuffled[j..], counts) == Remaining(day, shuffled, shiftCounts)
    {
      var s := shuffled[j];
      assert shuffled[j..][1..] == shuffled[j + 1..];
      if counts.a <= counts.b {
        r := r[s := A];
        counts := Tally(counts.a + 1, counts.b);
      } else {
        r := r[s := B];
        counts := Tally(counts.a, counts.b + 1);
      }
    }
  }

  /** The pair rule: when `x` and `y` are both available and both unset,
      `x` gets the code its history calls for and `y` the other one; `x`'s
      history and the day's tally count them. */
  method AssignPair(cleared: Day, day: Day, x: Staff, y: Staff, counts: Tally, shiftCounts: Tally, coin: bool)
    returns (day': Day, counts': Tally, shiftCounts': Tally)
    ensures PairOutcome(day', counts', shiftCounts') == PairAssigned(cleared, day, x, y, counts, shiftCounts, coin)
  {
    day', counts', shiftCounts' := day, counts, shiftCounts;
    if Available(cleared, x) && Available(cleared, y) && x !in day && y !in day {
      var s1 := PairLead(counts, coin);
      var s2 := Opposite(s1);
      day' := day[x := s1][y := s2];
      counts' := Bump(counts, s1);
      shiftCounts' := Bump(Bump(shiftCounts, s1), s2);
    }
  }

  /** Rules 3 to 6 on an open day: availability, m's code, the two pairs,
      and the remaining staff. */
  method FillOpenDay(cleared: Day, short: bool, uHist: Tally, kHist: Tally, choice: DayChoice)
    returns (day: Day, uCounts: Tally, kCounts: Tally)
    ensures DayOutcome(day, uCounts, kCounts) == OpenDay(cleared, short, uHist, kHist, choice)
  {
    day, uCounts, kCounts := cleared, uHist, kHist;

    if Available(cleared, M) {
      var mShift := B;
      if short { mShift := S; }
      day := day[M := mShift];
    }
    assert day == WithMShift(cleared, short);

    var shiftCounts := Tally(0, 0);
    if Holds(day, M, A) { shiftCounts := Bump(shiftCounts, A); }
    if Holds(day, M, B) { shiftCounts := Bump(shiftCounts, B); }
    assert shiftCounts == MTally(day);

    day, uCounts, shiftCounts := AssignPair(cleared, day, U, I, uCounts, shiftCounts, choice.uiCoin);
    day, kCounts, shiftCounts := AssignPair(cleared, day, K, T, kCounts, shiftCounts, choice.ktCoin);

    assert Paired(day, uCounts, kCounts, shiftCounts) == PairsAssigned(cleared, short, uHist, kHist, choice);
    var shuffled := Pending(choice.order, cleared, day);
    day, shiftCounts := AssignRemaining(day, shuffled, shiftCounts);
  }

  /** One day of the loop: an open day is cleared of ShopClosed and then
      filled; a closed day is marked ShopClosed. */
  method ProcessDay(input: Day, open: bool, short: bool, uHist: Tally, kHist: Tally, choice: DayChoice)
    returns (day: Day, uCounts: Tally, kCounts: Tally)
    ensures DayOutcome(day, uCounts, kCounts) == GenerateDay(input, open, short, uHist, kHist, choice)
  {
    day, uCounts, kCounts := input, uHist, kHist;
    if open {
      day := ClearShopClosed(day);
    }
    if !open {
      day := MarkShopClosed(day);
    } else {
      day, uCounts, kCounts := FillOpenDay(day, short, uCounts, kCounts, choice);
    }
  }

  /** Fills the month of `cfg` in a copy of `current`, day by day. */
  method GenerateMonthlyRoster(cfg: Settings, current: Schedule, choices: seq<DayChoice>)
    returns (newSchedule: Schedule)
    requires |choices| == DaysInMonth(cfg.year, cfg.month)
    ensures newSchedule == Generate(cfg, current, choices)
  {
    newSchedule := current;
    var daysInMonth := DaysInMonth(cfg.year, cfg.month);
    var uCounts, kCounts := CountHistory(newSchedule);

    for d := 1 to daysInMonth + 1
      invariant State(newSchedule, uCounts, kCounts) == RunDays(cfg, current, choices, d - 1)
    {
      var dateStr := DateStr(cfg.year, cfg.month, d);
      var dayOfWeek := DayOfWeek(cfg.year, cfg.month, d);
      var isClosed := dateStr in cfg.closedDays;
      var isRegularClosed := dayOfWeek == Mon || dayOfWeek == Tue;
      var open := !isClosed && !isRegularClosed;
      var short := (dayOfWeek == Wed || dayOfWeek == Thu || dayOfWeek == Fri)
                   && !IsHoliday(dateStr, cfg.holidays);
      assert dateStr == DateKey(cfg, d) && open == IsOpen(cfg, d) && short == IsShortDay(cfg, d);

      ghost var before := State(newSchedule, uCounts, kCounts);
      var day;
      day, uCounts, kCounts := ProcessDay(DayOf(newSchedule, dateStr), open, short, uCounts, kCounts, choices[d - 1]);
      newSchedule := newSchedule[dateStr := day];
      assert State(newSchedule, uCounts, kCounts) == StepDay(cfg, before, d, choices[d - 1]);
    }
  }
}
