/** What the generator promises, proved about its specification: first the
    greedy balancing of the remaining staff, then the rule set of one day,
    then the month. Each of these holds for every coin and every order the
    random choices could produce. */
module GeneratorProofs {
  import opened Calendar
  import opened Roster
  import opened Generator

  // ---------------------------------------------------------------------
  // The remaining staff

  /** The day's tally after `n` greedy choices, whoever receives them. */
  function GreedyTally(t: Tally, n: nat): Tally
    decreases n
  {
    if n == 0 then t else GreedyTally(Bump(t, Greedy(t)), n - 1)
  }

  function Max(x: int, y: int): int { if x < y then y else x }
  function Min(x: int, y: int): int { if x < y then x else y }

  /** Closed form of the greedy tally: A climbs to at most half the day's
      total rounded up, and never falls below where it started. */
  lemma {:induction false} GreedyTallyClosedForm(t: Tally, n: nat)
    ensures GreedyTally(t, n).a == Max(t.a, Min(t.a + n, (t.a + t.b + n + 1) / 2))
    ensures GreedyTally(t, n).a + GreedyTally(t, n).b == t.a + t.b + n
    decreases n
  {
    if n > 0 {
      GreedyTallyClosedForm(Bump(t, Greedy(t)), n - 1);
    }
  }

  /** Staff who are not served keep their entries. */
  lemma {:induction false} RemainingFrame(day: Day, pending: seq<Staff>, today: Tally, s: Staff)
    requires s !in pending
    ensures s in Remaining(day, pending, today).day <==> s in day
    ensures s in day ==> Remaining(day, pending, today).day[s] == day[s]
    decreases |pending|
  {
    if pending != [] {
      var c := Greedy(today);
      RemainingFrame(day[pending[0] := c], pending[1..], Bump(today, c), s);
    }
  }

  /** Every served staff member ends with A or B. */
  lemma {:induction false} RemainingCovers(day: Day, pending: seq<Staff>, today: Tally, s: Staff)
    requires s in pending
    ensures s in Remaining(day, pending, today).day && IsWork(Remaining(day, pending, today).day[s])
    decreases |pending|
  {
    var c := Greedy(today);
    if s in pending[1..] {
      RemainingCovers(day[pending[0] := c], pending[1..], Bump(today, c), s);
    } else {
      RemainingFrame(day[pending[0] := c], pending[1..], Bump(today, c), s);
    }
  }

  /** The j-th staff member served gets A exactly when, after the first j
      choices, the day has no more A than B; and the day's final tally is
      the greedy tally. Neither depends on who is served in which place. */
  lemma {:induction false} RemainingCodes(day: Day, pending: seq<Staff>, today: Tally, j: nat)
    requires Distinct(pending)
    requires j < |pending|
    ensures pending[j] in Remaining(day, pending, today).day
    ensures Remaining(day, pending, today).day[pending[j]] == A
        <==> GreedyTally(today, j).a <= GreedyTally(today, j).b
    ensures Remaining(day, pending, today).today == GreedyTally(today, |pending|)
    decreases |pending|
  {
    var c := Greedy(today);
    var rest := pending[1..];
    if j == 0 {
      assert pending[0] !in rest;
      RemainingFrame(day[pending[0] := c], rest, Bump(today, c), pending[0]);
      if |rest| > 0 {
        RemainingCodes(day[pending[0] := c], rest, Bump(today, c), 0);
      }
    } else {
      assert pending[j] == rest[j - 1];
      RemainingCodes(day[pending[0] := c], rest, Bump(today, c), j - 1);
    }
  }

  /** The staff listed in `r`, as a set. */
  function Members(r: seq<Staff>): set<Staff> {
    set s | s in r
  }

  /** A list without repeats is as long as its set of members. */
  lemma {:induction false} DistinctLength(r: seq<Staff>)
    requires Distinct(r)
    ensures |Members(r)| == |r|
  {
    if r != [] {
      DistinctLength(r[1..]);
      assert Members(r) == {r[0]} + Members(r[1..]);
      assert r[0] !in Members(r[1..]);
    }
  }

  /** Filtering a list that repeats no one gives a list that repeats no one. */
  lemma {:induction false} PendingDistinct(order: seq<Staff>, avail: Day, day: Day)
    requires Distinct(order)
    ensures Distinct(Pending(order, avail, day))
  {
    if order != [] {
      PendingDistinct(order[1..], avail, day);
      assert order[0] !in order[1..];
    }
  }

  /** The staff left to the greedy step: available and still unset. */
  function Unserved(avail: Day, day: Day): set<Staff> {
    set s | s in AllStaff && Available(avail, s) && s !in day
  }

  /** Served in any order of the five staff, the pending list holds each
      unserved staff member exactly once. */
  lemma PendingLength(order: seq<Staff>, avail: Day, day: Day)
    requires IsStaffOrder(order)
    ensures Distinct(Pending(order, avail, day))
    ensures |Pending(order, avail, day)| == |Unserved(avail, day)|
  {
    var r := Pending(order, avail, day);
    PendingDistinct(order, avail, day);
    DistinctLength(r);
    AllStaffListed();
    assert Members(r) == Unserved(avail, day);
  }

  /** The shuffle does not change how many staff are pending. */
  lemma PendingOrderFree(o1: seq<Staff>, o2: seq<Staff>, avail: Day, day: Day)
    requires IsStaffOrder(o1) && IsStaffOrder(o2)
    ensures |Pending(o1, avail, day)| == |Pending(o2, avail, day)|
  {
    PendingLength(o1, avail, day);
    PendingLength(o2, avail, day);
  }

  // ---------------------------------------------------------------------
  // One day

  /** `s` has no code of its own on `input`: missing, or the ShopClosed
      marker that an open day clears. */
  predicate Unset(input: Day, s: Staff) {
    s !in input || input[s] == ShopClosed
  }

  lemma PendingIsEmpty(order: seq<Staff>, avail: Day, day: Day)
    requires forall s :: s in day
    ensures Pending(order, avail, day) == []
  {
  }

  /** The pair rule leaves entries that are set alone, and hands out only A or B. */
  lemma PairAssignedEntry(avail: Day, day: Day, x: Staff, y: Staff, hist: Tally, today: Tally, coin: bool, s: Staff)
    requires x != y
    ensures var r := PairAssigned(avail, day, x, y, hist, today, coin).day;
      && (s in day ==> s in r && r[s] == day[s])
      && (s in r && s !in day ==> IsWork(r[s]) && (s == x || s == y))
      && (s !in day && (s == x || s == y) && Available(avail, x) && Available(avail, y) && x !in day && y !in day ==> s in r)
  {
  }

  /** What m's rule and the pair rules do to one staff member's entry. */
  lemma PairsAssignedStaff(cleared: Day, short: bool, u: Tally, k: Tally, choice: DayChoice, s: Staff)
    requires forall x :: x in cleared ==> cleared[x] != ShopClosed
    ensures var p := PairsAssigned(cleared, short, u, k, choice).day;
      && (s in p ==> p[s] != ShopClosed)
      && (s !in p ==> s !in cleared)
      && (s != M && s in cleared ==> s in p && p[s] == cleared[s])
      && (s == M && Available(cleared, M) ==> s in p && p[s] == MShift(short))
      && (!Available(cleared, s) ==> s in p && p[s] == cleared[s])
  {
    var withM := WithMShift(cleared, short);
    var ui := PairAssigned(cleared, withM, U, I, u, MTally(withM), choice.uiCoin);
    PairAssignedEntry(cleared, withM, U, I, u, MTally(withM), choice.uiCoin, s);
    PairAssignedEntry(cleared, ui.day, K, T, k, ui.today, choice.ktCoin, s);
  }

  /** What an open day does to one staff member's entry. */
  lemma OpenDayStaff(input: Day, short: bool, u: Tally, k: Tally, choice: DayChoice, s: Staff)
    requires IsStaffOrder(choice.order)
    ensures var out := GenerateDay(input, true, short, u, k, choice).day;
      && s in out
      && out[s] != ShopClosed
      && (Holds(input, s, PL) ==> out[s] == PL)
      && (Holds(input, s, Closed) ==> out[s] == Closed)
      && (s != M && s in input && input[s] in {A, B, S, Off} ==> out[s] == input[s])
      && (s == M && Available(input, M) ==> out[s] == MShift(short))
  {
    var cleared := WithoutShopClosed(input);
    var p := PairsAssigned(cleared, short, u, k, choice);
    var pending := Pending(choice.order, cleared, p.day);
    PairsAssignedStaff(cleared, short, u, k, choice, s);
    if s in p.day {
      RemainingFrame(p.day, pending, p.today, s);
    } else {
      assert s in choice.order;
      RemainingCovers(p.day, pending, p.today, s);
    }
  }

  /** What an open day does to every staff member's entry. */
  lemma OpenDayKeeps(input: Day, short: bool, u: Tally, k: Tally, choice: DayChoice)
    requires IsStaffOrder(choice.order)
    ensures var out := GenerateDay(input, true, short, u, k, choice).day;
      forall s ::
        && s in out
        && out[s] != ShopClosed
        && (Holds(input, s, PL) ==> out[s] == PL)
        && (Holds(input, s, Closed) ==> out[s] == Closed)
        && (s != M && s in input && input[s] in {A, B, S, Off} ==> out[s] == input[s])
        && (s == M && Available(input, M) ==> out[s] == MShift(short))
  {
    forall s {
      OpenDayStaff(input, short, u, k, choice, s);
    }
  }

  /** On an open day, the staff left after m and the pairs are served
      greedily: the j-th of them gets A exactly when the day has no more A
      than B after j choices, and the day's tally ends as the greedy tally
      over the number of them, whatever order they are served in. */
  lemma OpenDayGreedy(input: Day, short: bool, u: Tally, k: Tally, choice: DayChoice)
    requires IsStaffOrder(choice.order)
    ensures var cleared := WithoutShopClosed(input);
      var p := PairsAssigned(cleared, short, u, k, choice);
      var pending := Pending(choice.order, cleared, p.day);
      var out := GenerateDay(input, true, short, u, k, choice).day;
      && (forall s :: s in pending <==> s in Unserved(cleared, p.day))
      && Remaining(p.day, pending, p.today).today == GreedyTally(p.today, |Unserved(cleared, p.day)|)
      && forall j :: 0 <= j < |pending| ==>
           && pending[j] in out
           && (out[pending[j]] == A <==> GreedyTally(p.today, j).a <= GreedyTally(p.today, j).b)
  {
    var cleared := WithoutShopClosed(input);
    var p := PairsAssigned(cleared, short, u, k, choice);
    var pending := Pending(choice.order, cleared, p.day);
    PendingLength(choice.order, cleared, p.day);
    AllStaffListed();
    if pending != [] {
      RemainingCodes(p.day, pending, p.today, 0);
    }
    forall j | 0 <= j < |pending|
      ensures pending[j] in Remaining(p.day, pending, p.today).day
      ensures Remaining(p.day, pending, p.today).day[pending[j]] == A
          <==> GreedyTally(p.today, j).a <= GreedyTally(p.today, j).b
    {
      RemainingCodes(p.day, pending, p.today, j);
    }
  }

  /** On an open day, the u/i pair (when both are unset) gets opposite
      codes, u's from u's history, and only then is u's history counted. */
  lemma OpenDayPairUI(input: Day, short: bool, u: Tally, k: Tally, choice: DayChoice)
    requires IsStaffOrder(choice.order)
    ensures var r := GenerateDay(input, true, short, u, k, choice);
      if Unset(input, U) && Unset(input, I) then
        && U in r.day && I in r.day
        && r.day[U] == PairLead(u, choice.uiCoin)
        && r.day[I] == Opposite(PairLead(u, choice.uiCoin))
        && r.u == Bump(u, PairLead(u, choice.uiCoin))
      else
        r.u == u
  {
    var cleared := WithoutShopClosed(input);
    var p := PairsAssigned(cleared, short, u, k, choice);
    var pending := Pending(choice.order, cleared, p.day);
    PairsAssignedStaff(cleared, short, u, k, choice, U);
    PairsAssignedStaff(cleared, short, u, k, choice, I);
    if Unset(input, U) && Unset(input, I) {
      assert U in p.day && I in p.day;
      RemainingFrame(p.day, pending, p.today, U);
      RemainingFrame(p.day, pending, p.today, I);
    }
  }

  /** The same for the k/t pair and k's history. */
  lemma OpenDayPairKT(input: Day, short: bool, u: Tally, k: Tally, choice: DayChoice)
    requires IsStaffOrder(choice.order)
    ensures var r := GenerateDay(input, true, short, u, k, choice);
      if Unset(input, K) && Unset(input, T) then
        && K in r.day && T in r.day
        && r.day[K] == PairLead(k, choice.ktCoin)
        && r.day[T] == Opposite(PairLead(k, choice.ktCoin))
        && r.k == Bump(k, PairLead(k, choice.ktCoin))
      else
        r.k == k
  {
    var cleared := WithoutShopClosed(input);
    var p := PairsAssigned(cleared, short, u, k, choice);
    var pending := Pending(choice.order, cleared, p.day);
    PairsAssignedStaff(cleared, short, u, k, choice, K);
    PairsAssignedStaff(cleared, short, u, k, choice, T);
    if Unset(input, K) && Unset(input, T) {
      assert K in p.day && T in p.day;
      RemainingFrame(p.day, pending, p.today, K);
      RemainingFrame(p.day, pending, p.today, T);
    }
  }

  /** A day that a run has already filled: on a closed day everyone is
      Closed or ShopClosed; on an open day everyone has a code, none is
      ShopClosed, and an available m already has m's code. */
  predicate Settled(day: Day, open: bool, short: bool) {
    if open then
      (forall s :: s in day && day[s] != ShopClosed) && (Available(day, M) ==> day[M] == MShift(short))
    else
      forall s :: s in day && (day[s] == Closed || day[s] == ShopClosed)
  }

  lemma GenerateDaySettles(input: Day, open: bool, short: bool, u: Tally, k: Tally, choice: DayChoice)
    requires IsStaffOrder(choice.order)
    ensures Settled(GenerateDay(input, open, short, u, k, choice).day, open, short)
  {
    if open {
      var out := GenerateDay(input, open, short, u, k, choice).day;
      forall s
        ensures s in out && out[s] != ShopClosed
      {
        OpenDayStaff(input, short, u, k, choice, s);
      }
      OpenDayStaff(input, short, u, k, choice, M);
      assert Available(out, M) ==> Available(input, M);
    } else {
      AllStaffListed();
    }
  }

  /** A settled day comes out of the rule set unchanged, and the pair
      histories are not counted, whatever the choices. */
  lemma SettledIsFixed(day: Day, open: bool, short: bool, u: Tally, k: Tally, choice: DayChoice)
    requires Settled(day, open, short)
    ensures GenerateDay(day, open, short, u, k, choice) == DayOutcome(day, u, k)
  {
    if open {
      var cleared := WithoutShopClosed(day);
      assert cleared == day;
      assert WithMShift(cleared, short) == day;
      var p := PairsAssigned(cleared, short, u, k, choice);
      assert p.day == day && p.u == u && p.k == k;
      PendingIsEmpty(choice.order, cleared, day);
    } else {
      var closed := ShopClosedDay(day);
      AllStaffListed();
      assert closed == day;
    }
  }

  /** |A - B| */
  function Imbalance(t: Tally): nat {
    if t.a < t.b then t.b - t.a else t.a - t.b
  }

  /** A day never widens a pair's A/B gap beyond one or beyond what it was. */
  lemma GenerateDayBalances(input: Day, open: bool, short: bool, u: Tally, k: Tally, choice: DayChoice)
    requires IsStaffOrder(choice.order)
    ensures Imbalance(GenerateDay(input, open, short, u, k, choice).u) <= Max(Imbalance(u), 1)
    ensures Imbalance(GenerateDay(input, open, short, u, k, choice).k) <= Max(Imbalance(k), 1)
  {
    if open {
      OpenDayPairUI(input, short, u, k, choice);
      OpenDayPairKT(input, short, u, k, choice);
    }
  }

  // ---------------------------------------------------------------------
  // The month

  /** The keys of the first `n` days of the month. */
  function MonthKeysUpTo(cfg: Settings, n: nat): set<string> {
    set d: nat | 1 <= d <= n :: DateKey(cfg, d)
  }

  lemma MonthKeysStep(cfg: Settings, n: nat)
    requires n > 0
    ensures MonthKeysUpTo(cfg, n) == MonthKeysUpTo(cfg, n - 1) + {DateKey(cfg, n)}
  {
    forall key | key in MonthKeysUpTo(cfg, n)
      ensures key in MonthKeysUpTo(cfg, n - 1) + {DateKey(cfg, n)}
    {
      var d: nat :| 1 <= d <= n && key == DateKey(cfg, d);
      if d < n {
        assert key in MonthKeysUpTo(cfg, n - 1);
      }
    }
  }

  lemma DistinctDays(cfg: Settings, d1: nat, d2: nat)
    requires d1 < 100 && d2 < 100 && d1 != d2
    ensures DateKey(cfg, d1) != DateKey(cfg, d2)
  {
    DateStrInjective(cfg.year, cfg.month, d1, cfg.year, cfg.month, d2);
  }

  /** Day `n` of a run leaves every other key as it was. */
  lemma RunDaysStepFrame(cfg: Settings, current: Schedule, choices: seq<DayChoice>, n: nat, key: string)
    requires 0 < n <= |choices| && key != DateKey(cfg, n)
    ensures var after, before := RunDays(cfg, current, choices, n).schedule, RunDays(cfg, current, choices, n - 1).schedule;
      && (key in after <==> key in before)
      && (key in before ==> after[key] == before[key])
  {
    var before := RunDays(cfg, current, choices, n - 1);
    StepDayKeys(cfg, before, n, choices[n - 1]);
    assert RunDays(cfg, current, choices, n).schedule == StepDay(cfg, before, n, choices[n - 1]).schedule;
  }

  /** A key that is none of the first `n` days is left as it was. */
  lemma {:induction false} RunDaysFrame(cfg: Settings, current: Schedule, choices: seq<DayChoice>, n: nat, key: string)
    requires n <= |choices|
    requires forall d :: 1 <= d <= n ==> DateKey(cfg, d) != key
    ensures key in RunDays(cfg, current, choices, n).schedule <==> key in current
    ensures key in current ==> RunDays(cfg, current, choices, n).schedule[key] == current[key]
  {
    if n > 0 {
      RunDaysFrame(cfg, current, choices, n - 1, key);
      assert DateKey(cfg, n) != key;
      RunDaysStepFrame(cfg, current, choices, n, key);
    }
  }

  /** A day adds its own key and no other. */
  lemma StepDayKeys(cfg: Settings, st: State, d: nat, choice: DayChoice)
    ensures StepDay(cfg, st, d, choice).schedule.Keys == st.schedule.Keys + {DateKey(cfg, d)}
    ensures forall key :: key != DateKey(cfg, d) && key in st.schedule ==> StepDay(cfg, st, d, choice).schedule[key] == st.schedule[key]
  {
  }

  /** Day `n` of a run adds its own key. */
  lemma RunDaysStepKeys(cfg: Settings, current: Schedule, choices: seq<DayChoice>, n: nat)
    requires 0 < n <= |choices|
    ensures RunDays(cfg, current, choices, n).schedule.Keys
         == RunDays(cfg, current, choices, n - 1).schedule.Keys + {DateKey(cfg, n)}
  {
    var before := RunDays(cfg, current, choices, n - 1);
    StepDayKeys(cfg, before, n, choices[n - 1]);
    assert RunDays(cfg, current, choices, n).schedule == StepDay(cfg, before, n, choices[n - 1]).schedule;
  }

  lemma UnionStep(keys: set<string>, before: set<string>, base: set<string>, m0: set<string>, m1: set<string>, k: string)
    requires keys == before + {k} && before == base + m0 && m1 == m0 + {k}
    ensures keys == base + m1
  {
  }

  /** After `n` days the schedule holds the input's keys and the first `n` days. */
  lemma {:induction false} RunDaysKeys(cfg: Settings, current: Schedule, choices: seq<DayChoice>, n: nat)
    requires n <= |choices|
    ensures RunDays(cfg, current, choices, n).schedule.Keys == current.Keys + MonthKeysUpTo(cfg, n)
  {
    if n > 0 {
      RunDaysKeys(cfg, current, choices, n - 1);
      RunDaysStepKeys(cfg, current, choices, n);
      MonthKeysStep(cfg, n);
      UnionStep(RunDays(cfg, current, choices, n).schedule.Keys, RunDays(cfg, current, choices, n - 1).schedule.Keys,
                current.Keys, MonthKeysUpTo(cfg, n - 1), MonthKeysUpTo(cfg, n), DateKey(cfg, n));
    }
  }

  /** No later day touches day `d`'s entry. */
  lemma {:induction false} RunDaysLater(cfg: Settings, current: Schedule, choices: seq<DayChoice>, n: nat, d: nat)
    requires 1 <= d <= n <= |choices| && n <= DaysInMonth(cfg.year, cfg.month)
    ensures DateKey(cfg, d) in RunDays(cfg, current, choices, n).schedule
    ensures RunDays(cfg, current, choices, n).schedule[DateKey(cfg, d)]
         == RunDays(cfg, current, choices, d).schedule[DateKey(cfg, d)]
  {
    var before := RunDays(cfg, current, choices, n - 1);
    StepDayKeys(cfg, before, n, choices[n - 1]);
    assert RunDays(cfg, current, choices, n).schedule == StepDay(cfg, before, n, choices[n - 1]).schedule;
    if n > d {
      DistinctDays(cfg, n, d);
      RunDaysLater(cfg, current, choices, n - 1, d);
    }
  }

  /** No earlier day touched day `d`'s input entry. */
  lemma RunDaysInput(cfg: Settings, current: Schedule, choices: seq<DayChoice>, d: nat)
    requires 1 <= d <= |choices| && d <= DaysInMonth(cfg.year, cfg.month)
    ensures DayOf(RunDays(cfg, current, choices, d - 1).schedule, DateKey(cfg, d)) == DayOf(current, DateKey(cfg, d))
  {
    forall d' | 1 <= d' <= d - 1
      ensures DateKey(cfg, d') != DateKey(cfg, d)
    {
      DistinctDays(cfg, d', d);
    }
    RunDaysFrame(cfg, current, choices, d - 1, DateKey(cfg, d));
  }

  /** The outcome of day `d`: the rule set applied to that day's input entry
      and to the pair histories of the days before it. */
  function DayResult(cfg: Settings, current: Schedule, choices: seq<DayChoice>, d: nat): DayOutcome
    requires 1 <= d <= |choices|
  {
    var before := RunDays(cfg, current, choices, d - 1);
    GenerateDay(DayOf(current, DateKey(cfg, d)), IsOpen(cfg, d), IsShortDay(cfg, d), before.u, before.k, choices[d - 1])
  }

  /** After `n >= d` days, day `d` holds its outcome, and after day `d` the
      pair histories are its outcome's. */
  lemma RunDaysDay(cfg: Settings, current: Schedule, choices: seq<DayChoice>, n: nat, d: nat)
    requires 1 <= d <= n <= |choices| && n <= DaysInMonth(cfg.year, cfg.month)
    ensures DateKey(cfg, d) in RunDays(cfg, current, choices, n).schedule
    ensures RunDays(cfg, current, choices, n).schedule[DateKey(cfg, d)] == DayResult(cfg, current, choices, d).day
    ensures RunDays(cfg, current, choices, d).u == DayResult(cfg, current, choices, d).u
    ensures RunDays(cfg, current, choices, d).k == DayResult(cfg, current, choices, d).k
  {
    RunDaysLater(cfg, current, choices, n, d);
    RunDaysInput(cfg, current, choices, d);
  }

  /** Dates outside the month are returned unchanged, and every date of the month gets an entry. */
  lemma GenerateKeepsOtherDates(cfg: Settings, current: Schedule, choices: seq<DayChoice>, key: string)
    requires |choices| == DaysInMonth(cfg.year, cfg.month)
    requires forall d :: 1 <= d <= |choices| ==> DateKey(cfg, d) != key
    ensures key in Generate(cfg, current, choices) <==> key in current
    ensures key in current ==> Generate(cfg, current, choices)[key] == current[key]
  {
    RunDaysFrame(cfg, current, choices, |choices|, key);
  }

  lemma GenerateCoversMonth(cfg: Settings, current: Schedule, choices: seq<DayChoice>)
    requires |choices| == DaysInMonth(cfg.year, cfg.month)
    ensures Generate(cfg, current, choices).Keys == current.Keys + MonthKeysUpTo(cfg, |choices|)
  {
    RunDaysKeys(cfg, current, choices, |choices|);
  }

  /** A closed day (Monday, Tuesday, or listed in the closed days) ends with
      everyone ShopClosed, except a manual Closed, which stays; paid leave
      and every other code are overwritten. */
  lemma GenerateClosedDay(cfg: Settings, current: Schedule, choices: seq<DayChoice>, d: nat)
    requires |choices| == DaysInMonth(cfg.year, cfg.month)
    requires 1 <= d <= |choices| && !IsOpen(cfg, d)
    ensures var key := DateKey(cfg, d); var out := Generate(cfg, current, choices);
      && key in out
      && forall s :: s in out[key]
                  && out[key][s] == if Holds(DayOf(current, key), s, Closed) then Closed else ShopClosed
  {
    RunDaysDay(cfg, current, choices, |choices|, d);
    var key := DateKey(cfg, d);
    AllStaffListed();
  }

  /** An open day ends with no ShopClosed and an entry for everyone; paid
      leave and Closed stay, and staff other than m keep an A, B, S or Off
      they already held. */
  lemma GenerateOpenDay(cfg: Settings, current: Schedule, choices: seq<DayChoice>, d: nat)
    requires |choices| == DaysInMonth(cfg.year, cfg.month) && ValidChoices(choices)
    requires 1 <= d <= |choices| && IsOpen(cfg, d)
    ensures var key := DateKey(cfg, d); var input := DayOf(current, key); var out := Generate(cfg, current, choices);
      && key in out
      && forall s ::
           && s in out[key]
           && out[key][s] != ShopClosed
           && (Holds(input, s, PL) ==> out[key][s] == PL)
           && (Holds(input, s, Closed) ==> out[key][s] == Closed)
           && (s != M && s in input && input[s] in {A, B, S, Off} ==> out[key][s] == input[s])
  {
    RunDaysDay(cfg, current, choices, |choices|, d);
    var before := RunDays(cfg, current, choices, d - 1);
    OpenDayKeeps(DayOf(current, DateKey(cfg, d)), IsShortDay(cfg, d), before.u, before.k, choices[d - 1]);
  }

  /** On an open day where m is not on paid leave or Closed, m gets S on a
      Wednesday, Thursday or Friday that is not a holiday, and B otherwise,
      whatever m held before. */
  lemma GenerateMShift(cfg: Settings, current: Schedule, choices: seq<DayChoice>, d: nat)
    requires |choices| == DaysInMonth(cfg.year, cfg.month) && ValidChoices(choices)
    requires 1 <= d <= |choices| && IsOpen(cfg, d)
    requires Available(DayOf(current, DateKey(cfg, d)), M)
    ensures var key := DateKey(cfg, d); var out := Generate(cfg, current, choices);
      var w := DayOfWeek(cfg.year, cfg.month, d);
      && key in out && M in out[key]
      && out[key][M] == if (w == Wed || w == Thu || w == Fri) && key !in cfg.holidays then S else B
  {
    RunDaysDay(cfg, current, choices, |choices|, d);
    OpenDayStaff(DayOf(current, DateKey(cfg, d)), IsShortDay(cfg, d),
                 RunDays(cfg, current, choices, d - 1).u, RunDays(cfg, current, choices, d - 1).k,
                 choices[d - 1], M);
  }

  /** On an open day where u and i are both unset, they end with opposite
      codes: u gets B when u's running history has more A than B, A when it
      has fewer, either on a tie; and u's history counts u's new code. */
  lemma GeneratePairUI(cfg: Settings, current: Schedule, choices: seq<DayChoice>, d: nat)
    requires |choices| == DaysInMonth(cfg.year, cfg.month) && ValidChoices(choices)
    requires 1 <= d <= |choices| && IsOpen(cfg, d)
    requires Unset(DayOf(current, DateKey(cfg, d)), U) && Unset(DayOf(current, DateKey(cfg, d)), I)
    ensures var key := DateKey(cfg, d); var out := Generate(cfg, current, choices);
      var hist := RunDays(cfg, current, choices, d - 1).u;
      && key in out && U in out[key] && I in out[key]
      && IsWork(out[key][U]) && out[key][I] == Opposite(out[key][U])
      && (hist.a > hist.b ==> out[key][U] == B)
      && (hist.a < hist.b ==> out[key][U] == A)
      && RunDays(cfg, current, choices, d).u == Bump(hist, out[key][U])
  {
    RunDaysDay(cfg, current, choices, |choices|, d);
    OpenDayPairUI(DayOf(current, DateKey(cfg, d)), IsShortDay(cfg, d),
                  RunDays(cfg, current, choices, d - 1).u, RunDays(cfg, current, choices, d - 1).k,
                  choices[d - 1]);
  }

  /** The same for k and t, with k's running history. */
  lemma GeneratePairKT(cfg: Settings, current: Schedule, choices: seq<DayChoice>, d: nat)
    requires |choices| == DaysInMonth(cfg.year, cfg.month) && ValidChoices(choices)
    requires 1 <= d <= |choices| && IsOpen(cfg, d)
    requires Unset(DayOf(current, DateKey(cfg, d)), K) && Unset(DayOf(current, DateKey(cfg, d)), T)
    ensures var key := DateKey(cfg, d); var out := Generate(cfg, current, choices);
      var hist := RunDays(cfg, current, choices, d - 1).k;
      && key in out && K in out[key] && T in out[key]
      && IsWork(out[key][K]) && out[key][T] == Opposite(out[key][K])
      && (hist.a > hist.b ==> out[key][K] == B)
      && (hist.a < hist.b ==> out[key][K] == A)
      && RunDays(cfg, current, choices, d).k == Bump(hist, out[key][K])
  {
    RunDaysDay(cfg, current, choices, |choices|, d);
    OpenDayPairKT(DayOf(current, DateKey(cfg, d)), IsShortDay(cfg, d),
                  RunDays(cfg, current, choices, d - 1).u, RunDays(cfg, current, choices, d - 1).k,
                  choices[d - 1]);
  }

  /** Over the month, each pair's A/B gap stays within one, or within what
      it was at the start. */
  lemma {:induction false} PairHistoriesStayBalanced(cfg: Settings, current: Schedule, choices: seq<DayChoice>, n: nat)
    requires n <= |choices| && n <= DaysInMonth(cfg.year, cfg.month) && ValidChoices(choices)
    ensures Imbalance(RunDays(cfg, current, choices, n).u) <= Max(Imbalance(HistoryTally(current, U)), 1)
    ensures Imbalance(RunDays(cfg, current, choices, n).k) <= Max(Imbalance(HistoryTally(current, K)), 1)
  {
    if n > 0 {
      PairHistoriesStayBalanced(cfg, current, choices, n - 1);
      RunDaysDay(cfg, current, choices, n, n);
      var before := RunDays(cfg, current, choices, n - 1);
      GenerateDayBalances(DayOf(current, DateKey(cfg, n)), IsOpen(cfg, n), IsShortDay(cfg, n),
                          before.u, before.k, choices[n - 1]);
    }
  }

  /** Every day of a run's output is settled. */
  lemma GenerateSettles(cfg: Settings, current: Schedule, choices: seq<DayChoice>, d: nat)
    requires |choices| == DaysInMonth(cfg.year, cfg.month) && ValidChoices(choices)
    requires 1 <= d <= |choices|
    ensures DateKey(cfg, d) in Generate(cfg, current, choices)
    ensures Settled(Generate(cfg, current, choices)[DateKey(cfg, d)], IsOpen(cfg, d), IsShortDay(cfg, d))
  {
    RunDaysDay(cfg, current, choices, |choices|, d);
    GenerateDaySettles(DayOf(current, DateKey(cfg, d)), IsOpen(cfg, d), IsShortDay(cfg, d),
                       RunDays(cfg, current, choices, d - 1).u, RunDays(cfg, current, choices, d - 1).k,
                       choices[d - 1]);
  }

  /** A day whose entry is already settled is left as it is. */
  lemma StepOverSettled(cfg: Settings, st: State, d: nat, choice: DayChoice)
    requires DateKey(cfg, d) in st.schedule
    requires Settled(st.schedule[DateKey(cfg, d)], IsOpen(cfg, d), IsShortDay(cfg, d))
    ensures StepDay(cfg, st, d, choice).schedule == st.schedule
  {
    var key := DateKey(cfg, d);
    SettledIsFixed(st.schedule[key], IsOpen(cfg, d), IsShortDay(cfg, d), st.u, st.k, choice);
    assert st.schedule[key := st.schedule[key]] == st.schedule;
  }

  /** Running the days over a schedule whose month is settled changes nothing. */
  lemma {:induction false} RunOverSettled(cfg: Settings, settled: Schedule, choices: seq<DayChoice>, n: nat)
    requires n <= |choices| && n <= DaysInMonth(cfg.year, cfg.month)
    requires forall d :: 1 <= d <= n ==>
      DateKey(cfg, d) in settled && Settled(settled[DateKey(cfg, d)], IsOpen(cfg, d), IsShortDay(cfg, d))
    ensures RunDays(cfg, settled, choices, n).schedule == settled
  {
    if n > 0 {
      RunOverSettled(cfg, settled, choices, n - 1);
      var before := RunDays(cfg, settled, choices, n - 1);
      assert RunDays(cfg, settled, choices, n) == StepDay(cfg, before, n, choices[n - 1]);
      StepOverSettled(cfg, before, n, choices[n - 1]);
    }
  }

  /** Generating the same month again over the output, with any choices,
      returns the output unchanged. */
  lemma GenerateIdempotent(cfg: Settings, current: Schedule, first: seq<DayChoice>, second: seq<DayChoice>)
    requires |first| == DaysInMonth(cfg.year, cfg.month) && ValidChoices(first)
    requires |second| == |first|
    ensures Generate(cfg, Generate(cfg, current, first), second) == Generate(cfg, current, first)
  {
    var out := Generate(cfg, current, first);
    forall d | 1 <= d <= |first|
      ensures DateKey(cfg, d) in out && Settled(out[DateKey(cfg, d)], IsOpen(cfg, d), IsShortDay(cfg, d))
    {
      GenerateSettles(cfg, current, first, d);
    }
    RunOverSettled(cfg, out, second, |second|);
  }
}
