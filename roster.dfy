/** The roster's data model: the five staff, the seven shift codes, the
    schedule map, and the pairing validator. */
module Roster {

  datatype Staff = U | I | K | T | M

  /** The staff in the order the roster lists them. */
  const AllStaff: seq<Staff> := [U, I, K, T, M]

  /** A shift code: the working shifts A and B, the short shift S (for m),
      Off (`-`), paid leave (PL), a manually entered closure (`Closed`) and
      the generator's own closure marker (`ShopClosed`). */
  datatype Shift = A | B | S | Off | PL | Closed | ShopClosed

  /** The codes of one date. A staff member without an entry is unset,
      which is not the same as a stored Off. */
  type Day = map<Staff, Shift>

  /** Date key to that date's codes. */
  type Schedule = map<string, Day>

  lemma AllStaffListed()
    ensures forall s :: s in AllStaff
  {
    forall s ensures s in AllStaff {
      match s
      case U => assert AllStaff[0] == s;
      case I => assert AllStaff[1] == s;
      case K => assert AllStaff[2] == s;
      case T => assert AllStaff[3] == s;
      case M => assert AllStaff[4] == s;
    }
  }

  predicate IsWork(c: Shift) {
    c == A || c == B
  }

  function Opposite(c: Shift): (r: Shift)
    requires IsWork(c)
    ensures IsWork(r) && r != c
  {
    if c == A then B else A
  }

  /** `s` has code `c` on `day`. */
  predicate Holds(day: Day, s: Staff, c: Shift) {
    s in day && day[s] == c
  }

  /** The codes stored for `date`; a date without an entry reads as empty. */
  function DayOf(schedule: Schedule, date: string): (day: Day)
    ensures date in schedule ==> day == schedule[date]
    ensures date !in schedule ==> day == map[]
  {
    if date in schedule then schedule[date] else map[]
  }

  predicate IsHoliday(date: string, holidays: set<string>) {
    date in holidays
  }

  // ---------------------------------------------------------------------
  // Validator

  datatype Validation = Valid | Invalid(message: string)

  const PairUIWarning := "Warning: U & I have same shift"
  const PairKTWarning := "Warning: K & T have same shift"

  /** `x` and `y` work the same shift, A or B, on `day`. */
  predicate SameWorkShift(day: Day, x: Staff, y: Staff) {
    exists c :: IsWork(c) && Holds(day, x, c) && Holds(day, y, c)
  }

  /** Checks the two pairs of `date`: u with i first, then k with t. */
  function ValidateRoster(schedule: Schedule, date: string): (r: Validation)
    ensures r.Invalid? <==> SameWorkShift(DayOf(schedule, date), U, I) || SameWorkShift(DayOf(schedule, date), K, T)
    ensures SameWorkShift(DayOf(schedule, date), U, I) ==> r == Invalid(PairUIWarning)
    ensures !SameWorkShift(DayOf(schedule, date), U, I) && SameWorkShift(DayOf(schedule, date), K, T)
            ==> r == Invalid(PairKTWarning)
  {
    var day := DayOf(schedule, date);
    if U in day && I in day && IsWork(day[U]) && day[U] == day[I] then
      Invalid(PairUIWarning)
    else if K in day && T in day && IsWork(day[K]) && day[K] == day[T] then
      Invalid(PairKTWarning)
    else
      Valid
  }

  /** Only A and B collide: S, Off, PL, Closed, ShopClosed and missing
      entries never make a pair invalid. */
  lemma OnlyWorkShiftsConflict(day: Day, x: Staff, y: Staff)
    requires !(x in day && IsWork(day[x]))
    ensures !SameWorkShift(day, x, y)
  {
  }
}
