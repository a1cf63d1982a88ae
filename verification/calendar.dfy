/** The world clock a turn advances (client/src/lib/engine.ts): days run 1 to
    30 in a month and months 1 to 12 in a year. */
module Calendar {
  import opened Types

  predicate ValidDate(w: WorldData) {
    1 <= w.day <= 30 && 1 <= w.month <= 12
  }

  /** The number of days from day 1 of month 1 of year 0 to `w`: the
      reference against which the clock is checked. */
  function Ordinal(w: WorldData): int {
    (w.year * 12 + w.month - 1) * 30 + w.day - 1
  }

  /** One day passes: the day counter steps, rolling over into the next month
      after day 30, and the month counter rolls over into the next year after
      month 12. */
  function AdvanceDay(w: WorldData): (r: WorldData)
    ensures ValidDate(w) ==> ValidDate(r) && Ordinal(r) == Ordinal(w) + 1
    ensures w.day < 30 ==> r == w.(day := w.day + 1)
    ensures w.day == 30 && w.month < 12 ==> r == WorldData(w.year, w.month + 1, 1)
    ensures w.day == 30 && w.month == 12 ==> r == WorldData(w.year + 1, 1, 1)
  {
    var day := w.day + 1;
    if day > 30 then
      var month := w.month + 1;
      if month > 12 then WorldData(w.year + 1, 1, 1) else WorldData(w.year, month, 1)
    else
      w.(day := day)
  }

  /** Valid dates are told apart by their ordinal. */
  lemma OrdinalInjective(a: WorldData, b: WorldData)
    requires ValidDate(a) && ValidDate(b)
    requires Ordinal(a) == Ordinal(b)
    ensures a == b
  {
    assert Ordinal(a) / 30 == a.year * 12 + a.month - 1 && Ordinal(a) % 30 == a.day - 1;
    assert Ordinal(b) / 30 == b.year * 12 + b.month - 1 && Ordinal(b) % 30 == b.day - 1;
    var m := a.year * 12 + a.month - 1;
    assert m / 12 == a.year && m % 12 == a.month - 1;
    assert m / 12 == b.year && m % 12 == b.month - 1;
  }

  /** `n` turns' worth of days. */
  function AdvanceDays(w: WorldData, n: nat): WorldData
    decreases n
  {
    if n == 0 then w else AdvanceDays(AdvanceDay(w), n - 1)
  }

  /** `n` days later is exactly `n` days further along, still a valid date. */
  lemma {:induction false} AdvanceDaysOrdinal(w: WorldData, n: nat)
    requires ValidDate(w)
    ensures ValidDate(AdvanceDays(w, n))
    ensures Ordinal(AdvanceDays(w, n)) == Ordinal(w) + n
    decreases n
  {
    if n > 0 {
      AdvanceDaysOrdinal(AdvanceDay(w), n - 1);
    }
  }

  /** Thirty days bring the same day of the next month. */
  lemma ThirtyDaysMakeAMonth(w: WorldData)
    requires ValidDate(w)
    ensures AdvanceDays(w, 30) ==
      if w.month < 12 then w.(month := w.month + 1) else WorldData(w.year + 1, 1, w.day)
  {
    var next := if w.month < 12 then w.(month := w.month + 1) else WorldData(w.year + 1, 1, w.day);
    AdvanceDaysOrdinal(w, 30);
    OrdinalInjective(AdvanceDays(w, 30), next);
  }
}
