/**
 Turnaround in working days.  Dates are day ordinals counted from a Monday, so
 `d % 7` is Python's `weekday()`; 5 and 6 are Saturday and Sunday.
 */
module DueDate {

  predicate Working(d: int) {
    d % 7 < 5
  }

  /** Working days after `from`, up to and including `to`. */
  function WorkingDays(from: int, to: int): nat
    decreases to - from
  {
    if to <= from then 0 else WorkingDays(from, to - 1) + if Working(to) then 1 else 0
  }

  /** Whole weeks plus a remainder, counted from the last working day on or before the start. */
  function ClosedForm(start: int, days: nat): int {
    var back := if Working(start) then 0 else start % 7 - 4;
    var base := start - back;
    base + days + 2 * ((base % 7 + days) / 5)
  }

  /** Moving `days` forward to `to` takes exactly that many working days and stops on one. */
  ghost predicate IsDue(start: int, days: nat, to: int) {
    && start < to && Working(to)
    && WorkingDays(start, to) == days
    && forall d | start < d < to :: WorkingDays(start, d) < days
  }

  lemma {:induction false} WorkingDaysMonotone(from: int, a: int, b: int)
    requires a <= b
    ensures WorkingDays(from, a) <= WorkingDays(from, b)
    decreases b - a
  {
    if a < b {
      WorkingDaysMonotone(from, a, b - 1);
    }
  }

  method DueOn(turnaround: int, today: int) returns (d: int)
    ensures turnaround <= 0 ==> d == today
    ensures turnaround > 0 ==> IsDue(today, turnaround, d) && d == ClosedForm(today, turnaround)
  {
    d := today;
    var added := 0;
    while added < turnaround
      invariant d >= today && added == WorkingDays(today, d)
      invariant d == today || turnaround > 0
      invariant added >= turnaround > 0 ==> IsDue(today, turnaround, d)
      decreases turnaround - added, 7 - d % 7
    {
      d := d + 1;
      if d % 7 < 5 {
        added := added + 1;
      }
      if added >= turnaround > 0 {
        forall e | today < e < d
          ensures WorkingDays(today, e) < turnaround
        {
          WorkingDaysMonotone(today, e, d - 1);
        }
      }
    }
    if turnaround > 0 {
      DueDateIsClosedForm(today, turnaround, d);
    }
  }

  /** The last working day on or before the start, and which weekday that is. */
  lemma BaseIsWorking(start: int) returns (base: int, w: nat)
    ensures w < 5 && base % 7 == w && start - 2 <= base <= start
    ensures forall days: nat :: ClosedForm(start, days) == base + days + 2 * ((w + days) / 5)
  {
    base := start - if Working(start) then 0 else start % 7 - 4;
    w := base % 7;
  }

  /** `s` working days after a Monday: s / 5 weeks and s % 5 days on. */
  lemma WeeksAndDays(base: int, w: nat, s: nat)
    requires w < 5 && base % 7 == w && s >= w
    ensures (base + (s - w) + 2 * (s / 5)) % 7 == s % 5
  {
    assert base + (s - w) + 2 * (s / 5) == 7 * ((base - w) / 7 + s / 5) + s % 5;
  }

  /** One more working day moves the closed form to the next working day. */
  lemma ClosedFormStep(start: int, days: nat)
    ensures var a, b := ClosedForm(start, days), ClosedForm(start, days + 1);
            Working(a) && Working(b) && (b == a + 1 || (b == a + 3 && a % 7 == 4))
  {
    var base, w := BaseIsWorking(start);
    WeeksAndDays(base, w, w + days);
    WeeksAndDays(base, w, w + days + 1);
  }

  lemma NextWorkingDayCounts(start: int, a: int, b: int)
    requires Working(b) && start < b && (b == a + 1 || (b == a + 3 && a % 7 == 4))
    ensures WorkingDays(start, b) == WorkingDays(start, a) + 1
  {
    if b == a + 3 {
      assert !Working(a + 1) && !Working(a + 2);
      assert WorkingDays(start, b - 1) == WorkingDays(start, b - 2);
    }
  }

  lemma ClosedFormStart(start: int)
    ensures ClosedForm(start, 0) <= start < ClosedForm(start, 1)
  {
  }

  lemma {:induction false} ClosedFormCounts(start: int, days: nat)
    ensures WorkingDays(start, ClosedForm(start, days)) == days
    ensures days > 0 ==> ClosedForm(start, days) > start
  {
    ClosedFormStart(start);
    if days > 0 {
      ClosedFormCounts(start, days - 1);
      ClosedFormStep(start, days - 1);
      NextWorkingDayCounts(start, ClosedForm(start, days - 1), ClosedForm(start, days));
    }
  }

  lemma DueDateIsUnique(start: int, days: nat, a: int, b: int)
    requires IsDue(start, days, a) && IsDue(start, days, b)
    ensures a == b
  {
  }

  /** The date the loop finds is the closed form. */
  lemma DueDateIsClosedForm(start: int, days: nat, to: int)
    requires days > 0
    ensures IsDue(start, days, to) <==> to == ClosedForm(start, days)
  {
    var c := ClosedForm(start, days);
    ClosedFormStep(start, days);
    ClosedFormCounts(start, days);
    assert WorkingDays(start, c - 1) == days - 1;
    forall d | start < d < c
      ensures WorkingDays(start, d) < days
    {
      WorkingDaysMonotone(start, d, c - 1);
    }
    if IsDue(start, days, to) {
      DueDateIsUnique(start, days, to, c);
    }
  }
}
