/** The month arithmetic of `DatePicker.change_month` in date_picker.py:
    step the shown month by `delta`, carrying into the year with Python's
    floor division and modulo. */
module DatePicker {
  import opened PyInt

  /** The `month` and `year` fields of the picker. */
  datatype Shown = Shown(month: int, year: int)

  predicate Valid(s: Shown)
  {
    1 <= s.month <= 12
  }

  /** The number of months since January of year 0. */
  function Index(s: Shown): int
  {
    s.year * 12 + (s.month - 1)
  }

  /** `change_month(delta)` on the two fields. */
  function ChangeMonth(s: Shown, delta: int): (r: Shown)
    ensures Valid(r)
    ensures Index(r) == Index(s) + delta
  {
    var m := s.month + delta - 1;
    Shown(FloorMod(m, 12) + 1, s.year + FloorDiv(m, 12))
  }

  /** A valid month and year are determined by the month count. */
  lemma IndexInjective(a: Shown, b: Shown)
    requires Valid(a) && Valid(b) && Index(a) == Index(b)
    ensures a == b
  {
  }

  /** Stepping by 0, as the constructor does to draw the first month,
      changes nothing. */
  lemma StayPut(s: Shown)
    requires Valid(s)
    ensures ChangeMonth(s, 0) == s
  {
    IndexInjective(ChangeMonth(s, 0), s);
  }

  /** Two steps make one step by their sum. */
  lemma Compose(s: Shown, d: int, e: int)
    ensures ChangeMonth(ChangeMonth(s, d), e) == ChangeMonth(s, d + e)
  {
    IndexInjective(ChangeMonth(ChangeMonth(s, d), e), ChangeMonth(s, d + e));
  }

  /** The `<` button undoes the `>` button, and any step is undone by its
      opposite. */
  lemma StepBack(s: Shown, d: int)
    requires Valid(s)
    ensures ChangeMonth(ChangeMonth(s, d), -d) == s
  {
    Compose(s, d, -d);
    StayPut(s);
  }

  /** `>` in December shows January of the next year; `<` in January shows
      December of the previous year; inside the year only the month moves. */
  lemma YearRollover(s: Shown)
    requires Valid(s)
    ensures ChangeMonth(s, 1) == if s.month == 12 then Shown(1, s.year + 1) else Shown(s.month + 1, s.year)
    ensures ChangeMonth(s, -1) == if s.month == 1 then Shown(12, s.year - 1) else Shown(s.month - 1, s.year)
  {
    IndexInjective(ChangeMonth(s, 1), if s.month == 12 then Shown(1, s.year + 1) else Shown(s.month + 1, s.year));
    IndexInjective(ChangeMonth(s, -1), if s.month == 1 then Shown(12, s.year - 1) else Shown(s.month - 1, s.year));
  }
}
