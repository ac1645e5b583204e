/** Arithmetic modulo seven behind the weekday formulas. */
module WeekArithmetic {

  /** Cut at the month end, those are the days congruent to `c + 1` modulo seven. */
  lemma RowOfColumn(c: int, d: int, lastDay: int)
    requires 0 <= c < 7 && 28 <= lastDay <= 31
    ensures d == c + 1 || d == c + 8 || d == c + 15 || d == c + 22 || (c + 29 <= lastDay && d == c + 29)
            <==> 1 <= d <= lastDay && (d - 1) % 7 == c
  {
    if d == c + 1 || d == c + 8 || d == c + 15 || d == c + 22 || (c + 29 <= lastDay && d == c + 29) {
      assert (d - 1) % 7 == c;
    } else if 1 <= d <= lastDay {
      var q := (d - 1) / 7;
      assert d == 7 * q + (d - 1) % 7 + 1 && 0 <= q <= 4;
    }
  }

  lemma ColumnAndRow(d: int, c: int, k: int)
    requires 0 <= c < 7
    ensures (d - 1) % 7 == c && (d + 6 - c) / 7 == k + 1 <==> d == 1 + 7 * k + c
  {
    if (d - 1) % 7 == c {
      assert d - 1 == 7 * ((d - 1) / 7) + c;
      assert (d + 6 - c) / 7 == (d - 1) / 7 + 1;
    }
  }

  /** In a week that starts on weekday `first`, day `k` of the week has weekday `w`. */
  lemma DayOfWeek(first: int, w: int, k: int)
    requires 0 <= first < 7 && 0 <= w < 7 && 0 <= k < 7
    ensures (first + k) % 7 == w <==> k == (7 - first + w) % 7
  {
  }

  lemma ModAbsorbs(a: int, code: int)
    ensures (a + code) % 7 == (a + code % 7) % 7
  {
    assert a + code == a + code % 7 + 7 * (code / 7);
  }
}
