/**
 * A personal budget over the days of a century: dates compared as
 * (year, month, day) triples, date ranges, the day counts behind them, and a
 * manager keeping one (earned, spent) pair per day that spreads incomes and
 * expenses evenly over the days of a range, sums income over a range and
 * taxes what was earned.
 *
 * `mktime` is not part of this model: a date's timestamp comes from a
 * function `stamp` given to the functions and to the manager.
 */
module BudgetDesktop {
  import opened Wrappers

  datatype Date = Date(year: int, month: int, day: int)

  /** `operator<`: lexicographic on (year, month, day). */
  predicate Less(a: Date, b: Date)
  {
    a.year < b.year || (a.year == b.year && (a.month < b.month || (a.month == b.month && a.day < b.day)))
  }

  /** `operator>`: lexicographic on (year, month, day). */
  predicate Greater(a: Date, b: Date)
  {
    a.year > b.year || (a.year == b.year && (a.month > b.month || (a.month == b.month && a.day > b.day)))
  }

  /** `operator==`: all three fields equal. */
  predicate Same(a: Date, b: Date)
  {
    a.year == b.year && a.month == b.month && a.day == b.day
  }

  /**
   * The three comparisons agree: `>` is `<` turned around, `==` is equality,
   * and exactly one of `<`, `==`, `>` holds.
   */
  lemma DateOrder(a: Date, b: Date)
    ensures Greater(a, b) <==> Less(b, a)
    ensures Same(a, b) <==> a == b
    ensures (Less(a, b) || Same(a, b) || Greater(a, b)) && !(Less(a, b) && Same(a, b))
    ensures !(Less(a, b) && Greater(a, b)) && !(Same(a, b) && Greater(a, b))
  {
  }

  /** `<` is transitive. */
  lemma LessTransitive(a: Date, b: Date, c: Date)
    requires Less(a, b) && Less(b, c)
    ensures Less(a, c)
  {
  }

  datatype DateRange = DateRange(since: Date, until: Date)

  /** `std::max` with `operator<`: the second argument only when the first is less. */
  function MaxDate(a: Date, b: Date): Date
  {
    if Less(a, b) then b else a
  }

  /** `std::min` with `operator<`: the second argument only when it is less. */
  function MinDate(a: Date, b: Date): Date
  {
    if Less(b, a) then b else a
  }

  /** The date lies within the range, both ends included. */
  predicate Within(d: Date, r: DateRange)
  {
    !Less(d, r.since) && !Less(r.until, d)
  }

  /**
   * `Intersects`: nothing when one range ends before the other starts,
   * otherwise from the later start to the earlier end.
   */
  function Intersects(lhs: DateRange, rhs: DateRange): Option<DateRange>
  {
    if Less(lhs.until, rhs.since) || Greater(lhs.since, rhs.until) then None
    else Some(DateRange(MaxDate(lhs.since, rhs.since), MinDate(lhs.until, rhs.until)))
  }

  /** A date is in both ranges exactly when there is an intersection and the date is in it. */
  lemma IntersectsWithin(lhs: DateRange, rhs: DateRange, d: Date)
    ensures Within(d, lhs) && Within(d, rhs) <==> Intersects(lhs, rhs).Some? && Within(d, Intersects(lhs, rhs).value)
  {
  }

  /** Two ranges, each ending no earlier than it starts, meet exactly when some date lies in both. */
  lemma IntersectsNone(lhs: DateRange, rhs: DateRange)
    requires !Less(lhs.until, lhs.since) && !Less(rhs.until, rhs.since)
    ensures Intersects(lhs, rhs).None? <==> forall d :: !(Within(d, lhs) && Within(d, rhs))
  {
    if Intersects(lhs, rhs).Some? {
      var r := Intersects(lhs, rhs).value;
      assert !Less(r.until, r.since);
      IntersectsWithin(lhs, rhs, r.since);
    } else {
      forall d
        ensures !(Within(d, lhs) && Within(d, rhs))
      {
        IntersectsWithin(lhs, rhs, d);
      }
    }
  }

  const SecondsInDay := 60 * 60 * 24

  /** Integer division rounding toward zero, as C++ divides. */
  function Quot(a: int, b: int): int
    requires b > 0
  {
    if a >= 0 then a / b else -((-a) / b)
  }

  /**
   * `GetDays(lhs, rhs)`: the whole days between the two timestamps, taken
   * from the earlier date to the later one, plus one.
   */
  function GetDays(lhs: Date, rhs: Date, stamp: Date -> int): int
  {
    if Less(lhs, rhs) then Quot(stamp(rhs) - stamp(lhs), SecondsInDay) + 1
    else Quot(stamp(lhs) - stamp(rhs), SecondsInDay) + 1
  }

  /** `GetDays(range)`. */
  function RangeDays(range: DateRange, stamp: Date -> int): int
  {
    GetDays(range.since, range.until, stamp)
  }

  /** `GetDays(optional<DateRange>)`: no range has no days. */
  function OptionalDays(range: Option<DateRange>, stamp: Date -> int): int
  {
    match range
    case None => 0
    case Some(r) => RangeDays(r, stamp)
  }

  /** Counting days does not depend on the order of the two dates, whatever the timestamps. */
  lemma GetDaysSymmetric(a: Date, b: Date, stamp: Date -> int)
    ensures GetDays(a, b, stamp) == GetDays(b, a, stamp)
  {
    DateOrder(a, b);
  }

  /** A date counts as one day; the missing intersection as none. */
  lemma GetDaysEnds(d: Date, stamp: Date -> int)
    ensures GetDays(d, d, stamp) == 1 && OptionalDays(None, stamp) == 0
  {
  }

  /**
   * With timestamps a whole number of days apart and not decreasing from the
   * earlier date to the later, the count is the days between plus one: both
   * ends are counted, and there is at least one day.
   */
  lemma GetDaysCounts(a: Date, b: Date, stamp: Date -> int, k: int)
    requires !Less(b, a) && 0 <= k && stamp(b) - stamp(a) == k * SecondsInDay
    ensures GetDays(a, b, stamp) == k + 1 >= 1
  {
    if !Less(a, b) {
      DateOrder(a, b);
    }
  }

  /** The first day of the index, 2000-01-01. */
  const Epoch := Date(2000, 1, 1)

  /** `GetIndex`: the days from the epoch to the date, both counted. */
  function GetIndex(d: Date, stamp: Date -> int): int
  {
    GetDays(Epoch, d, stamp)
  }

  /** The number of days the manager keeps. */
  const DayCount := 36600

  /**
   * The days of a range are addressable: both indices are non-negative (they
   * become `size_t`) and, when the range is not empty, the last one is a day
   * the manager keeps.
   */
  predicate Addressable(range: DateRange, stamp: Date -> int)
  {
    var f, t := GetIndex(range.since, stamp), GetIndex(range.until, stamp);
    0 <= f && 0 <= t && (f <= t ==> t < DayCount)
  }

  /**
   * For dates from the epoch on whose timestamps are whole days after the
   * epoch's and in date order, the indices of a range's ends are as far apart
   * as the range has days, less one: a range spans `RangeDays` indices.
   */
  lemma IndexSpan(range: DateRange, stamp: Date -> int, i: int, j: int)
    requires !Less(range.since, Epoch) && !Less(range.until, range.since)
    requires 0 <= i <= j
    requires stamp(range.since) - stamp(Epoch) == i * SecondsInDay
    requires stamp(range.until) - stamp(Epoch) == j * SecondsInDay
    ensures GetIndex(range.since, stamp) == i + 1 && GetIndex(range.until, stamp) == j + 1
    ensures RangeDays(range, stamp) == j - i + 1
  {
    GetDaysCounts(Epoch, range.since, stamp, i);
    LessTransitiveOrSame(Epoch, range.since, range.until);
    GetDaysCounts(Epoch, range.until, stamp, j);
    assert stamp(range.until) - stamp(range.since) == (j - i) * SecondsInDay;
    GetDaysCounts(range.since, range.until, stamp, j - i);
  }

  /** `<=` (not `>`) is transitive. */
  lemma LessTransitiveOrSame(a: Date, b: Date, c: Date)
    requires !Less(b, a) && !Less(c, b)
    ensures !Less(c, a)
  {
  }

  /** `Money`: what was earned and what was spent on one day. */
  datatype Money = Money(earned: real, spent: real)

  /** The days `first..last` (both included) with `per` added to what was earned. */
  function Earned(days: seq<Money>, first: int, last: int, per: real): seq<Money>
  {
    seq(|days|, i requires 0 <= i < |days| =>
      if first <= i <= last then Money(days[i].earned + per, days[i].spent) else days[i])
  }

  /** The days `first..last` (both included) with `per` added to what was spent. */
  function Spent(days: seq<Money>, first: int, last: int, per: real): seq<Money>
  {
    seq(|days|, i requires 0 <= i < |days| =>
      if first <= i <= last then Money(days[i].earned, days[i].spent + per) else days[i])
  }

  /** What is left of earnings taxed at `percentage`: `1 - percentage / 100`. */
  function TaxFactor(percentage: nat): real
  {
    1.0 - percentage as real / 100.0
  }

  /** The days `first..last` (both included) with what was earned scaled by `1 - percentage / 100`. */
  function Taxed(days: seq<Money>, first: int, last: int, percentage: nat): seq<Money>
  {
    seq(|days|, i requires 0 <= i < |days| =>
      if first <= i <= last then Money(days[i].earned * TaxFactor(percentage), days[i].spent) else days[i])
  }

  /** What was earned less what was spent, summed over the days `first..last` (nothing when `last < first`). */
  function Income(days: seq<Money>, first: int, last: int): real
    requires 0 <= first && (first <= last ==> last < |days|)
    decreases last - first + 1
  {
    if last < first then 0.0 else Income(days, first, last - 1) + (days[last].earned - days[last].spent)
  }

  /** What was earned, summed over the days `first..last`. */
  function EarnedSum(days: seq<Money>, first: int, last: int): real
    requires 0 <= first && (first <= last ==> last < |days|)
    decreases last - first + 1
  {
    if last < first then 0.0 else EarnedSum(days, first, last - 1) + days[last].earned
  }

  /** The number of days of `c..d` that also lie in `a..b`. */
  function Overlap(a: int, b: int, c: int, d: int): nat
    decreases d - c + 1
  {
    if d < c then 0 else Overlap(a, b, c, d - 1) + (if a <= d <= b then 1 else 0)
  }

  /**
   * Earning `per` a day over `a..b` raises the income of any range `c..d` by
   * `per` for each of its days in `a..b`, and spending lowers it the same way.
   */
  lemma {:induction false} IncomeAfterEarnSpend(days: seq<Money>, a: int, b: int, per: real, c: int, d: int)
    requires 0 <= c && (c <= d ==> d < |days|)
    ensures Income(Earned(days, a, b, per), c, d) == Income(days, c, d) + per * Overlap(a, b, c, d) as real
    ensures Income(Spent(days, a, b, per), c, d) == Income(days, c, d) - per * Overlap(a, b, c, d) as real
    decreases d - c + 1
  {
    if c <= d {
      IncomeAfterEarnSpend(days, a, b, per, c, d - 1);
    }
  }

  /** Every day of `a..b` lies in `a..b`. */
  lemma {:induction false} OverlapSelf(a: int, b: int)
    ensures Overlap(a, b, a, b) == if b < a then 0 else b - a + 1
    decreases b - a + 1
  {
    if a <= b {
      OverlapSelf(a, b - 1);
      OverlapWider(a, b - 1, a, b - 1);
    }
  }

  /** Counting the days of `c..d` in `a..b` or in a range one day longer gives the same when `d` is inside both. */
  lemma {:induction false} OverlapWider(a: int, b: int, c: int, d: int)
    requires d <= b
    ensures Overlap(a, b + 1, c, d) == Overlap(a, b, c, d)
    decreases d - c + 1
  {
    if c <= d {
      OverlapWider(a, b, c, d - 1);
    }
  }

  /**
   * Earning `money` over a range of `n` days, `money / n` a day, and then
   * asking for the income of the same range finds exactly `money` more.
   */
  lemma EarnThenIncome(days: seq<Money>, first: int, last: int, money: real)
    requires 0 <= first <= last < |days|
    ensures Income(Earned(days, first, last, money / (last - first + 1) as real), first, last) == Income(days, first, last) + money
  {
    var n := (last - first + 1) as real;
    IncomeAfterEarnSpend(days, first, last, money / n, first, last);
    OverlapSelf(first, last);
  }

  /**
   * For a range of dates from the epoch on, with timestamps whole days after
   * the epoch's and in date order: what `Earn` adds to the days of the range
   * is found again, in full, by `ComputeIncome` over that range.
   */
  lemma EarnRangeThenIncome(days: seq<Money>, range: DateRange, stamp: Date -> int, i: int, j: int, money: real)
    requires !Less(range.since, Epoch) && !Less(range.until, range.since)
    requires 0 <= i <= j && j + 1 < |days|
    requires stamp(range.since) - stamp(Epoch) == i * SecondsInDay
    requires stamp(range.until) - stamp(Epoch) == j * SecondsInDay
    ensures var f, t := GetIndex(range.since, stamp), GetIndex(range.until, stamp);
      0 <= f <= t < |days| &&
      Income(Earned(days, f, t, money / RangeDays(range, stamp) as real), f, t) == Income(days, f, t) + money
  {
    IndexSpan(range, stamp, i, j);
    EarnThenIncome(days, i + 1, j + 1, money);
  }

  /**
   * Paying tax at `percentage` over `a..b` lowers the income of `a..b` by
   * that share of what was earned there; spending is not taxed.
   */
  lemma {:induction false} IncomeAfterTax(days: seq<Money>, a: int, b: int, percentage: nat)
    requires 0 <= a && (a <= b ==> b < |days|)
    ensures Income(Taxed(days, a, b, percentage), a, b) == Income(days, a, b) - percentage as real / 100.0 * EarnedSum(days, a, b)
    decreases b - a + 1
  {
    if a <= b {
      TaxedBelow(days, a, b, percentage);
      IncomeAfterTax(days, a, b - 1, percentage);
    }
  }

  /** Taxing `a..b` or `a..b-1` makes no difference to the days before `b`. */
  lemma {:induction false} TaxedBelow(days: seq<Money>, a: int, b: int, percentage: nat)
    requires 0 <= a <= b < |days|
    ensures Income(Taxed(days, a, b, percentage), a, b - 1) == Income(Taxed(days, a, b - 1, percentage), a, b - 1)
    decreases b - a + 1
  {
    var t, u := Taxed(days, a, b, percentage), Taxed(days, a, b - 1, percentage);
    assert forall i :: 0 <= i < b ==> t[i] == u[i];
    IncomeSameDays(t, u, a, b - 1);
  }

  /** The income of `first..last` depends only on those days. */
  lemma {:induction false} IncomeSameDays(s: seq<Money>, u: seq<Money>, first: int, last: int)
    requires 0 <= first && (first <= last ==> last < |s| && last < |u|)
    requires forall i :: first <= i <= last ==> s[i] == u[i]
    ensures Income(s, first, last) == Income(u, first, last)
    decreases last - first + 1
  {
    if first <= last {
      IncomeSameDays(s, u, first, last - 1);
    }
  }

  /** `BudgetManager`: one `Money` per day, all zero at first. */
  class BudgetManager {
    /** The timestamp `mktime` gives a date. */
    const stamp: Date -> int
    /** `moneyPerDays_`. */
    var days: array<Money>

    ghost predicate Valid()
      reads this
    {
      days.Length == DayCount
    }

    constructor (stamp: Date -> int)
      ensures Valid() && this.stamp == stamp && fresh(days)
      ensures forall i :: 0 <= i < days.Length ==> days[i] == Money(0.0, 0.0)
    {
      this.stamp := stamp;
      days := new Money[DayCount](_ => Money(0.0, 0.0));
    }

    /**
     * `Earn`: `money` spread evenly over the days of the range, added to what
     * was earned on each; nothing else changes.
     */
    method Earn(range: DateRange, money: real)
      requires Valid() && Addressable(range, stamp) && RangeDays(range, stamp) != 0
      modifies days
      ensures days[..] == Earned(old(days[..]), GetIndex(range.since, stamp), GetIndex(range.until, stamp),
                                 money / RangeDays(range, stamp) as real)
    {
      var moneyPerDay := money / RangeDays(range, stamp) as real;
      var fromIndex, toIndex := GetIndex(range.since, stamp), GetIndex(range.until, stamp);
      var i := fromIndex;
      while i <= toIndex
        invariant fromIndex <= i && (i == fromIndex || i <= toIndex + 1)
        invariant forall k :: 0 <= k < days.Length ==>
          days[k] == if fromIndex <= k < i then Money(old(days[k]).earned + moneyPerDay, old(days[k]).spent) else old(days[k])
        decreases toIndex - i
      {
        days[i] := Money(days[i].earned + moneyPerDay, days[i].spent);
        i := i + 1;
      }
      assert i == if fromIndex <= toIndex then toIndex + 1 else fromIndex;
    }

    /**
     * `Spend`: `money` spread evenly over the days of the range, added to
     * what was spent on each; nothing else changes.
     */
    method Spend(range: DateRange, money: real)
      requires Valid() && Addressable(range, stamp) && RangeDays(range, stamp) != 0
      modifies days
      ensures days[..] == Spent(old(days[..]), GetIndex(range.since, stamp), GetIndex(range.until, stamp),
                                money / RangeDays(range, stamp) as real)
    {
      var moneyPerDay := money / RangeDays(range, stamp) as real;
      var fromIndex, toIndex := GetIndex(range.since, stamp), GetIndex(range.until, stamp);
      var i := fromIndex;
      while i <= toIndex
        invariant fromIndex <= i && (i == fromIndex || i <= toIndex + 1)
        invariant forall k :: 0 <= k < days.Length ==>
          days[k] == if fromIndex <= k < i then Money(old(days[k]).earned, old(days[k]).spent + moneyPerDay) else old(days[k])
        decreases toIndex - i
      {
        days[i] := Money(days[i].earned, days[i].spent + moneyPerDay);
        i := i + 1;
      }
      assert i == if fromIndex <= toIndex then toIndex + 1 else fromIndex;
    }

    /** `ComputeIncome`: what was earned less what was spent over the days of the range. */
    method ComputeIncome(range: DateRange) returns (income: real)
      requires Valid() && Addressable(range, stamp)
      ensures income == Income(days[..], GetIndex(range.since, stamp), GetIndex(range.until, stamp))
    {
      income := 0.0;
      var fromIndex, toIndex := GetIndex(range.since, stamp), GetIndex(range.until, stamp);
      var i := fromIndex;
      while i <= toIndex
        invariant fromIndex <= i && (i == fromIndex || i <= toIndex + 1)
        invariant income == Income(days[..], fromIndex, i - 1)
        decreases toIndex - i
      {
        income := income + (days[i].earned - days[i].spent);
        i := i + 1;
      }
      assert i == if fromIndex <= toIndex then toIndex + 1 else fromIndex;
    }

    /**
     * `PayTax`: what was earned on each day of the range is scaled by
     * `1 - percentage / 100`; what was spent, and every other day, is kept.
     */
    method PayTax(range: DateRange, percentage: nat)
      requires Valid() && Addressable(range, stamp)
      modifies days
      ensures days[..] == Taxed(old(days[..]), GetIndex(range.since, stamp), GetIndex(range.until, stamp), percentage)
    {
      var taxCoeff := percentage as real / 100.0;
      var factor := 1.0 - taxCoeff;
      assert factor == TaxFactor(percentage);
      var fromIndex, toIndex := GetIndex(range.since, stamp), GetIndex(range.until, stamp);
      var i := fromIndex;
      while i <= toIndex
        invariant fromIndex <= i && (i == fromIndex || i <= toIndex + 1)
        invariant forall k :: 0 <= k < days.Length ==>
          days[k] == if fromIndex <= k < i then Money(old(days[k]).earned * factor, old(days[k]).spent) else old(days[k])
        decreases toIndex - i
      {
        days[i] := Money(days[i].earned * factor, days[i].spent);
        i := i + 1;
      }
      assert i == if fromIndex <= toIndex then toIndex + 1 else fromIndex;
      assert forall k :: 0 <= k < days.Length ==>
        days[k] == Taxed(old(days[..]), fromIndex, toIndex, percentage)[k];
    }
  }
}
