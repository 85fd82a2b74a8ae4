/** Calendar days and the business-day lookback that labels the five
    quantity inputs of the meal forecast form.

    A day is a proleptic Gregorian ordinal, numbered as Python's
    `date.toordinal()` numbers it: 0001-01-01 is day 1 and a Monday. */
module Calendar {

  /** 0001-01-01, the smallest value of Python's `date`. */
  const MinOrdinal: int := 1
  /** 9999-12-31, the largest value of Python's `date`. */
  const MaxOrdinal: int := 3652059

  /** A value of Python's `date` type. */
  type Date = d: int | MinOrdinal <= d <= MaxOrdinal witness MinOrdinal

  /** Python's `date.weekday()`: 0 is Monday, 4 is Friday, 6 is Sunday. */
  function Weekday(d: int): (w: int)
    ensures 0 <= w < 7
  {
    (d + 6) % 7
  }

  /** The lookback's notion of a business day: Monday to Friday, holidays included. */
  predicate IsBusinessDay(d: int) {
    Weekday(d) < 5
  }

  /** The latest business day strictly before `d`. */
  function PrevBusinessDay(d: int): (p: int)
    ensures d - 3 <= p < d
    ensures IsBusinessDay(p)
    ensures forall x :: p < x < d ==> !IsBusinessDay(x)
  {
    var w := Weekday(d - 1);
    if w < 5 then d - 1
    else if w == 5 then (assert Weekday(d - 2) == 4; d - 2)
    else (assert Weekday(d - 2) == 5 && Weekday(d - 3) == 4; d - 3)
  }

  /** Reference definition: the `n` latest business days strictly before `d`,
      the most recent first. */
  function RecentBusinessDays(d: int, n: nat): seq<int>
    decreases n
  {
    if n == 0 then [] else [PrevBusinessDay(d)] + RecentBusinessDays(PrevBusinessDay(d), n - 1)
  }

  /** How far back the lookback reaches: the oldest of the `n` days, or `d`
      itself when nothing is collected. */
  function Horizon(d: int, n: nat): int
    decreases n
  {
    if n == 0 then d else Horizon(PrevBusinessDay(d), n - 1)
  }

  predicate StrictlyDecreasing(s: seq<int>) {
    forall i, j :: 0 <= i < j < |s| ==> s[i] > s[j]
  }

  predicate StrictlyIncreasing(s: seq<int>) {
    forall i, j :: 0 <= i < j < |s| ==> s[i] < s[j]
  }

  /** What the lookback promises of `s`: exactly `n` business days, all before
      `d`, most recent first, and no business day between the oldest of them
      and `d` skipped. */
  predicate IsLookback(d: int, n: nat, s: seq<int>) {
    && |s| == n
    && StrictlyDecreasing(s)
    && (forall i :: 0 <= i < |s| ==> s[i] < d && IsBusinessDay(s[i]))
    && (forall x :: (if n == 0 then d else s[n - 1]) <= x < d && IsBusinessDay(x) ==> x in s)
  }

  lemma {:induction false} LengthOfRecent(d: int, n: nat)
    ensures |RecentBusinessDays(d, n)| == n
    decreases n
  {
    if n > 0 {
      LengthOfRecent(PrevBusinessDay(d), n - 1);
    }
  }

  /** The oldest collected day is the horizon. */
  lemma {:induction false} HorizonIsOldest(d: int, n: nat)
    requires n > 0
    ensures |RecentBusinessDays(d, n)| == n
    ensures RecentBusinessDays(d, n)[n - 1] == Horizon(d, n)
    decreases n
  {
    LengthOfRecent(d, n);
    if n > 1 {
      HorizonIsOldest(PrevBusinessDay(d), n - 1);
    }
  }

  /** Looking back `n + 1` days extends looking back `n` days by the latest
      business day before the horizon: the loop's append step. */
  lemma {:induction false} RecentSnoc(d: int, n: nat)
    ensures RecentBusinessDays(d, n + 1) == RecentBusinessDays(d, n) + [PrevBusinessDay(Horizon(d, n))]
    ensures Horizon(d, n + 1) == PrevBusinessDay(Horizon(d, n))
    decreases n
  {
    if n > 0 {
      RecentSnoc(PrevBusinessDay(d), n - 1);
    }
  }

  /** Looking further back never moves the horizon forward. */
  lemma {:induction false} HorizonMonotone(d: int, k: nat, m: nat)
    requires k <= m
    ensures Horizon(d, m) <= Horizon(d, k)
    decreases m
  {
    if k < m {
      RecentSnoc(d, m - 1);
      HorizonMonotone(d, k, m - 1);
    }
  }

  /** A later base date never has an earlier horizon. */
  lemma {:induction false} HorizonMonotoneInDay(d1: int, d2: int, n: nat)
    requires d1 <= d2
    ensures Horizon(d1, n) <= Horizon(d2, n)
    decreases n
  {
    if n > 0 {
      var p1, p2 := PrevBusinessDay(d1), PrevBusinessDay(d2);
      // p1 is a business day before d2, and none lies strictly between p2 and d2.
      assert p1 <= p2;
      HorizonMonotoneInDay(p1, p2, n - 1);
    }
  }

  /** Looking back `n + m` days is looking back `n` days and then `m` more from
      the horizon. */
  lemma {:induction false} RecentAppend(d: int, n: nat, m: nat)
    ensures RecentBusinessDays(d, n + m) == RecentBusinessDays(d, n) + RecentBusinessDays(Horizon(d, n), m)
    ensures Horizon(d, n + m) == Horizon(Horizon(d, n), m)
    decreases n
  {
    if n > 0 {
      RecentAppend(PrevBusinessDay(d), n - 1, m);
    }
  }

  /** One day back is one weekday back, Monday wrapping to Sunday. */
  lemma WeekdayStep(d: int)
    ensures Weekday(d - 1) == if Weekday(d) == 0 then 6 else Weekday(d) - 1
  {
  }

  /** The latest business day before `x`, read off the weekday of `x`. */
  lemma PrevByWeekday(x: int)
    ensures PrevBusinessDay(x) == if Weekday(x) == 0 then x - 3 else if Weekday(x) == 6 then x - 2 else x - 1
    ensures Weekday(PrevBusinessDay(x)) == if Weekday(x) == 0 then 4 else if Weekday(x) == 6 then 4 else Weekday(x) - 1
  {
    WeekdayStep(x);
    WeekdayStep(x - 1);
    WeekdayStep(x - 2);
  }

  /** Every week holds five business days: five steps back from a business
      day land on the same weekday one week earlier. */
  lemma FiveStepsIsOneWeek(b: int)
    requires IsBusinessDay(b)
    ensures Horizon(b, 5) == b - 7
  {
    var p1 := PrevBusinessDay(b);
    var p2 := PrevBusinessDay(p1);
    var p3 := PrevBusinessDay(p2);
    var p4 := PrevBusinessDay(p3);
    var p5 := PrevBusinessDay(p4);
    assert Horizon(b, 5) == p5;
    PrevByWeekday(b);
    PrevByWeekday(p1);
    PrevByWeekday(p2);
    PrevByWeekday(p3);
    PrevByWeekday(p4);
  }

  /** Termination bound of the loop: once one business day is collected,
      every further five collected days cost exactly seven days of walking. */
  lemma WeekPerFiveDays(d: int, n: nat)
    requires n > 0
    ensures Horizon(d, n + 5) == Horizon(d, n) - 7
  {
    RecentAppend(d, n, 5);
    HorizonIsBusinessDay(d, n);
    FiveStepsIsOneWeek(Horizon(d, n));
  }

  lemma {:induction false} HorizonIsBusinessDay(d: int, n: nat)
    requires n > 0
    ensures IsBusinessDay(Horizon(d, n))
    decreases n
  {
    if n > 1 {
      HorizonIsBusinessDay(PrevBusinessDay(d), n - 1);
    }
  }

  /** The reference definition meets the lookback's promise. */
  lemma {:induction false} RecentIsLookback(d: int, n: nat)
    ensures IsLookback(d, n, RecentBusinessDays(d, n))
    decreases n
  {
    LengthOfRecent(d, n);
    if n > 0 {
      var p := PrevBusinessDay(d);
      var rest := RecentBusinessDays(p, n - 1);
      var s := RecentBusinessDays(d, n);
      RecentIsLookback(p, n - 1);
      assert s == [p] + rest;
      assert forall i :: 0 < i < |s| ==> s[i] == rest[i - 1];
      assert forall i :: 0 <= i < |s| ==> s[i] <= p && s[i] < d && IsBusinessDay(s[i]);
      assert StrictlyDecreasing(s);
      var low := s[n - 1];
      forall x | low <= x < d && IsBusinessDay(x)
        ensures x in s
      {
        if x != p {
          assert x < p;
          if n == 1 {
            assert false;
          } else {
            assert rest[n - 2] == low;
          }
        }
      }
    }
  }

  /** The lookback's promise determines the sequence: the reference
      definition is the only sequence that meets it. */
  lemma {:induction false} LookbackUnique(d: int, n: nat, s: seq<int>)
    requires IsLookback(d, n, s)
    ensures s == RecentBusinessDays(d, n)
    decreases n
  {
    if n > 0 {
      var p := PrevBusinessDay(d);
      // s[0] is a business day before d, so it is at most p; p lies between
      // the oldest day and d, so it is in s, hence at most s[0].
      assert s[0] <= p;
      assert s[n - 1] <= s[0];
      assert p in s;
      assert s[0] == p;
      var rest := s[1..];
      assert forall i :: 0 <= i < |rest| ==> rest[i] == s[i + 1];
      forall x | (if n - 1 == 0 then p else rest[n - 2]) <= x < p && IsBusinessDay(x)
        ensures x in rest
      {
        assert x in s;
        var i :| 0 <= i < |s| && s[i] == x;
        assert i != 0;
        assert rest[i - 1] == x;
      }
      assert IsLookback(p, n - 1, rest);
      LookbackUnique(p, n - 1, rest);
      assert s == [s[0]] + rest;
    }
  }

  /** Reversing turns the most-recent-first lookback into chronological order. */
  function Reversed<T>(s: seq<T>): (r: seq<T>)
    ensures |r| == |s|
    ensures forall i :: 0 <= i < |s| ==> r[i] == s[|s| - 1 - i]
  {
    if s == [] then [] else Reversed(s[1..]) + [s[0]]
  }

  lemma ReversedLookbackIsChronological(d: int, n: nat)
    ensures |RecentBusinessDays(d, n)| == n
    ensures StrictlyIncreasing(Reversed(RecentBusinessDays(d, n)))
    ensures n > 0 ==> Reversed(RecentBusinessDays(d, n))[n - 1] == PrevBusinessDay(d)
  {
    RecentIsLookback(d, n);
  }

  /** The count a loop `while len(days) < n` collects: a negative `n` collects nothing. */
  function Wanted(n: int): (k: nat)
    ensures k == 0 <==> n <= 0
    ensures n >= 0 ==> k == n
  {
    if n < 0 then 0 else n
  }

  /** Outcome of the lookback: the collected days, or the OverflowError that
      Python's date arithmetic raises below 0001-01-01. */
  datatype Lookback = Found(days: seq<Date>) | OverflowError

  /** `dias_uteis_anteriores`: walk back one day at a time from the day before
      `base`, keeping Monday to Friday, until `n` days are kept. The day cursor
      is decremented once more after the last day is kept, so the walk fails
      exactly when that final step leaves the range of `date`. */
  method PreviousBusinessDays(base: Date, n: int) returns (r: Lookback)
    ensures r.Found? <==> Horizon(base, Wanted(n)) > MinOrdinal
    ensures r.Found? ==> r.days == RecentBusinessDays(base, Wanted(n))
    ensures r.Found? ==> IsLookback(base, Wanted(n), r.days)
  {
    var want := Wanted(n);
    if base - 1 < MinOrdinal {
      HorizonMonotone(base, 0, want);
      return OverflowError;
    }
    var days: seq<Date> := [];
    var current: Date := base - 1;
    while |days| < n
      invariant |days| <= want
      invariant days == RecentBusinessDays(base, |days|)
      invariant PrevBusinessDay(Horizon(base, |days|)) <= current < Horizon(base, |days|)
      invariant |days| == want ==> current == Horizon(base, |days|) - 1
      decreases n - |days|, current - PrevBusinessDay(Horizon(base, |days|))
    {
      ghost var k := |days|;
      ghost var h := Horizon(base, k);
      RecentSnoc(base, k);
      if IsBusinessDay(current) {
        assert current == PrevBusinessDay(h);
        days := days + [current];
        assert days == RecentBusinessDays(base, k + 1);
      } else {
        assert current != PrevBusinessDay(h);
      }
      if current - 1 < MinOrdinal {
        HorizonMonotone(base, k + 1, want);
        return OverflowError;
      }
      current := current - 1;
    }
    RecentIsLookback(base, want);
    return Found(days);
  }

  /** The form's call site: the five business days before the forecast date,
      the most recent first. */
  lemma FiveDaysBeforeMonday()
    ensures RecentBusinessDays(739047, 5) == [739044, 739043, 739042, 739041, 739040]
  {
  }
}
