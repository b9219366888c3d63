/**
 * The streak engine over a sparse history `day -> status` (the `day_status`
 * dictionary of db.py): the backward walks, the seven-slot window and the
 * best-streak high-water mark.
 */
module Streaks {
  import opened Common

  type History = map<Day, Status>

  /** `day_status.get(d) in ("done", "partial")`. */
  predicate CountsOn(ds: History, d: Day) {
    d in ds && Extends(ds[d])
  }

  /** `day_status.get(d)`. */
  function StatusOn(ds: History, d: Day): (r: Option<Status>)
    ensures r.Some? <==> d in ds
    ensures r.Some? ==> r.value == ds[d]
  {
    if d in ds then Some(ds[d]) else None
  }

  /** The recorded days up to and including `d`; a walk backward can visit only these. */
  function DaysUpTo(ds: History, d: Day): set<Day> {
    set k | k in ds && k <= d
  }

  lemma DaysUpToShrinks(ds: History, d: Day)
    requires d in ds
    ensures |DaysUpTo(ds, d - 1)| < |DaysUpTo(ds, d)|
  {
    assert DaysUpTo(ds, d) == DaysUpTo(ds, d - 1) + {d};
  }

  lemma SubsetCard(a: set<Day>, b: set<Day>)
    requires a <= b
    ensures |a| <= |b|
  {
    assert b == a + (b - a);
  }

  /** The unbounded backward walk of `get_streak_for_user`, anchored at `d`. */
  function RunEndingAt(ds: History, d: Day): nat
    decreases |DaysUpTo(ds, d)|
  {
    if !CountsOn(ds, d) then 0
    else
      DaysUpToShrinks(ds, d);
      1 + RunEndingAt(ds, d - 1)
  }

  /** The walk of `get_week_stats_for_user`: the same, but it looks at no more than `cap` days. */
  function RunCapped(ds: History, d: Day, cap: nat): nat
    decreases cap
  {
    if cap == 0 || !CountsOn(ds, d) then 0 else 1 + RunCapped(ds, d - 1, cap - 1)
  }

  /** `n` is the length of the streak ending at `d`: the `n` days up to `d` count and the day before them does not. */
  ghost predicate IsStreakAt(ds: History, d: Day, n: nat) {
    (forall k :: d - n < k <= d ==> CountsOn(ds, k)) && !CountsOn(ds, d - n)
  }

  /** The unbounded walk stops exactly at the first missing or failed day. */
  lemma {:induction false} RunEndingAtIsStreak(ds: History, d: Day)
    ensures IsStreakAt(ds, d, RunEndingAt(ds, d))
    decreases |DaysUpTo(ds, d)|
  {
    if CountsOn(ds, d) {
      DaysUpToShrinks(ds, d);
      RunEndingAtIsStreak(ds, d - 1);
    }
  }

  /** A streak length is determined by the history: whatever satisfies `IsStreakAt` is the walk's result. */
  lemma {:induction false} StreakIsUnique(ds: History, d: Day, n: nat)
    requires IsStreakAt(ds, d, n)
    ensures n == RunEndingAt(ds, d)
    decreases n
  {
    if n > 0 {
      assert CountsOn(ds, d);
      assert IsStreakAt(ds, d - 1, n - 1);
      StreakIsUnique(ds, d - 1, n - 1);
    }
  }

  /** The seven-day walk is the unbounded walk cut off at its cap. */
  lemma {:induction false} CappedRunIsMin(ds: History, d: Day, cap: nat)
    ensures RunCapped(ds, d, cap) == Min(RunEndingAt(ds, d), cap)
    decreases cap
  {
    if cap > 0 && CountsOn(ds, d) {
      CappedRunIsMin(ds, d - 1, cap - 1);
    }
  }

  /** A streak can only pass over recorded days, so it is no longer than the number of them. */
  lemma {:induction false} RunWithinRecordedDays(ds: History, d: Day)
    ensures RunEndingAt(ds, d) <= |DaysUpTo(ds, d)| <= |ds.Keys|
    decreases |DaysUpTo(ds, d)|
  {
    SubsetCard(DaysUpTo(ds, d), ds.Keys);
    if CountsOn(ds, d) {
      DaysUpToShrinks(ds, d);
      RunWithinRecordedDays(ds, d - 1);
    }
  }

  /** The `for _ in range(7)` loop of `get_week_stats_for_user`. */
  method WeekStreak(ds: History, today: Day) returns (streak: nat)
    ensures streak <= 7
    ensures forall k :: today - streak < k <= today ==> CountsOn(ds, k)
    ensures streak < 7 ==> !CountsOn(ds, today - streak)
    ensures streak == RunCapped(ds, today, 7)
  {
    streak := 0;
    var d := today;
    for i := 0 to 7
      invariant streak == i && d == today - streak
      invariant forall k :: d < k <= today ==> CountsOn(ds, k)
      invariant RunCapped(ds, today, 7) == streak + RunCapped(ds, d, 7 - streak)
    {
      var status := StatusOn(ds, d);
      if status.Some? && Extends(status.value) {
        streak := streak + 1;
        d := d - 1;
      } else {
        break;
      }
    }
  }

  /** The `while True` loop of `get_streak_for_user`, walking back from the latest recorded day. */
  method StreakFrom(ds: History, last: Day) returns (streak: nat)
    ensures forall k :: last - streak < k <= last ==> CountsOn(ds, k)
    ensures !CountsOn(ds, last - streak)
    ensures streak == RunEndingAt(ds, last)
  {
    streak := 0;
    var d := last;
    while true
      invariant d == last - streak
      invariant forall k :: d < k <= last ==> CountsOn(ds, k)
      invariant RunEndingAt(ds, last) == streak + RunEndingAt(ds, d)
      decreases |DaysUpTo(ds, d)|
    {
      var status := StatusOn(ds, d);
      if status.Some? && Extends(status.value) {
        DaysUpToShrinks(ds, d);
        streak := streak + 1;
        d := d - 1;
      } else {
        break;
      }
    }
  }

  /** `n` consecutive slots starting at `start`, each the day's status or nothing. */
  function DaysFrom(ds: History, start: Day, n: nat): (days: seq<Option<Status>>)
    ensures |days| == n
  {
    if n == 0 then [] else DaysFrom(ds, start, n - 1) + [StatusOn(ds, start + n - 1)]
  }

  /** The `last_7_days_statuses.append` loop: seven slots, oldest first, slot i for day today - 6 + i. */
  method LastSevenDays(ds: History, today: Day) returns (days: seq<Option<Status>>)
    ensures |days| == 7
    ensures forall i :: 0 <= i < 7 ==> days[i] == StatusOn(ds, today - 6 + i)
    ensures days == DaysFrom(ds, today - 6, 7)
  {
    days := [];
    var d := today - 6;
    for i := 0 to 7
      invariant d == today - 6 + i
      invariant days == DaysFrom(ds, today - 6, i)
    {
      days := days + [StatusOn(ds, d)];
      d := d + 1;
    }
    DaysFromAt(ds, today - 6, 7);
  }

  lemma {:induction false} DaysFromAt(ds: History, start: Day, n: nat)
    ensures forall i :: 0 <= i < n ==> DaysFrom(ds, start, n)[i] == StatusOn(ds, start + i)
  {
    if n > 0 {
      DaysFromAt(ds, start, n - 1);
    }
  }

  /** The recorded days in `[lo, lo + n)`. */
  function RecordedIn(ds: History, lo: Day, n: nat): set<Day> {
    set k | k in ds && lo <= k < lo + n
  }

  function IsSome(o: Option<Status>): bool {
    o.Some?
  }

  /** The number of filled slots in a window is the number of recorded days it covers. */
  lemma {:induction false} FilledSlotsAreRecordedDays(ds: History, lo: Day, n: nat)
    ensures Count(DaysFrom(ds, lo, n), IsSome) == |RecordedIn(ds, lo, n)|
  {
    if n > 0 {
      var days := DaysFrom(ds, lo, n);
      assert days[..n - 1] == DaysFrom(ds, lo, n - 1);
      FilledSlotsAreRecordedDays(ds, lo, n - 1);
      var last := lo + n - 1;
      var prev := RecordedIn(ds, lo, n - 1);
      assert days[n - 1] == StatusOn(ds, last);
      if last in ds {
        assert last !in prev && RecordedIn(ds, lo, n) == prev + {last};
        assert |prev + {last}| == |prev| + 1;
      } else {
        assert RecordedIn(ds, lo, n) == prev;
      }
    }
  }

  /** The stored best after one today-anchored computation: raised when beaten, otherwise kept. */
  function RaisedBest(stored: nat, current: nat): (best: nat)
    ensures best >= stored && best >= current
    ensures best == stored || best == current
  {
    if current > stored then current else stored
  }

  /** The stored best after a series of `/week` computations, in temporal order. */
  function BestAfter(stored: nat, currents: seq<nat>): nat {
    if currents == [] then stored else RaisedBest(BestAfter(stored, currents[..|currents| - 1]), currents[|currents| - 1])
  }

  /** The high-water mark never decreases, and after a series it is the largest value seen. */
  lemma {:induction false} BestIsHighWaterMark(stored: nat, currents: seq<nat>)
    ensures BestAfter(stored, currents) >= stored
    ensures forall i :: 0 <= i < |currents| ==> BestAfter(stored, currents) >= currents[i]
    ensures BestAfter(stored, currents) == stored || BestAfter(stored, currents) in currents
    ensures forall j :: 0 <= j <= |currents| ==> BestAfter(stored, currents[..j]) <= BestAfter(stored, currents)
  {
    if currents != [] {
      var init := currents[..|currents| - 1];
      BestIsHighWaterMark(stored, init);
      forall j | 0 <= j <= |currents| ensures BestAfter(stored, currents[..j]) <= BestAfter(stored, currents) {
        if j < |currents| {
          assert currents[..j] == init[..j];
        } else {
          assert currents[..j] == currents;
        }
      }
    }
  }
}
