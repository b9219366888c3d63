/**
 * The arithmetic and layout of the `/week` reply (bot.py `cmd_week`): the
 * completion percentage, the ten-segment bar, the verdict tier, the streak
 * note and the left-packed seven-cell heatmap.
 */
module WeekReport {
  import opened Common
  import opened Streaks
  import opened Store

  /** Multiplying by `m` keeps order. */
  lemma {:induction false} MulMono(m: nat, a: nat, b: nat)
    requires a <= b
    ensures m * a <= m * b
    decreases b - a
  {
    if a < b {
      MulMono(m, a, b - 1);
      assert m * b == m * (b - 1) + m;
    }
  }

  /** If `m * a` is below `m * b + m`, then `a` is at most `b`. */
  lemma MulStrict(m: nat, a: nat, b: nat)
    requires m > 0 && m * a < m * b + m
    ensures a <= b
  {
    if a > b {
      MulMono(m, b + 1, a);
    }
  }

  /** Rounding `n / m` from its quotient `q` and remainder `rem` to `q` or `q + 1`: within half a unit, ties to even. */
  lemma RoundCases(n: nat, m: nat, q: nat, rem: nat, r: nat)
    requires m > 0 && n == m * q + rem && rem < m
    requires r == q || r == q + 1
    requires r == q ==> 2 * rem <= m
    requires r == q + 1 ==> 2 * rem >= m
    requires 2 * rem == m ==> r % 2 == 0
    ensures 2 * n - m <= 2 * (m * r) <= 2 * n + m
    ensures 2 * (m * r) == 2 * n + m || 2 * (m * r) == 2 * n - m ==> r % 2 == 0
  {
    if r == q + 1 {
      assert m * r == m * q + m;
    }
  }

  /**
   * Python's `round(n / m)` on the exact quotient: the nearest integer, and
   * on a tie the even one.
   */
  function RoundHalfEven(n: nat, m: nat): (r: nat)
    requires m > 0
    ensures 2 * n - m <= 2 * (m * r) <= 2 * n + m
    ensures 2 * (m * r) == 2 * n + m || 2 * (m * r) == 2 * n - m ==> r % 2 == 0
  {
    var q, rem := n / m, n % m;
    var r := if 2 * rem < m then q
      else if 2 * rem > m then q + 1
      else if q % 2 == 0 then q
      else q + 1;
    RoundCases(n, m, q, rem, r);
    r
  }

  /** A rounded quotient stays below any whole bound on the exact one. */
  lemma RoundBelow(n: nat, m: nat, k: nat)
    requires m > 0 && n <= m * k
    ensures RoundHalfEven(n, m) <= k
  {
    MulStrict(m, RoundHalfEven(n, m), k);
  }

  /** A rounded quotient that is exactly whole is that whole number. */
  lemma RoundExact(m: nat, k: nat)
    requires m > 0
    ensures RoundHalfEven(m * k, m) == k
  {
    var r := RoundHalfEven(m * k, m);
    MulStrict(m, r, k);
    MulStrict(m, k, r);
  }

  /** A quotient that falls short of `k` by more than half a unit rounds below `k`. */
  lemma RoundShort(n: nat, m: nat, k: nat)
    requires m > 0 && k > 0 && 2 * n + m < 2 * (m * k)
    ensures RoundHalfEven(n, m) < k
  {
    assert m * (k - 1) + m == m * k;
    MulStrict(m, RoundHalfEven(n, m), k - 1);
  }

  /** `round((done + partial * 0.5) / total * 100)`, on the exact value `50 * (2 * done + partial) / total`. */
  function Percent(done: nat, partial: nat, total: nat): nat
    requires total > 0
  {
    RoundHalfEven(50 * (2 * done + partial), total)
  }

  /** `int(round((done + partial * 0.5) / total * 10))`, on the exact value `5 * (2 * done + partial) / total`. */
  function Filled(done: nat, partial: nat, total: nat): nat
    requires total > 0
  {
    RoundHalfEven(5 * (2 * done + partial), total)
  }

  /** With `done + partial <= total`, the percentage lies in 0..100 and the bar fill in 0..10. */
  lemma {:induction false} ShareBounds(done: nat, partial: nat, total: nat)
    requires total > 0 && done + partial <= total
    ensures Percent(done, partial, total) <= 100
    ensures Filled(done, partial, total) <= 10
  {
    RoundBelow(50 * (2 * done + partial), total, 100);
    RoundBelow(5 * (2 * done + partial), total, 10);
  }

  /**
   * The percentage is 100 exactly when every check-in is `done`. The "only if"
   * needs fewer than 100 check-ins: a larger total could round 99.5 up.
   */
  lemma {:induction false} FullPercentIffAllDone(done: nat, partial: nat, fail: nat)
    requires 0 < done + partial + fail < 100
    ensures Percent(done, partial, done + partial + fail) == 100 <==> partial == 0 && fail == 0
  {
    var total := done + partial + fail;
    if partial == 0 && fail == 0 {
      assert 50 * (2 * done + partial) == total * 100;
      RoundExact(total, 100);
    } else {
      assert 2 * (50 * (2 * done + partial)) + total < 2 * (total * 100);
      RoundShort(50 * (2 * done + partial), total, 100);
    }
  }

  /** The bar is full exactly when every check-in is `done`, for fewer than ten check-ins (a week has at most seven). */
  lemma {:induction false} FullBarIffAllDone(done: nat, partial: nat, fail: nat)
    requires 0 < done + partial + fail < 10
    ensures Filled(done, partial, done + partial + fail) == 10 <==> partial == 0 && fail == 0
  {
    var total := done + partial + fail;
    if partial == 0 && fail == 0 {
      assert 5 * (2 * done + partial) == total * 10;
      RoundExact(total, 10);
    } else {
      assert 2 * (5 * (2 * done + partial)) + total < 2 * (total * 10);
      RoundShort(5 * (2 * done + partial), total, 10);
    }
  }

  /** Three done and two partial out of five: 4 effective of 5, 80 percent, eight segments. */
  lemma ShareExample()
    ensures Percent(3, 2, 5) == 80 && Filled(3, 2, 5) == 8
  {
    RoundExact(5, 80);
    RoundExact(5, 8);
    assert 50 * (2 * 3 + 2) == 5 * 80;
    assert 5 * (2 * 3 + 2) == 5 * 8;
  }

  /** A half-way share rounds to even: one partial out of four is 12.5 percent, reported as 12. */
  lemma HalfWayRoundsToEven()
    ensures Percent(0, 1, 4) == 12
  {
  }

  const FullBlock: char := '█'
  const LightShade: char := '░'

  /** `"█" * filled + "░" * (10 - filled)`. */
  function Bar(filled: nat): (bar: string)
    requires filled <= 10
    ensures |bar| == 10
    ensures forall i :: 0 <= i < 10 ==> bar[i] == (if i < filled then FullBlock else LightShade)
  {
    seq(filled, _ => FullBlock) + seq(10 - filled, _ => LightShade)
  }

  /** The five verdicts of the weekly summary. */
  datatype Tier = NotStarted | FewSteps | GoodMomentum | AlmostGreen | PerfectWeek

  function TierOf(percent: nat): Tier {
    if percent == 0 then NotStarted
    else if percent < 40 then FewSteps
    else if percent < 80 then GoodMomentum
    else if percent < 100 then AlmostGreen
    else PerfectWeek
  }

  function TierRank(t: Tier): (k: nat)
    ensures k <= 4
  {
    match t
    case NotStarted => 0
    case FewSteps => 1
    case GoodMomentum => 2
    case AlmostGreen => 3
    case PerfectWeek => 4
  }

  /** A higher percentage never earns a lower verdict, and the perfect one needs 100 percent. */
  lemma TierIsMonotone(p: nat, q: nat)
    requires p <= q
    ensures TierRank(TierOf(p)) <= TierRank(TierOf(q))
    ensures TierOf(q) == PerfectWeek <==> q >= 100
    ensures TierOf(p) == NotStarted <==> p == 0
  {
  }

  /** The sentence appended for the current streak. */
  datatype StreakNote = NoNote | FirstDay | Holding(days: nat)

  function StreakNoteOf(streak: nat): (note: StreakNote)
    ensures note.Holding? ==> note.days == streak
    ensures note == NoNote <==> streak == 0
    ensures note == FirstDay <==> streak == 1
  {
    if streak > 1 then Holding(streak) else if streak == 1 then FirstDay else NoNote
  }

  /** `[s for s in last_7_days if s is not None]`. */
  function NonEmpty(days: seq<Option<Status>>): (r: seq<Option<Status>>)
    ensures |r| == Count(days, IsSome)
    ensures forall i :: 0 <= i < |r| ==> r[i].Some?
  {
    CountIsFilterLength(days, IsSome);
    Filter(days, IsSome)
  }

  /** The filled days keep their order: the day at index `i` is the entry after the filled days before it. */
  lemma NonEmptyKeepsOrder(days: seq<Option<Status>>, i: nat)
    requires i < |days| && days[i].Some?
    ensures Count(days[..i], IsSome) < |NonEmpty(days)|
    ensures NonEmpty(days)[Count(days[..i], IsSome)] == days[i]
  {
    var before, after := days[..i], days[i + 1..];
    assert days == before + [days[i]] + after;
    FilterAppend(before + [days[i]], after, IsSome);
    FilterAppend(before, [days[i]], IsSome);
    assert Filter([days[i]], IsSome) == [days[i]] by {
      assert [days[i]][1..] == [];
    }
    CountIsFilterLength(before, IsSome);
  }

  function Blanks(n: nat): (r: seq<Option<Status>>)
    ensures |r| == n && forall i :: 0 <= i < n ==> r[i].None?
  {
    seq(n, _ => None)
  }

  /** `(non_empty + [None] * (7 - len(non_empty)))[:7]`; a negative repeat count gives no blanks. */
  function Padded(days: seq<Option<Status>>): (r: seq<Option<Status>>)
    ensures |r| == 7
    ensures var k := Min(Count(days, IsSome), 7);
      && (forall i :: 0 <= i < k ==> r[i] == NonEmpty(days)[i])
      && (forall i :: k <= i < 7 ==> r[i].None?)
  {
    var filled := NonEmpty(days);
    var blanks := if |filled| < 7 then 7 - |filled| else 0;
    (filled + Blanks(blanks))[..7]
  }

  /** `status_to_emoji`, one code point per day. */
  function Cell(day: Option<Status>): char {
    match day
    case Some(Done) => '✅'
    case Some(Partial) => '\U{1F313}'
    case Some(Fail) => '❌'
    case None => '⬜'
  }

  /** Different days get different cells, so the heatmap shows the padded statuses without loss. */
  lemma CellIsInjective(a: Option<Status>, b: Option<Status>)
    ensures Cell(a) == Cell(b) <==> a == b
  {
  }

  /** `"".join(status_to_emoji(s) for s in padded)`. */
  function Heatmap(days: seq<Option<Status>>): (map7: string)
    ensures |map7| == 7
    ensures forall i :: 0 <= i < 7 ==> map7[i] == Cell(Padded(days)[i])
  {
    var padded := Padded(days);
    seq(7, i requires 0 <= i < 7 => Cell(padded[i]))
  }

  /** The three replies of `/week`. */
  datatype WeekReply =
    | NoFocusData
    | NoCheckins
    | Summary(title: string, heatmap: string, done: nat, partial: nat, fail: nat,
              bar: string, percent: nat, tier: Tier, note: StreakNote, bonus: bool)

  /** `cmd_week` from the statistics it is given. */
  function WeekReplyOf(data: Option<WeekStats>): (r: WeekReply)
    ensures r == NoFocusData <==> data.None?
    ensures r == NoCheckins <==> data.Some? && data.value.done + data.value.partial + data.value.fail == 0
    ensures r.Summary? ==>
      && r.percent <= 100
      && |r.bar| == 10
      && |r.heatmap| == 7
      && r.tier == TierOf(r.percent)
      && r.note == StreakNoteOf(data.value.streak)
      && (r.bonus <==> r.done == 7 && r.partial == 0 && r.fail == 0)
  {
    match data
    case None => NoFocusData
    case Some(w) =>
      var total := w.done + w.partial + w.fail;
      if total == 0 then NoCheckins
      else
        ShareBounds(w.done, w.partial, total);
        var percent := Percent(w.done, w.partial, total);
        var filled := Filled(w.done, w.partial, total);
        Summary(w.focusTitle, Heatmap(w.last7Days), w.done, w.partial, w.fail, Bar(filled), percent,
                TierOf(percent), StreakNoteOf(w.streak), w.done == 7 && w.partial == 0 && w.fail == 0)
  }

  /**
   * A summary that reports 100 percent and a full bar exactly when every check-in is
   * `done`, and whose heatmap opens with one cell per check-in and ends in blanks.
   */
  ghost predicate ConsistentSummary(r: WeekReply)
    requires r.Summary?
  {
    && |r.heatmap| == 7
    && (r.percent == 100 <==> r.partial == 0 && r.fail == 0)
    && (r.bar == Bar(10) <==> r.partial == 0 && r.fail == 0)
    && (forall i :: 0 <= i < r.done + r.partial + r.fail && i < 7 ==> r.heatmap[i] != Cell(None))
    && (forall i :: r.done + r.partial + r.fail <= i < 7 ==> r.heatmap[i] == Cell(None))
  }

  /** A summary over a week of at most seven check-ins, counted in its seven slots. */
  lemma {:induction false} SummaryFacts(w: WeekStats)
    requires 0 < w.done + w.partial + w.fail <= 7
    requires |w.last7Days| == 7 && w.done + w.partial + w.fail == Count(w.last7Days, IsSome)
    ensures WeekReplyOf(Some(w)).Summary? && ConsistentSummary(WeekReplyOf(Some(w)))
  {
    var r := WeekReplyOf(Some(w));
    var total := w.done + w.partial + w.fail;
    FullPercentIffAllDone(w.done, w.partial, w.fail);
    FullBarIffAllDone(w.done, w.partial, w.fail);
    var filled := Filled(w.done, w.partial, total);
    assert r.bar == Bar(filled);
    assert r.bar == Bar(10) <==> filled == 10 by {
      if filled != 10 {
        assert r.bar[9] != Bar(10)[9];
      }
    }
    var padded := Padded(w.last7Days);
    forall i | 0 <= i < 7 ensures r.heatmap[i] == Cell(None) <==> padded[i].None? {
      CellIsInjective(padded[i], None);
    }
  }

  /**
   * On the statistics of the store, a summary reports 100 percent and a full bar exactly
   * when every check-in of the week is `done`, and its heatmap opens with the filled days.
   */
  lemma WeekReplyFacts(users: seq<User>, focuses: seq<Focus>, cs: seq<Checkin>, tgId: int, today: Day)
    requires LedgerUnique(cs)
    ensures WeekReplyOf(WeekStatsOf(users, focuses, cs, tgId, today)).Summary? ==>
      ConsistentSummary(WeekReplyOf(WeekStatsOf(users, focuses, cs, tgId, today)))
  {
    var data := WeekStatsOf(users, focuses, cs, tgId, today);
    if data.Some? {
      WeekStatsFacts(users, focuses, cs, tgId, today);
      var w := data.value;
      if w.done + w.partial + w.fail > 0 {
        SummaryFacts(w);
      }
    }
  }
}
