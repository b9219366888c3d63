/**
 * The persistence layer of db.py: three tables (users, focuses, check-ins)
 * held in memory, the read-only queries as functions over the tables, and
 * the writes as methods of `Database` that replace the tables in place.
 */
module Store {
  import opened Common
  import opened Clock
  import opened Streaks

  type UserId = nat
  type FocusId = nat

  /** A row of `users`; `lastEveningSent` is the column `last_checkin_reminder_sent`. */
  datatype User = User(
    id: UserId,
    tgId: int,
    name: Option<string>,
    morningTime: Option<string>,
    checkinTime: Option<string>,
    startDate: Option<Day>,
    lastMorningSent: Option<Day>,
    lastEveningSent: Option<Day>)

  /** A row of `focuses`; `bestStreak` is NULL until the first weekly computation raises it. */
  datatype Focus = Focus(
    id: FocusId,
    userId: UserId,
    title: string,
    domain: Option<string>,
    active: bool,
    startedAt: int,
    endedAt: Option<int>,
    bestStreak: Option<nat>)

  /** A row of `checkins`; rows are kept in insertion order, so a later row has a larger `id`. */
  datatype Checkin = Checkin(userId: UserId, focusId: FocusId, date: Day, status: Status)

  /** The two reminder markers: `last_morning_sent` and `last_checkin_reminder_sent`. */
  datatype Reminder = Morning | Evening

  /** What `get_week_stats_for_user` returns. */
  datatype WeekStats = WeekStats(
    focusTitle: string,
    done: nat,
    partial: nat,
    fail: nat,
    streak: nat,
    bestStreak: nat,
    last7Days: seq<Option<Status>>)

  /** What `get_streak_for_user` returns. */
  datatype StreakInfo = StreakInfo(focusTitle: string, currentStreak: nat, bestStreak: nat)

  // ---------------------------------------------------------------------------
  // Table invariants

  ghost predicate UsersWellFormed(users: seq<User>, nextId: UserId) {
    && (forall i :: 0 <= i < |users| ==> users[i].id < nextId)
    && (forall i, j :: 0 <= i < j < |users| ==> users[i].id != users[j].id && users[i].tgId != users[j].tgId)
  }

  /** At most one focus per user is active. */
  predicate AtMostOneActive(focuses: seq<Focus>) {
    forall i, j :: 0 <= i < j < |focuses| && focuses[i].active && focuses[j].active ==>
      focuses[i].userId != focuses[j].userId
  }

  /** The focus ids are a key (`id INTEGER PRIMARY KEY`). */
  predicate FocusIdsDistinct(focuses: seq<Focus>) {
    forall i, j :: 0 <= i < j < |focuses| ==> focuses[i].id != focuses[j].id
  }

  ghost predicate FocusesWellFormed(focuses: seq<Focus>, nextId: FocusId) {
    && (forall i :: 0 <= i < |focuses| ==> focuses[i].id < nextId)
    && FocusIdsDistinct(focuses)
    && AtMostOneActive(focuses)
  }

  predicate SameDay(a: Checkin, b: Checkin) {
    a.userId == b.userId && a.focusId == b.focusId && a.date == b.date
  }

  function NotSameDay(a: Checkin, b: Checkin): bool {
    !SameDay(a, b)
  }

  /** At most one check-in per (user, focus, date). */
  predicate LedgerUnique(cs: seq<Checkin>) {
    forall i, j :: 0 <= i < j < |cs| ==> NotSameDay(cs[i], cs[j])
  }

  // ---------------------------------------------------------------------------
  // Read-only queries

  /** `SELECT ... FROM users WHERE tg_id = ?`, first row. */
  function UserByTg(users: seq<User>, tgId: int): (r: Option<User>)
    ensures r.Some? ==> r.value in users && r.value.tgId == tgId
    ensures r.None? <==> forall i :: 0 <= i < |users| ==> users[i].tgId != tgId
  {
    if users == [] then None
    else if users[0].tgId == tgId then Some(users[0])
    else
      var r := UserByTg(users[1..], tgId);
      assert forall i :: 1 <= i < |users| ==> users[i] == users[1..][i - 1];
      r
  }

  /** The active focus of a user: the latest active row (`ORDER BY started_at DESC LIMIT 1`). */
  function ActiveFocusOf(focuses: seq<Focus>, userId: UserId): (r: Option<Focus>)
    ensures r.Some? ==> r.value in focuses && r.value.userId == userId && r.value.active
    ensures r.None? <==> forall i :: 0 <= i < |focuses| ==> !(focuses[i].userId == userId && focuses[i].active)
  {
    if focuses == [] then None
    else
      var last := focuses[|focuses| - 1];
      if last.userId == userId && last.active then Some(last)
      else ActiveFocusOf(focuses[..|focuses| - 1], userId)
  }

  /** Under the one-active-focus invariant the query finds the user's only active focus. */
  lemma {:induction false} ActiveFocusIsTheOne(focuses: seq<Focus>, userId: UserId, i: nat)
    requires AtMostOneActive(focuses)
    requires i < |focuses| && focuses[i].userId == userId && focuses[i].active
    ensures ActiveFocusOf(focuses, userId) == Some(focuses[i])
  {
    var n := |focuses|;
    if i < n - 1 {
      var init := focuses[..n - 1];
      assert !(focuses[n - 1].userId == userId && focuses[n - 1].active) by {
        assert focuses[i].active;
      }
      assert init[i] == focuses[i];
      ActiveFocusIsTheOne(init, userId, i);
    }
  }

  /** `get_active_focus_for_user(tg_id)`: the join of `users` and `focuses`. */
  function ActiveFocusForTg(users: seq<User>, focuses: seq<Focus>, tgId: int): (r: Option<Focus>)
    ensures r.Some? ==> r.value in focuses && r.value.active
    ensures r.Some? ==> exists u :: u in users && u.tgId == tgId && u.id == r.value.userId
    ensures r.None? ==>
      || UserByTg(users, tgId).None?
      || forall i :: 0 <= i < |focuses| ==> !(focuses[i].userId == UserByTg(users, tgId).value.id && focuses[i].active)
  {
    match UserByTg(users, tgId)
    case None => None
    case Some(u) => ActiveFocusOf(focuses, u.id)
  }

  /** `get_today_checkin_status(user_id, today)`: the status of the latest row of that user on that date. */
  function TodayStatus(cs: seq<Checkin>, userId: UserId, today: Day): (r: Option<Status>)
    ensures r.Some? ==>
      exists i :: && 0 <= i < |cs| && cs[i].userId == userId && cs[i].date == today && cs[i].status == r.value
                  && forall j :: i < j < |cs| ==> !(cs[j].userId == userId && cs[j].date == today)
    ensures r.None? <==> forall i :: 0 <= i < |cs| ==> !(cs[i].userId == userId && cs[i].date == today)
  {
    if cs == [] then None
    else
      var last := cs[|cs| - 1];
      if last.userId == userId && last.date == today then Some(last.status)
      else TodayStatus(cs[..|cs| - 1], userId, today)
  }

  function MarkerOf(u: User, kind: Reminder): Option<Day> {
    match kind
    case Morning => u.lastMorningSent
    case Evening => u.lastEveningSent
  }

  function WithMarker(u: User, kind: Reminder, day: Day): User {
    match kind
    case Morning => u.(lastMorningSent := Some(day))
    case Evening => u.(lastEveningSent := Some(day))
  }

  function NotSentOn(kind: Reminder, today: Day): User -> bool {
    (u: User) => MarkerOf(u, kind) != Some(today)
  }

  /** `get_users_for_morning` / `get_users_for_evening`: the users whose marker is NULL or not today. */
  function DueUsers(users: seq<User>, kind: Reminder, today: Day): (r: seq<User>)
    ensures forall i :: 0 <= i < |users| ==> (users[i] in r <==> MarkerOf(users[i], kind) != Some(today))
    ensures forall i :: 0 <= i < |r| ==> r[i] in users && MarkerOf(r[i], kind) != Some(today)
  {
    Filter(users, NotSentOn(kind, today))
  }

  function Ids(us: seq<User>): (ids: seq<UserId>)
    ensures |ids| == |us| && forall i :: 0 <= i < |us| ==> ids[i] == us[i].id
  {
    seq(|us|, i requires 0 <= i < |us| => us[i].id)
  }

  // ---------------------------------------------------------------------------
  // Writes, as functions of the old tables

  /** `update_user_name_and_time`: the profile columns of the row with that `tg_id`. */
  function WithProfile(users: seq<User>, tgId: int, name: string, morningTime: string, checkinTime: string,
                       startDate: Day, lastMorningSent: Option<Day>, lastEveningSent: Option<Day>): (r: seq<User>)
    ensures |r| == |users|
    ensures forall i :: 0 <= i < |users| ==> r[i].id == users[i].id && r[i].tgId == users[i].tgId
    ensures forall i :: 0 <= i < |users| && users[i].tgId != tgId ==> r[i] == users[i]
    ensures forall i :: 0 <= i < |users| && users[i].tgId == tgId ==>
      && r[i].name == Some(name) && r[i].morningTime == Some(morningTime) && r[i].checkinTime == Some(checkinTime)
      && r[i].startDate == Some(startDate) && r[i].lastMorningSent == lastMorningSent && r[i].lastEveningSent == lastEveningSent
  {
    seq(|users|, i requires 0 <= i < |users| =>
      if users[i].tgId == tgId then
        users[i].(name := Some(name), morningTime := Some(morningTime), checkinTime := Some(checkinTime),
                  startDate := Some(startDate), lastMorningSent := lastMorningSent, lastEveningSent := lastEveningSent)
      else users[i])
  }

  /** The UPDATE of `create_focus`: every active focus of the user is closed at `now`. */
  function Deactivated(focuses: seq<Focus>, userId: UserId, now: int): seq<Focus> {
    seq(|focuses|, i requires 0 <= i < |focuses| =>
      if focuses[i].userId == userId && focuses[i].active then focuses[i].(active := false, endedAt := Some(now))
      else focuses[i])
  }

  /** `create_focus` / `set_new_focus_for_user` for a known user: deactivate, then insert an active focus. */
  function ReplacedFocus(focuses: seq<Focus>, userId: UserId, title: string, domain: Option<string>,
                         newId: FocusId, now: int): (r: seq<Focus>)
    ensures |r| == |focuses| + 1
    ensures r[|focuses|] == Focus(newId, userId, title, domain, true, now, None, None)
    ensures forall i :: 0 <= i < |r| ==> (r[i].userId == userId && r[i].active <==> i == |focuses|)
    ensures forall i :: 0 <= i < |focuses| && focuses[i].userId == userId && focuses[i].active ==>
      r[i] == focuses[i].(active := false, endedAt := Some(now))
    ensures forall i :: 0 <= i < |focuses| && !(focuses[i].userId == userId && focuses[i].active) ==> r[i] == focuses[i]
    ensures ActiveFocusOf(r, userId) == Some(r[|focuses|])
    ensures AtMostOneActive(focuses) ==> AtMostOneActive(r)
  {
    var r := Deactivated(focuses, userId, now) + [Focus(newId, userId, title, domain, true, now, None, None)];
    assert AtMostOneActive(focuses) ==> AtMostOneActive(r) by {
      if AtMostOneActive(focuses) {
        forall i, j | 0 <= i < j < |r| && r[i].active && r[j].active ensures r[i].userId != r[j].userId {
          if j < |focuses| {
            assert focuses[i].active && focuses[j].active;
          }
        }
      }
    }
    assert r[|r| - 1] == Focus(newId, userId, title, domain, true, now, None, None);
    r
  }

  function OnDay(userId: UserId, focusId: FocusId, date: Day): Checkin -> bool {
    (c: Checkin) => c.userId == userId && c.focusId == focusId && c.date == date
  }

  function OffDay(userId: UserId, focusId: FocusId, date: Day): Checkin -> bool {
    (c: Checkin) => !OnDay(userId, focusId, date)(c)
  }

  /** The DELETE of `create_checkin_simple`: drop the row of that user, focus and date. */
  function WithoutDay(cs: seq<Checkin>, userId: UserId, focusId: FocusId, date: Day): seq<Checkin> {
    Filter(cs, OffDay(userId, focusId, date))
  }

  lemma {:induction false} FilterTwice<T>(s: seq<T>, p: T -> bool)
    ensures Filter(Filter(s, p), p) == Filter(s, p)
  {
    if s != [] {
      FilterTwice(s[1..], p);
      if p(s[0]) {
        assert ([s[0]] + Filter(s[1..], p))[1..] == Filter(s[1..], p);
      }
    }
  }

  /** After the DELETE no row of that user, focus and date is left. */
  lemma WithoutDayIsClean(cs: seq<Checkin>, userId: UserId, focusId: FocusId, date: Day)
    ensures forall i :: 0 <= i < |WithoutDay(cs, userId, focusId, date)| ==>
      !OnDay(userId, focusId, date)(WithoutDay(cs, userId, focusId, date)[i])
  {
  }

  /** Appending the new row to the cleaned ledger keeps one row per user, focus and date. */
  lemma RecordKeepsUnique(cs: seq<Checkin>, userId: UserId, focusId: FocusId, date: Day, status: Status)
    requires LedgerUnique(cs)
    ensures LedgerUnique(WithoutDay(cs, userId, focusId, date) + [Checkin(userId, focusId, date, status)])
  {
    var kept := WithoutDay(cs, userId, focusId, date);
    var r := kept + [Checkin(userId, focusId, date, status)];
    FilterKeepsPairwise(cs, OffDay(userId, focusId, date), NotSameDay);
    WithoutDayIsClean(cs, userId, focusId, date);
    forall i, j | 0 <= i < j < |r| ensures NotSameDay(r[i], r[j]) {
      if j == |r| - 1 {
        assert !OnDay(userId, focusId, date)(kept[i]);
      } else {
        assert r[i] == kept[i] && r[j] == kept[j];
      }
    }
  }

  /** Deleting again after the insert removes exactly the new row. */
  lemma RecordThenDelete(cs: seq<Checkin>, userId: UserId, focusId: FocusId, date: Day, status: Status)
    ensures WithoutDay(WithoutDay(cs, userId, focusId, date) + [Checkin(userId, focusId, date, status)], userId, focusId, date)
         == WithoutDay(cs, userId, focusId, date)
  {
    var off := OffDay(userId, focusId, date);
    var row := Checkin(userId, focusId, date, status);
    FilterAppend(Filter(cs, off), [row], off);
    FilterTwice(cs, off);
    assert OnDay(userId, focusId, date)(row);
    assert !off(row) && [row][1..] == [];
    assert Filter([row], off) == [];
  }

  /** DELETE then INSERT: the ledger after recording `status` for that user, focus and date. */
  function Recorded(cs: seq<Checkin>, userId: UserId, focusId: FocusId, date: Day, status: Status): (r: seq<Checkin>)
    ensures |r| > 0 && r[|r| - 1] == Checkin(userId, focusId, date, status)
    ensures forall i :: 0 <= i < |r| - 1 ==> !OnDay(userId, focusId, date)(r[i])
    ensures WithoutDay(r, userId, focusId, date) == WithoutDay(cs, userId, focusId, date)
    ensures TodayStatus(r, userId, date) == Some(status)
    ensures LedgerUnique(cs) ==> LedgerUnique(r)
  {
    var kept := WithoutDay(cs, userId, focusId, date);
    WithoutDayIsClean(cs, userId, focusId, date);
    RecordThenDelete(cs, userId, focusId, date, status);
    assert LedgerUnique(cs) ==> LedgerUnique(kept + [Checkin(userId, focusId, date, status)]) by {
      if LedgerUnique(cs) {
        RecordKeepsUnique(cs, userId, focusId, date, status);
      }
    }
    kept + [Checkin(userId, focusId, date, status)]
  }

  /** `morning_time IS NULL OR time('now') <= morning_time`. */
  predicate BeforeMorning(morningTime: Option<string>, nowSec: SecondOfDay) {
    morningTime.None? || LexLe(SqlTime(nowSec), morningTime.value)
  }

  /** The UPDATE of `create_checkin_simple`: the morning marker of that user, when the check-in precedes the morning time. */
  function MorningSuppressed(users: seq<User>, userId: UserId, today: Day, nowSec: SecondOfDay): (r: seq<User>)
    ensures |r| == |users|
    ensures forall i :: 0 <= i < |users| ==> r[i] == users[i].(lastMorningSent := r[i].lastMorningSent)
    ensures forall i :: 0 <= i < |users| && users[i].id != userId ==> r[i] == users[i]
  {
    seq(|users|, i requires 0 <= i < |users| =>
      if users[i].id == userId && BeforeMorning(users[i].morningTime, nowSec) then users[i].(lastMorningSent := Some(today))
      else users[i])
  }

  /** A check-in suppresses the morning reminder exactly when no morning time is set or the current minute is still before it. */
  lemma CheckinSuppressesMorning(users: seq<User>, userId: UserId, today: Day, nowSec: SecondOfDay, i: nat)
    requires i < |users| && users[i].id == userId
    requires users[i].morningTime.Some? ==> IsValidTime(users[i].morningTime.value)
    ensures var r := MorningSuppressed(users, userId, today, nowSec);
      r[i].lastMorningSent ==
        if users[i].morningTime.None? || nowSec / 60 < MinutesOf(users[i].morningTime.value) then Some(today)
        else users[i].lastMorningSent
  {
    if users[i].morningTime.Some? {
      SqlTimeBeforeMorning(nowSec, users[i].morningTime.value);
    }
  }

  /** `mark_morning_sent` / `mark_evening_sent`: the bulk UPDATE of one marker for every listed id. */
  function MarkedSent(users: seq<User>, kind: Reminder, ids: seq<UserId>, today: Day): (r: seq<User>)
    ensures |r| == |users|
    ensures forall i :: 0 <= i < |users| ==>
      MarkerOf(r[i], kind) == (if users[i].id in ids then Some(today) else MarkerOf(users[i], kind))
    ensures forall i :: 0 <= i < |users| && users[i].id !in ids ==> r[i] == users[i]
    ensures forall k, i :: k != kind && 0 <= i < |users| ==> MarkerOf(r[i], k) == MarkerOf(users[i], k)
    ensures forall i :: 0 <= i < |users| ==> r[i] == users[i].(lastMorningSent := r[i].lastMorningSent, lastEveningSent := r[i].lastEveningSent)
    ensures ids == [] ==> r == users
  {
    seq(|users|, i requires 0 <= i < |users| => if users[i].id in ids then WithMarker(users[i], kind, today) else users[i])
  }

  /** Applying a bulk mark a second time changes nothing. */
  lemma MarkingIsIdempotent(users: seq<User>, kind: Reminder, ids: seq<UserId>, today: Day)
    ensures MarkedSent(MarkedSent(users, kind, ids, today), kind, ids, today) == MarkedSent(users, kind, ids, today)
  {
    var once := MarkedSent(users, kind, ids, today);
    var twice := MarkedSent(once, kind, ids, today);
    forall i | 0 <= i < |users| ensures twice[i] == once[i] {
      if users[i].id in ids {
        assert once[i] == WithMarker(users[i], kind, today);
      }
    }
  }

  /** Once a pass has marked every user it selected, no user is selected again that day. */
  lemma {:induction false} NoneDueAfterMarking(users: seq<User>, kind: Reminder, today: Day)
    ensures DueUsers(MarkedSent(users, kind, Ids(DueUsers(users, kind, today)), today), kind, today) == []
  {
    var due := DueUsers(users, kind, today);
    var after := MarkedSent(users, kind, Ids(due), today);
    forall i | 0 <= i < |after| ensures MarkerOf(after[i], kind) == Some(today) {
      if MarkerOf(users[i], kind) != Some(today) {
        assert users[i] in due;
        var k :| 0 <= k < |due| && due[k] == users[i];
        assert Ids(due)[k] == users[i].id;
      }
    }
    FilterOfNone(after, NotSentOn(kind, today));
  }

  // ---------------------------------------------------------------------------
  // Weekly and streak statistics

  /** `WHERE user_id = ? AND focus_id = ?`. */
  function OnFocus(userId: UserId, focusId: FocusId): Checkin -> bool {
    (c: Checkin) => c.userId == userId && c.focusId == focusId
  }

  /** `... AND date BETWEEN DATE('now', '-6 days') AND DATE('now')`. */
  function InWeek(userId: UserId, focusId: FocusId, today: Day): Checkin -> bool {
    (c: Checkin) => c.userId == userId && c.focusId == focusId && today - 6 <= c.date <= today
  }

  function HasStatus(st: Status): Checkin -> bool {
    (c: Checkin) => c.status == st
  }

  /** The dates that the rows cover. */
  function Dates(rows: seq<Checkin>): set<Day> {
    set i | 0 <= i < |rows| :: rows[i].date
  }

  /** `{date: status for r in rows}`: a later row for the same date overrides an earlier one. */
  function StatusMap(rows: seq<Checkin>): (ds: History)
    ensures ds.Keys == Dates(rows)
  {
    if rows == [] then map[]
    else
      var init, last := rows[..|rows| - 1], rows[|rows| - 1];
      assert Dates(rows) == Dates(init) + {last.date} by {
        assert forall i :: 0 <= i < |init| ==> rows[i] == init[i];
      }
      StatusMap(init)[last.date := last.status]
  }

  /** No two rows share a date. */
  predicate DistinctDates(rows: seq<Checkin>) {
    forall i, j :: 0 <= i < j < |rows| ==> rows[i].date != rows[j].date
  }

  /** With one row per date, the map has one entry per row, and each row's status is its date's entry. */
  lemma {:induction false} StatusMapOfDistinct(rows: seq<Checkin>)
    requires DistinctDates(rows)
    ensures |StatusMap(rows).Keys| == |rows|
    ensures forall i :: 0 <= i < |rows| ==> StatusMap(rows)[rows[i].date] == rows[i].status
  {
    if rows != [] {
      var init, last := rows[..|rows| - 1], rows[|rows| - 1];
      assert DistinctDates(init);
      StatusMapOfDistinct(init);
      assert last.date !in Dates(init);
      assert StatusMap(rows).Keys == StatusMap(init).Keys + {last.date};
      forall i | 0 <= i < |rows| ensures StatusMap(rows)[rows[i].date] == rows[i].status {
        if i < |rows| - 1 {
          assert init[i] == rows[i];
        }
      }
    }
  }

  /** Every check-in has one of the three statuses, so the three counts add up to the rows. */
  lemma {:induction false} CountsCoverRows(rows: seq<Checkin>)
    ensures Count(rows, HasStatus(Done)) + Count(rows, HasStatus(Partial)) + Count(rows, HasStatus(Fail)) == |rows|
  {
    if rows != [] {
      CountsCoverRows(rows[..|rows| - 1]);
    }
  }

  function StoredBest(f: Focus): nat {
    if f.bestStreak.Some? then f.bestStreak.value else 0
  }

  /** `UPDATE focuses SET best_streak = ? WHERE id = ?`. */
  function WithBest(focuses: seq<Focus>, focusId: FocusId, best: nat): (r: seq<Focus>)
    ensures |r| == |focuses|
    ensures forall i :: 0 <= i < |focuses| ==> r[i] == focuses[i].(bestStreak := r[i].bestStreak)
  {
    seq(|focuses|, i requires 0 <= i < |focuses| =>
      if focuses[i].id == focusId then focuses[i].(bestStreak := Some(best)) else focuses[i])
  }

  /** Rewriting columns other than the id and the chat id keeps the users table well formed. */
  lemma KeysKeptWellFormed(users: seq<User>, r: seq<User>, nextId: UserId)
    requires UsersWellFormed(users, nextId) && |r| == |users|
    requires forall i :: 0 <= i < |users| ==> r[i].id == users[i].id && r[i].tgId == users[i].tgId
    ensures UsersWellFormed(r, nextId)
  {
  }

  /** Writing a best streak keeps the focuses table well formed. */
  lemma WithBestWellFormed(focuses: seq<Focus>, nextId: FocusId, focusId: FocusId, best: nat)
    requires FocusesWellFormed(focuses, nextId)
    ensures FocusesWellFormed(WithBest(focuses, focusId, best), nextId)
  {
    var r := WithBest(focuses, focusId, best);
    assert forall i :: 0 <= i < |r| ==> r[i].id == focuses[i].id && r[i].userId == focuses[i].userId && r[i].active == focuses[i].active;
  }

  /** The figures of `get_week_stats_for_user` for the user's active focus `f`, as of `today`. */
  function WeekStatsFor(cs: seq<Checkin>, userId: UserId, f: Focus, today: Day): WeekStats {
    var rows := Filter(cs, InWeek(userId, f.id, today));
    var ds := StatusMap(rows);
    var streak := RunCapped(ds, today, 7);
    WeekStats(
      f.title,
      Count(rows, HasStatus(Done)), Count(rows, HasStatus(Partial)), Count(rows, HasStatus(Fail)),
      streak, RaisedBest(StoredBest(f), streak), DaysFrom(ds, today - 6, 7))
  }

  /** `get_week_stats_for_user(tg_id)` as of `today` (the value it returns). */
  function WeekStatsOf(users: seq<User>, focuses: seq<Focus>, cs: seq<Checkin>, tgId: int, today: Day): Option<WeekStats> {
    match UserByTg(users, tgId)
    case None => None
    case Some(u) =>
      match ActiveFocusOf(focuses, u.id)
      case None => None
      case Some(f) => Some(WeekStatsFor(cs, u.id, f, today))
  }

  /** The focuses table after `get_week_stats_for_user`: the best streak is written only when beaten. */
  function WeekStatsWrite(users: seq<User>, focuses: seq<Focus>, cs: seq<Checkin>, tgId: int, today: Day): (r: seq<Focus>)
    requires FocusIdsDistinct(focuses)
    ensures |r| == |focuses|
    ensures forall i :: 0 <= i < |focuses| ==> r[i] == focuses[i].(bestStreak := r[i].bestStreak)
    ensures forall i :: 0 <= i < |focuses| ==> StoredBest(r[i]) >= StoredBest(focuses[i])
    ensures forall i :: 0 <= i < |focuses| && r[i] != focuses[i] ==>
      WeekStatsOf(users, focuses, cs, tgId, today).Some? &&
      StoredBest(r[i]) == WeekStatsOf(users, focuses, cs, tgId, today).value.streak > StoredBest(focuses[i])
    ensures forall i :: 0 <= i < |focuses| && ActiveFocusForTg(users, focuses, tgId) == Some(focuses[i]) ==>
      WeekStatsOf(users, focuses, cs, tgId, today).Some? &&
      StoredBest(r[i]) == WeekStatsOf(users, focuses, cs, tgId, today).value.bestStreak
    ensures forall i :: 0 <= i < |focuses| && ActiveFocusForTg(users, focuses, tgId) != Some(focuses[i]) ==> r[i] == focuses[i]
  {
    match UserByTg(users, tgId)
    case None => focuses
    case Some(u) =>
      match ActiveFocusOf(focuses, u.id)
      case None => focuses
      case Some(f) =>
        var streak := WeekStatsFor(cs, u.id, f, today).streak;
        if streak > StoredBest(f) then
          var r := WithBest(focuses, f.id, streak);
          assert WeekStatsOf(users, focuses, cs, tgId, today) == Some(WeekStatsFor(cs, u.id, f, today));
          assert forall i :: 0 <= i < |focuses| && focuses[i].id == f.id ==> focuses[i] == f by {
            var k :| 0 <= k < |focuses| && focuses[k] == f;
          }
          assert forall i :: 0 <= i < |focuses| && r[i] != focuses[i] ==> focuses[i] == f && StoredBest(r[i]) == streak;
          r
        else focuses
  }

  /** A window of rows, one per date, all within the seven days up to `today`. */
  ghost predicate WeekWindow(rows: seq<Checkin>, today: Day) {
    DistinctDates(rows) && forall i :: 0 <= i < |rows| ==> today - 6 <= rows[i].date <= today
  }

  /** With one row per day of the window, the counts, the seven slots and the capped streak agree. */
  lemma WindowFacts(rows: seq<Checkin>, today: Day)
    requires WeekWindow(rows, today)
    ensures var ds := StatusMap(rows);
      && Count(rows, HasStatus(Done)) + Count(rows, HasStatus(Partial)) + Count(rows, HasStatus(Fail))
         == Count(DaysFrom(ds, today - 6, 7), IsSome)
      && DaysFrom(ds, today - 6, 7)[6] == StatusOn(ds, today)
  {
    var ds := StatusMap(rows);
    StatusMapOfDistinct(rows);
    CountsCoverRows(rows);
    assert RecordedIn(ds, today - 6, 7) == ds.Keys by {
      forall k | k in ds.Keys ensures today - 6 <= k < today + 1 {
        var i :| 0 <= i < |rows| && rows[i].date == k;
      }
    }
    FilledSlotsAreRecordedDays(ds, today - 6, 7);
    DaysFromAt(ds, today - 6, 7);
  }

  /** Under the ledger invariant the week's rows form a window: one row per date, all in range. */
  lemma WeekRowsAreWindow(cs: seq<Checkin>, userId: UserId, focusId: FocusId, today: Day)
    requires LedgerUnique(cs)
    ensures WeekWindow(Filter(cs, InWeek(userId, focusId, today)), today)
  {
    var p := InWeek(userId, focusId, today);
    var rows := Filter(cs, p);
    FilterKeepsPairwise(cs, p, NotSameDay);
    forall i, j | 0 <= i < j < |rows| ensures rows[i].date != rows[j].date {
      assert NotSameDay(rows[i], rows[j]);
      assert p(rows[i]) && p(rows[j]);
    }
    forall i | 0 <= i < |rows| ensures today - 6 <= rows[i].date <= today {
      assert p(rows[i]);
    }
  }

  /** Under the ledger invariant the weekly figures agree with each other and with the seven-slot window. */
  lemma WeekStatsFacts(users: seq<User>, focuses: seq<Focus>, cs: seq<Checkin>, tgId: int, today: Day)
    requires LedgerUnique(cs)
    ensures var r := WeekStatsOf(users, focuses, cs, tgId, today);
      r.Some? ==>
        && |r.value.last7Days| == 7
        && r.value.streak <= 7
        && r.value.bestStreak >= r.value.streak
        && r.value.done + r.value.partial + r.value.fail == Count(r.value.last7Days, IsSome) <= 7
        && (r.value.streak > 0 <==> r.value.last7Days[6].Some? && Extends(r.value.last7Days[6].value))
  {
    var r := WeekStatsOf(users, focuses, cs, tgId, today);
    if r.Some? {
      var u := UserByTg(users, tgId).value;
      var f := ActiveFocusOf(focuses, u.id).value;
      WeekRowsAreWindow(cs, u.id, f.id, today);
      WindowFacts(Filter(cs, InWeek(u.id, f.id, today)), today);
      CappedRunIsMin(StatusMap(Filter(cs, InWeek(u.id, f.id, today))), today, 7);
    }
  }

  /** `max(day_status.keys())`: the latest date that has any check-in. */
  function LatestDate(rows: seq<Checkin>): (d: Day)
    requires rows != []
    ensures d in Dates(rows)
    ensures forall i :: 0 <= i < |rows| ==> rows[i].date <= d
  {
    if |rows| == 1 then rows[0].date
    else
      var init := rows[..|rows| - 1];
      var d := Max(LatestDate(init), rows[|rows| - 1].date);
      assert forall i :: 0 <= i < |init| ==> rows[i] == init[i];
      d
  }

  /** The streak pair of `get_streak_for_user` for the focus's rows: current streak and reported best. */
  function StreakFromRows(rows: seq<Checkin>, stored: nat): (r: (nat, nat))
    ensures r.0 <= |rows|
    ensures r.1 == Max(r.0, stored)
    ensures rows == [] ==> r == (0, stored)
    ensures rows != [] ==> (r.0 >= 1 <==> Extends(StatusMap(rows)[LatestDate(rows)]))
  {
    if rows == [] then (0, stored)
    else
      var ds := StatusMap(rows);
      var current := RunEndingAt(ds, LatestDate(rows));
      RunWithinRecordedDays(ds, LatestDate(rows));
      DatesCard(rows);
      (current, Max(current, stored))
  }

  lemma {:induction false} DatesCard(rows: seq<Checkin>)
    ensures |Dates(rows)| <= |rows|
  {
    if rows != [] {
      var init := rows[..|rows| - 1];
      DatesCard(init);
      assert Dates(rows) == Dates(init) + {rows[|rows| - 1].date} by {
        assert forall i :: 0 <= i < |init| ==> rows[i] == init[i];
      }
    }
  }

  /** `get_streak_for_user(tg_id)`: nothing is written back. */
  function StreakOf(users: seq<User>, focuses: seq<Focus>, cs: seq<Checkin>, tgId: int): Option<StreakInfo> {
    match UserByTg(users, tgId)
    case None => None
    case Some(u) =>
      match ActiveFocusOf(focuses, u.id)
      case None => None
      case Some(f) =>
        var pair := StreakFromRows(Filter(cs, OnFocus(u.id, f.id)), StoredBest(f));
        Some(StreakInfo(f.title, pair.0, pair.1))
  }

  // ---------------------------------------------------------------------------
  // The store itself

  class Database {
    var users: seq<User>
    var focuses: seq<Focus>
    var checkins: seq<Checkin>
    var nextUserId: UserId
    var nextFocusId: FocusId

    ghost predicate Valid()
      reads this
    {
      UsersWellFormed(users, nextUserId) && FocusesWellFormed(focuses, nextFocusId) && LedgerUnique(checkins)
    }

    constructor ()
      ensures Valid()
      ensures users == [] && focuses == [] && checkins == []
    {
      users, focuses, checkins := [], [], [];
      nextUserId, nextFocusId := 1, 1;
    }

    /** `create_user(tg_id)`: `INSERT OR IGNORE`, so a known `tg_id` leaves the table as it is. */
    method CreateUser(tgId: int)
      requires Valid()
      modifies this
      ensures Valid()
      ensures old(UserByTg(users, tgId)).Some? ==> users == old(users) && nextUserId == old(nextUserId)
      ensures old(UserByTg(users, tgId)).None? ==>
        users == old(users) + [User(old(nextUserId), tgId, None, None, None, None, None, None)]
        && nextUserId == old(nextUserId) + 1
      ensures focuses == old(focuses) && checkins == old(checkins) && nextFocusId == old(nextFocusId)
    {
      if UserByTg(users, tgId).None? {
        users := users + [User(nextUserId, tgId, None, None, None, None, None, None)];
        nextUserId := nextUserId + 1;
      }
    }

    /** `update_user_name_and_time`: stores the onboarding answers and the initial markers. */
    method UpdateUserNameAndTime(tgId: int, name: string, morningTime: string, checkinTime: string,
                                 startDate: Day, lastMorningSent: Option<Day>, lastEveningSent: Option<Day>)
      requires Valid()
      modifies this
      ensures Valid()
      ensures users == WithProfile(old(users), tgId, name, morningTime, checkinTime, startDate, lastMorningSent, lastEveningSent)
      ensures focuses == old(focuses) && checkins == old(checkins)
      ensures nextUserId == old(nextUserId) && nextFocusId == old(nextFocusId)
    {
      users := WithProfile(users, tgId, name, morningTime, checkinTime, startDate, lastMorningSent, lastEveningSent);
    }

    /** The shared body of `create_focus` and `set_new_focus_for_user` once the user is found. */
    method ReplaceActiveFocus(userId: UserId, title: string, domain: Option<string>, now: int)
      requires Valid()
      modifies this
      ensures Valid()
      ensures focuses == ReplacedFocus(old(focuses), userId, title, domain, old(nextFocusId), now)
      ensures nextFocusId == old(nextFocusId) + 1
      ensures users == old(users) && checkins == old(checkins) && nextUserId == old(nextUserId)
    {
      var r := ReplacedFocus(focuses, userId, title, domain, nextFocusId, now);
      assert forall i :: 0 <= i < |focuses| ==> r[i].id == focuses[i].id;
      focuses := r;
      nextFocusId := nextFocusId + 1;
    }

    /** `create_focus(tg_id, title, domain)`: None (here false) for an unknown user, otherwise the replacement. */
    method CreateFocus(tgId: int, title: string, domain: string, now: int) returns (created: bool)
      requires Valid()
      modifies this
      ensures Valid()
      ensures created <==> old(UserByTg(users, tgId)).Some?
      ensures !created ==> focuses == old(focuses) && nextFocusId == old(nextFocusId)
      ensures created ==>
        focuses == ReplacedFocus(old(focuses), old(UserByTg(users, tgId)).value.id, title, Some(domain), old(nextFocusId), now)
        && nextFocusId == old(nextFocusId) + 1
      ensures users == old(users) && checkins == old(checkins) && nextUserId == old(nextUserId)
    {
      var user := UserByTg(users, tgId);
      if user.None? {
        return false;
      }
      ReplaceActiveFocus(user.value.id, title, Some(domain), now);
      created := true;
    }

    /** `set_new_focus_for_user(tg_id, title, domain)`: False for an unknown user, otherwise the replacement. */
    method SetNewFocusForUser(tgId: int, title: string, domain: Option<string>, now: int) returns (ok: bool)
      requires Valid()
      modifies this
      ensures Valid()
      ensures ok <==> old(UserByTg(users, tgId)).Some?
      ensures !ok ==> focuses == old(focuses) && nextFocusId == old(nextFocusId)
      ensures ok ==>
        focuses == ReplacedFocus(old(focuses), old(UserByTg(users, tgId)).value.id, title, domain, old(nextFocusId), now)
        && nextFocusId == old(nextFocusId) + 1
      ensures users == old(users) && checkins == old(checkins) && nextUserId == old(nextUserId)
    {
      var user := UserByTg(users, tgId);
      if user.None? {
        return false;
      }
      ReplaceActiveFocus(user.value.id, title, domain, now);
      ok := true;
    }

    /**
     * `create_checkin_simple(tg_id, status)` on day `today` at second `nowSec`: False and no change
     * without a user or an active focus; otherwise DELETE, INSERT and the morning-marker UPDATE.
     */
    method CreateCheckinSimple(tgId: int, status: Status, today: Day, nowSec: SecondOfDay) returns (ok: bool)
      requires Valid()
      modifies this
      ensures Valid()
      ensures ok <==> old(ActiveFocusForTg(users, focuses, tgId)).Some?
      ensures !ok ==> users == old(users) && checkins == old(checkins)
      ensures ok ==>
        var u := old(UserByTg(users, tgId)).value;
        var f := old(ActiveFocusForTg(users, focuses, tgId)).value;
        && checkins == Recorded(old(checkins), u.id, f.id, today, status)
        && users == MorningSuppressed(old(users), u.id, today, nowSec)
      ensures focuses == old(focuses) && nextUserId == old(nextUserId) && nextFocusId == old(nextFocusId)
    {
      var user := UserByTg(users, tgId);
      if user.None? {
        return false;
      }
      var focus := ActiveFocusOf(focuses, user.value.id);
      if focus.None? {
        return false;
      }
      assert focus == ActiveFocusForTg(users, focuses, tgId);
      checkins := Recorded(checkins, user.value.id, focus.value.id, today, status);
      var r := MorningSuppressed(users, user.value.id, today, nowSec);
      KeysKeptWellFormed(users, r, nextUserId);
      users := r;
      ok := true;
    }

    /** The bulk UPDATE shared by `mark_morning_sent` and `mark_evening_sent`; an empty list changes nothing. */
    method MarkSent(kind: Reminder, ids: seq<UserId>, today: Day)
      requires Valid()
      modifies this
      ensures Valid()
      ensures users == MarkedSent(old(users), kind, ids, today)
      ensures focuses == old(focuses) && checkins == old(checkins)
      ensures nextUserId == old(nextUserId) && nextFocusId == old(nextFocusId)
    {
      if ids == [] {
        return;
      }
      var r := MarkedSent(users, kind, ids, today);
      assert forall i :: 0 <= i < |users| ==> r[i].id == users[i].id && r[i].tgId == users[i].tgId;
      users := r;
    }

    /** `mark_morning_sent(user_ids, today)`. */
    method MarkMorningSent(ids: seq<UserId>, today: Day)
      requires Valid()
      modifies this
      ensures Valid()
      ensures users == MarkedSent(old(users), Morning, ids, today)
      ensures focuses == old(focuses) && checkins == old(checkins)
      ensures nextUserId == old(nextUserId) && nextFocusId == old(nextFocusId)
    {
      MarkSent(Morning, ids, today);
    }

    /** `mark_evening_sent(user_ids, today)`. */
    method MarkEveningSent(ids: seq<UserId>, today: Day)
      requires Valid()
      modifies this
      ensures Valid()
      ensures users == MarkedSent(old(users), Evening, ids, today)
      ensures focuses == old(focuses) && checkins == old(checkins)
      ensures nextUserId == old(nextUserId) && nextFocusId == old(nextFocusId)
    {
      MarkSent(Evening, ids, today);
    }

    /** `get_week_stats_for_user(tg_id)` on day `today`, including its conditional best-streak write. */
    method GetWeekStats(tgId: int, today: Day) returns (r: Option<WeekStats>)
      requires Valid()
      modifies this
      ensures Valid()
      ensures r == WeekStatsOf(old(users), old(focuses), old(checkins), tgId, today)
      ensures focuses == WeekStatsWrite(old(users), old(focuses), old(checkins), tgId, today)
      ensures users == old(users) && checkins == old(checkins)
      ensures nextUserId == old(nextUserId) && nextFocusId == old(nextFocusId)
    {
      var user := UserByTg(users, tgId);
      if user.None? {
        return None;
      }
      var focus := ActiveFocusOf(focuses, user.value.id);
      if focus.None? {
        return None;
      }
      var f := focus.value;
      ghost var expected := WeekStatsFor(checkins, user.value.id, f, today);
      assert WeekStatsOf(users, focuses, checkins, tgId, today) == Some(expected);
      ghost var written := WeekStatsWrite(users, focuses, checkins, tgId, today);
      var rows := Filter(checkins, InWeek(user.value.id, f.id, today));
      var done, partial, fail := Count(rows, HasStatus(Done)), Count(rows, HasStatus(Partial)), Count(rows, HasStatus(Fail));
      var ds := StatusMap(rows);
      var streak := WeekStreak(ds, today);
      var best := StoredBest(f);
      if streak > best {
        best := streak;
        assert written == WithBest(focuses, f.id, best);
        WithBestWellFormed(focuses, nextFocusId, f.id, best);
        focuses := WithBest(focuses, f.id, best);
      } else {
        assert written == focuses;
      }
      assert best == expected.bestStreak;
      var last7 := LastSevenDays(ds, today);
      r := Some(WeekStats(f.title, done, partial, fail, streak, best, last7));
      assert r == Some(expected);
    }

    /** `get_streak_for_user(tg_id)`: the walk back from the latest check-in date; reads only. */
    method GetStreak(tgId: int) returns (r: Option<StreakInfo>)
      ensures r == StreakOf(users, focuses, checkins, tgId)
      ensures r.Some? ==> r.value.bestStreak >= r.value.currentStreak
    {
      var user := UserByTg(users, tgId);
      if user.None? {
        return None;
      }
      var focus := ActiveFocusOf(focuses, user.value.id);
      if focus.None? {
        return None;
      }
      var f := focus.value;
      var rows := Filter(checkins, OnFocus(user.value.id, f.id));
      if rows == [] {
        return Some(StreakInfo(f.title, 0, StoredBest(f)));
      }
      var ds := StatusMap(rows);
      var lastDate := LatestDate(rows);
      var current := StreakFrom(ds, lastDate);
      r := Some(StreakInfo(f.title, current, Max(current, StoredBest(f))));
    }
  }
}
