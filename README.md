# discipline_bot bookkeeping, in Dafny

A model of the habit-tracking core of a Telegram bot. It covers:

- **The store (db.py).** Three tables live in a `Database` class: users, focuses and check-ins. The read-only queries are functions over those tables. The writes are methods that replace the tables in place.
- **The logic bot.py builds on the store:**
  - the strict `HH:MM` validator;
  - the onboarding state machine, a `Session` class, and how the dispatcher routes a message to its handlers;
  - the morning and evening reminder passes, with outbound messages as an output sequence;
  - the arithmetic and layout of the `/week` reply.

Modules, one per file:

| module | file | what it holds |
|---|---|---|
| `Common` | common.dfy | `Option`, `Status`, day numbers, `Filter`/`Count` over sequences |
| `Clock` | clock.dfy | `is_valid_time`, the "HH:MM" and "HH:MM:SS" renderings of a clock reading, and Python/SQLite string `<=` |
| `Streaks` | streaks.dfy | the two backward streak walks, the seven-slot window and the best-streak high-water mark, over a `day -> status` map |
| `Store` | store.dfy | the tables, their invariants, the queries, and the `Database` class with the db.py writes |
| `WeekReport` | week_report.dfy | percentage, bar, verdict tier, streak note, heatmap and the `/week` reply |
| `Reminders` | reminders.dfy | `get_summary_text`, `send_morning_focus` and `send_daily_checkins` |
| `Onboarding` | onboarding.dfy | `str.strip`, the `Onboarding` states, the initial-marker decision, and `/start` and `/reset` |

Conventions:

- Dates are integer day numbers, so `today - 1` is yesterday.
- A time of day is a minute (0..1439), or a second (0..86399) for SQLite's `time('now')`.
- "Today" and "now" are parameters of the operations that read the clock.
- Rows are kept in insertion order, so the latest row is the last one.

The invariants kept by `Database.Valid()` are:

- user ids and chat ids are unique, and so are focus ids. The schema file is not part of this model. Unique chat ids are an assumption about it, implied by the `INSERT OR IGNORE` of `create_user` (db.py:32);
- at most one focus per user is active;
- there is at most one check-in per (user, focus, date).

## Model

| member | source | states |
|---|---|---|
| Clock.ValidTimeExactly | bot.py:28-35 | `is_valid_time`, defined as `IsValidTime`, accepts exactly the five-character strings `DD:DD` with hour at most 23 and minute at most 59 |
| Clock.ClockTextRoundTrip | bot.py:96 | the `%H:%M` rendering of any minute of the day is accepted by the validator and names that same minute |
| Clock.ValidTimeRoundTrip | bot.py:28-35 | every accepted time is the rendering of the minute it names, so nothing is lost by reading it as minutes |
| Clock.LexOrderIsTimeOrder | bot.py:99-100 | for two accepted times, string `<=` holds exactly when the first names an earlier or equal minute |
| Clock.SqlTimeBeforeMorning | db.py:173-180 | SQLite's `time('now') <= morning_time` compares "HH:MM:SS" with "HH:MM", so it holds exactly when the current minute is strictly before the morning minute |
| Streaks.WeekStreak | db.py:353-361 | the capped loop returns at most 7; every day it counted is done or partial; when it stops early, the day it stopped on is not; it equals `RunCapped` |
| Streaks.StreakFrom | db.py:449-457 | the unbounded loop terminates; every counted day is done or partial; the day it stops on is missing or failed; it equals `RunEndingAt` |
| Streaks.RunEndingAtIsStreak | db.py:449-457 | the walk's result is a streak: the days it covers count, and the day before them does not |
| Streaks.StreakIsUnique | db.py:449-457 | any length that is a streak at a day equals the walk's result, so the streak is determined by the history |
| Streaks.CappedRunIsMin | db.py:353-361 | the seven-day walk is the unbounded walk cut at the cap |
| Streaks.RunWithinRecordedDays | db.py:441-457 | a streak is no longer than the number of recorded days up to its anchor, nor than the map |
| Streaks.LastSevenDays | db.py:374-380 | the window loop yields seven slots, oldest first; slot i is the status of day today-6+i, or nothing |
| Streaks.DaysFromAt | db.py:374-380 | each slot of a window is the status of its own day |
| Streaks.FilledSlotsAreRecordedDays | db.py:374-380 | the number of filled slots equals the number of recorded days the window covers |
| Streaks.RaisedBest | db.py:363-372 | the best after one computation is at least both the stored and the current value, and is one of them |
| Streaks.BestIsHighWaterMark | db.py:363-372 | over a series of computations, the stored best never decreases and ends at the largest value seen, or the initial one |
| Store.UserByTg | db.py:20-26 | it finds a user with that chat id, and returns nothing exactly when there is none |
| Store.ActiveFocusOf | db.py:101-117 | a returned focus belongs to the user and is active; nothing is returned exactly when the user has no active focus |
| Store.ActiveFocusIsTheOne | db.py:101-117 | under the one-active invariant, the query returns the user's only active focus |
| Store.ActiveFocusForTg | db.py:101-117 | the join returns an active focus of the user with that chat id; nothing means no such user, or no active focus for them |
| Store.TodayStatus | db.py:470-486 | a returned status is that of a row of that user and date with no later row of that user and date (`ORDER BY id DESC LIMIT 1`); nothing is returned exactly when there is no such row |
| Store.DueUsers | db.py:241-258 | a user is selected exactly when their marker for that pass is not today (NULL included); the same holds for the evening query at db.py:202-219 |
| Store.MarkedSent | db.py:260-276 | listed users get that marker set to today; the other marker of every user is unchanged; unlisted users are unchanged; columns other than the markers are unchanged; an empty list changes nothing |
| Store.MarkingIsIdempotent | db.py:260-276 | applying the same bulk mark twice equals applying it once |
| Store.NoneDueAfterMarking | db.py:241-276 | after marking every user the query selected, it selects nobody again that day |
| Store.WithProfile | db.py:38-65 | the row with that chat id receives the name, both times, the start date and both given markers; every other row is unchanged; ids and chat ids are kept |
| Store.ReplacedFocus | db.py:67-98 | afterwards exactly one focus of the user is active: the new one, last, with the given title and domain; the user's previously active ones are closed at `now`; all other rows are untouched; one-active is preserved |
| Store.Recorded | db.py:143-160 | the last row carries the new status for the key, and no other row has that key; rows of other keys are kept in order; the day's status reads back as the new one; ledger uniqueness is preserved |
| Store.RecordKeepsUnique | db.py:143-160 | the delete-then-insert keeps one check-in per user, focus and date |
| Store.RecordThenDelete | db.py:143-160 | deleting the key again after the insert gives back the pre-insert ledger without that key |
| Store.MorningSuppressed | db.py:170-182 | the check-in's UPDATE changes nothing but the morning marker, and no row but the one with that id |
| Store.CheckinSuppressesMorning | db.py:170-182 | the morning marker becomes today exactly when no morning time is set or the current minute is before it; otherwise it is unchanged |
| Store.StatusMap | db.py:348-351 | the map's days are exactly the dates of the rows |
| Store.StatusMapOfDistinct | db.py:348-351 | with one row per date, the map has one entry per row, and each row's status is its day's entry |
| Store.CountsCoverRows | db.py:307-328 | the done, partial and fail counts add up to the rows of the window |
| Store.WeekRowsAreWindow | db.py:307-347 | under ledger uniqueness, the week's rows of a focus have distinct dates, all in [today-6, today] |
| Store.WindowFacts | db.py:307-380 | for such rows the three counts add up to the filled slots, and the last slot is today's status |
| Store.WeekStatsFacts | db.py:279-388 | for `WeekStatsOf`, the figures `get_week_stats_for_user` returns: the window has 7 slots; streak is at most 7; best is at least streak; counts equal the filled slots, at most 7; streak > 0 exactly when today's slot is done or partial |
| Store.WeekStatsWrite | db.py:363-372 | only `best_streak` can change; no stored best decreases; a changed row carries the week's streak, which beat its old value; the user's active focus ends with the returned best, which is the streak when the streak beat the stored best; every other row is unchanged |
| Store.LatestDate | db.py:447 | the latest date occurs among the rows and no row is later |
| Store.StreakFromRows | db.py:433-466 | no rows gives current 0 and the stored best; else current is at most the rows and at least 1 exactly when the latest day is done or partial; best is max(current, stored) |
| Store.Database.CreateUser | db.py:29-35 | a known chat id leaves the table as is; a new one appends a blank user with a fresh id |
| Store.Database.UpdateUserNameAndTime | db.py:38-65 | the users table becomes `WithProfile` of the old one; other tables are unchanged |
| Store.Database.CreateFocus | db.py:67-98 | true exactly for a known user; an unknown user leaves the store unchanged; otherwise the focuses become `ReplacedFocus`; invariants are kept |
| Store.Database.SetNewFocusForUser | db.py:489-519 | the same as `CreateFocus`, with an optional domain |
| Store.Database.CreateCheckinSimple | db.py:120-185 | true exactly when the user and an active focus exist; otherwise nothing changes; on success the ledger is `Recorded`, the users are `MorningSuppressed`, and the invariants are kept |
| Store.Database.MarkMorningSent | db.py:260-276 | the users table becomes `MarkedSent` for the morning marker; nothing else changes |
| Store.Database.MarkEveningSent | db.py:221-237 | the users table becomes `MarkedSent` for the evening marker; nothing else changes |
| Store.Database.GetWeekStats | db.py:279-388 | it returns `WeekStatsOf` of the old tables, and the focuses become `WeekStatsWrite` of them, so the active focus stores the returned best |
| Store.Database.GetStreak | db.py:390-466 | it returns `StreakOf` (the figures of `get_streak_for_user`) of the tables without writing, and its best is at least its current streak |
| WeekReport.RoundHalfEven | bot.py:347 | the result is within half a unit of n/m, and a tie goes to the even neighbour |
| WeekReport.RoundExact | bot.py:347 | an exact whole quotient rounds to itself |
| WeekReport.ShareBounds | bot.py:346-350 | with done + partial <= total, the percentage (`Percent`) is at most 100 and the fill (`Filled`) at most 10 |
| WeekReport.FullPercentIffAllDone | bot.py:346-347 | for fewer than 100 check-ins, the percentage is 100 exactly when partial and fail are both 0 |
| WeekReport.FullBarIffAllDone | bot.py:346-351 | for fewer than 10 check-ins, the bar is full exactly when partial and fail are both 0 |
| WeekReport.ShareExample | bot.py:346-350 | 3 done and 2 partial of 5 give 80 percent and 8 segments |
| WeekReport.HalfWayRoundsToEven | bot.py:347 | 1 partial of 4 (12.5 percent) is reported as 12 |
| WeekReport.Bar | bot.py:351 | the bar has 10 characters: full blocks before the fill, light shade after |
| WeekReport.TierIsMonotone | bot.py:353-362 | for the verdict `TierOf`, a higher percentage never gets a lower verdict; the perfect verdict needs 100; the starting verdict needs 0 |
| WeekReport.StreakNoteOf | bot.py:364-367 | no note for 0, the first-day note for 1, the holding note with the day count above 1 |
| WeekReport.NonEmpty | bot.py:369 | it keeps as many entries as there are filled days, all filled |
| WeekReport.NonEmptyKeepsOrder | bot.py:369 | a filled day at index i sits at position "filled days before i" in the kept list, so order is preserved |
| WeekReport.Padded | bot.py:370-371 | the result has 7 entries: the filled days first, in order, then blanks |
| WeekReport.CellIsInjective | bot.py:373-377 | different day states get different cells |
| WeekReport.Heatmap | bot.py:379 | the heatmap has 7 cells, cell i showing padded entry i |
| WeekReport.WeekReplyOf | bot.py:326-393 | no data gives the no-data reply and zero check-ins the no-check-in reply; otherwise a summary with percent at most 100, a 10-character bar, 7 cells, the tier and note of its figures, and the bonus exactly for 7 done and nothing else |
| WeekReport.SummaryFacts | bot.py:340-379 | for at most 7 check-ins counted in 7 slots: 100 percent and a full bar exactly when all are done, and the heatmap has one non-blank cell per check-in, then blanks |
| WeekReport.WeekReplyFacts | bot.py:326-393 | on the store's own statistics (ledger unique), every summary has the properties of `SummaryFacts` |
| Reminders.Prefix | bot.py:295 | the prefix is non-empty exactly when the name is, and is then "name, " |
| Reminders.SummaryTextDeterminesStatus | bot.py:294-300 | for `get_summary_text`, defined as `SummaryText`, the summary opens with the prefix, and different statuses give different texts |
| Reminders.CollectReachesFiltered | bot.py:275-290 | a pass whose per-user message goes to that user's chat, and exists exactly when a test holds, writes to exactly the users passing the test, in order |
| Reminders.MorningReachesEligible | bot.py:275-290 | the morning messages (`MorningMessage` per user, collected by `MorningMessages`) go, in order and once each, to exactly the selected users with no check-in today and an active focus |
| Reminders.MorningAtMostOnce | bot.py:275-292 | with distinct chat ids, no user gets two morning messages, and a selected user gets one exactly when eligible |
| Reminders.EveningMessageFacts | bot.py:312-321 | the message `EveningMessage` builds goes to the user's chat; it is the summary exactly when they checked in today, and then carries that day's status and the user's name |
| Reminders.EveningMessagesInOrder | bot.py:310-322 | one message per selected user, in order: message i is the one for user i |
| Reminders.EveningReachesAll | bot.py:310-322 | the evening messages go to exactly the selected users, one each, in order |
| Reminders.DueUsersDistinct | db.py:241-258 | the selected users have distinct ids and distinct chat ids |
| Reminders.MorningLoop | bot.py:275-290 | the loop collects every selected id once, in order, and sends `MorningMessages` |
| Reminders.EveningLoop | bot.py:309-321 | the loop collects every selected id once, in order, and sends `EveningMessages` |
| Reminders.SendMorningFocus | bot.py:268-292 | it marks exactly the selected users and sends the morning messages; the other tables are unchanged; the id counters are unchanged; afterwards no user is due that morning |
| Reminders.SendDailyCheckins | bot.py:302-323 | it sends one evening message per selected user and marks them all; the other tables and the id counters are unchanged; afterwards no user is due that evening |
| Onboarding.StripFacts | bot.py:79 | for `text.strip()`, defined as `Strip`, the result is the infix of the text after its leading blanks; only blanks lie around it; it neither starts nor ends with a blank |
| Onboarding.StripRemovesSurroundingBlanks | bot.py:79 | for a text without blank ends, blanks typed before and after it are exactly what stripping removes |
| Onboarding.StripIsIdempotent | bot.py:79 | stripping twice is stripping once |
| Onboarding.PaddedTimeIsAccepted | bot.py:79-80 | any valid time typed with blanks around it strips to the bare time, which is accepted |
| Onboarding.OnboardingIsLinear | bot.py:71-124 | for the state transition `NextStage`, each message moves to the next state; only an invalid time in a time state stays put; only the focus state clears |
| Onboarding.InitialMarkers | bot.py:94-100 | a marker is today exactly when its reminder's minute is not after the current minute |
| Onboarding.Session.Start | bot.py:61-69 | a known user changes nothing; for a new one, exactly one blank user with the next id is appended, and the state becomes `waiting_for_name`; focuses and check-ins are unchanged |
| Onboarding.Session.ProcessName | bot.py:71-75 | it stores the stripped name and moves on |
| Onboarding.Session.ProcessMorningTime | bot.py:77-85 | a valid stripped time is stored and the state moves on; otherwise state and answers stay |
| Onboarding.Session.ProcessEveningTime | bot.py:87-107 | an invalid time changes nothing; a valid one writes the profile with `InitialMarkers` and moves to the domain |
| Onboarding.Session.ProcessDomain | bot.py:109-114 | it stores the stripped domain and moves to the focus |
| Onboarding.Session.ProcessFocus | bot.py:116-124 | the stripped text becomes the user's active focus with the stored domain; the conversation is cleared |
| Onboarding.ResetOnlyWhenCleared | bot.py:259-264 | under `Route`, the dispatcher's first-match order (the state handlers of bot.py:71-124 are registered before `/reset`), a message reaches `cmd_reset` exactly when it is `/reset` and no onboarding state is set |
| Onboarding.StepTakesTheMessage | bot.py:57-124 | while an onboarding state is set, every message other than `/help` and `/start`, `/reset` included, goes to that state's handler |
| Onboarding.Session.Reset | bot.py:259-264 | from a cleared conversation, the only one `/reset` reaches, the answers are cleared and the state is `waiting_for_name`; a known user leaves the users table as is, and an unknown one gets exactly one blank row with the next id appended; focuses and check-ins are unchanged |

## Left out

- Telegram transport: handlers' replies and keyboards, `set_my_commands`, `main` and polling. Outbound messages of the reminder passes are an output sequence; reply wording of other handlers is not modelled.
- Onboarding.Route: a message's command is given already parsed, as aiogram's `Command` filters read it; the handlers after the onboarding states other than `/reset` (check-in commands and buttons, `/week`, `/focus`) are one `Elsewhere` handler. Onboarding.Session.Reset requires a cleared conversation because `Route` delivers `/reset` only then.
- Reminders.Outbound: a message carries the fields its wording is made from (chat, name, focus title or status) rather than the rendered text; the evening summary's text is `SummaryText(status, name)`, and the fixed greeting and prompt wording of bot.py:288 and bot.py:319-321 are not spelled out.
- `handle_done`/`handle_partial`/`handle_fail`, `cmd_done`/`cmd_partial`/`cmd_fail`, `cmd_focus`, `cmd_help` and `handle_manual_checkin`: they are a store call (`CreateCheckinSimple`, `SetNewFocusForUser`) plus message text.
- aiosqlite connections, async execution, commits and `init_db` schema loading: the tables are in-memory sequences, and each db.py function is one atomic step.
- The scheduler's 60-second jobs and any overlap between them (concurrency).
- The wall clock: `datetime.now()`, SQLite `DATE('now')`, `time('now')` and `CURRENT_TIMESTAMP` are parameters. db.py mixes SQLite's UTC date (db.py:317, db.py:337) with Python's local date (db.py:347). The model uses one `today` for both.
- The `timezone` column written by `update_user_name_and_time` is not modelled; no code reads it.
- `get_users_for_checkin` (db.py:187-200) is not modelled; nothing calls it.
- config.py is not part of this model (token and unused achievement constants).
- Reminder selection is by marker only, as the code does it. The configured morning and evening times are never compared in the passes, although the query docstrings say they will be.
- bot.py calls the db.py functions with different arities and result keys (bot.py:272 against db.py:241, bot.py:280 against db.py:470, bot.py:121 against db.py:67, bot.py:332 against db.py:383). The model follows the db.py signatures and keys; those mismatches are not reproduced.
- WeekReport.RoundHalfEven: rounds the exact value `(2*done + partial) / (2*total)` half to even. Python rounds the binary float, which can differ on values that are not exactly representable.
- Clock.IsValidTime: only ASCII digits; `str.isdigit` also accepts other Unicode digits.
- Onboarding.Strip: removes ASCII whitespace only (space, \t..\r, \x1c..\x1f); Python's `str.strip` also removes Unicode spaces.
- Store.ActiveFocusOf: `ORDER BY started_at DESC LIMIT 1` is the latest inserted active focus. Under the one-active invariant it is the only one. Ties of `started_at` at one-second resolution are not modelled.
- Store.StatusMap: for two rows on one date the later-inserted row wins. SQLite leaves that order unspecified within `ORDER BY date DESC`. Under the ledger invariant no two rows share a date, and every lemma that uses the map requires it.
- Store.TodayStatus: looks across all focuses of the user, as the query does.
- Store.Database.GetWeekStats: `WeekStatsFacts` and `WeekReplyFacts` require the one-row-per-day ledger invariant, which `Database.Valid()` maintains.
