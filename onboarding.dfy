/**
 * The onboarding conversation of bot.py: a linear state machine over five
 * waiting states, its answers, the initial reminder markers chosen when the
 * evening time is given, and the `/start` and `/reset` commands.
 */
module Onboarding {
  import opened Common
  import opened Clock
  import opened Store

  /** The five states of the `Onboarding` group, in the order they are visited. */
  datatype Stage = WaitingForName | WaitingForMorningTime | WaitingForEveningTime | WaitingForDomain | WaitingForFocus

  function StageIndex(s: Stage): (k: nat)
    ensures k < 5
  {
    match s
    case WaitingForName => 0
    case WaitingForMorningTime => 1
    case WaitingForEveningTime => 2
    case WaitingForDomain => 3
    case WaitingForFocus => 4
  }

  /** The characters `str.strip()` removes, restricted to ASCII: space, \t, \n, \v, \f, \r and \x1c..\x1f. */
  predicate IsSpace(c: char) {
    c == ' ' || '\t' <= c <= '\r' || '\U{1C}' <= c <= '\U{1F}'
  }

  function StripLeft(s: string): (r: string)
    ensures |r| <= |s| && r == s[|s| - |r|..]
    ensures r == [] || !IsSpace(r[0])
    ensures forall i :: 0 <= i < |s| - |r| ==> IsSpace(s[i])
  {
    if s == [] || !IsSpace(s[0]) then s else StripLeft(s[1..])
  }

  function StripRight(s: string): (r: string)
    ensures |r| <= |s| && r == s[..|r|]
    ensures r == [] || !IsSpace(r[|r| - 1])
    ensures forall i :: |r| <= i < |s| ==> IsSpace(s[i])
  {
    if s == [] || !IsSpace(s[|s| - 1]) then s else StripRight(s[..|s| - 1])
  }

  /** `text.strip()`: the text without its leading and trailing blanks. */
  function Strip(s: string): string {
    StripRight(StripLeft(s))
  }

  /** How many blanks `text.strip()` removes at the front. */
  function LeadingBlanks(s: string): nat {
    |s| - |StripLeft(s)|
  }

  /**
   * The stripped text is the infix of the text that starts after the leading
   * blanks; only blanks lie around it, and it has none at its ends.
   */
  lemma StripFacts(s: string)
    ensures LeadingBlanks(s) + |Strip(s)| <= |s|
    ensures Strip(s) == s[LeadingBlanks(s)..LeadingBlanks(s) + |Strip(s)|]
    ensures forall k :: 0 <= k < LeadingBlanks(s) ==> IsSpace(s[k])
    ensures forall k :: LeadingBlanks(s) + |Strip(s)| <= k < |s| ==> IsSpace(s[k])
    ensures Strip(s) == [] || (!IsSpace(Strip(s)[0]) && !IsSpace(Strip(s)[|Strip(s)| - 1]))
  {
    var left := StripLeft(s);
    var r := StripRight(left);
    TrailingBlanks(s, left, r);
    if r != [] {
      assert r[0] == left[0];
    }
  }

  lemma TrailingBlanks(s: string, left: string, r: string)
    requires |left| <= |s| && left == s[|s| - |left|..]
    requires |r| <= |left| && r == left[..|r|]
    requires forall k :: |r| <= k < |left| ==> IsSpace(left[k])
    ensures forall k :: |s| - |left| + |r| <= k < |s| ==> IsSpace(s[k])
  {
    var i := |s| - |left|;
    forall k | i + |r| <= k < |s| ensures IsSpace(s[k]) {
      assert s[k] == left[k - i];
    }
  }

  /** Stripping twice is stripping once. */
  lemma {:induction false} StripIsIdempotent(s: string)
    ensures Strip(Strip(s)) == Strip(s)
  {
    var r := Strip(s);
    StripFacts(s);
    if r != [] {
      assert StripLeft(r) == r;
      assert StripRight(r) == r;
    }
  }

  predicate AllBlank(s: string) {
    forall k :: 0 <= k < |s| ==> IsSpace(s[k])
  }

  lemma {:induction false} StripLeftOfBlanks(lead: string, t: string)
    requires AllBlank(lead) && t != [] && !IsSpace(t[0])
    ensures StripLeft(lead + t) == t
  {
    if lead == [] {
      assert lead + t == t;
    } else {
      assert (lead + t)[1..] == lead[1..] + t;
      StripLeftOfBlanks(lead[1..], t);
    }
  }

  lemma {:induction false} StripRightOfBlanks(t: string, trail: string)
    requires AllBlank(trail) && t != [] && !IsSpace(t[|t| - 1])
    ensures StripRight(t + trail) == t
  {
    if trail == [] {
      assert t + trail == t;
    } else {
      var init := trail[..|trail| - 1];
      assert (t + trail)[..|t + trail| - 1] == t + init;
      StripRightOfBlanks(t, init);
    }
  }

  /** Blanks typed around a text whose ends are not blank are exactly what stripping removes. */
  lemma StripRemovesSurroundingBlanks(lead: string, t: string, trail: string)
    requires AllBlank(lead) && AllBlank(trail)
    requires t != [] && !IsSpace(t[0]) && !IsSpace(t[|t| - 1])
    ensures Strip(lead + t + trail) == t
  {
    assert lead + t + trail == lead + (t + trail);
    StripLeftOfBlanks(lead, t + trail);
    StripRightOfBlanks(t, trail);
  }

  /** A valid time typed with blanks around it is accepted, as the bare time. */
  lemma PaddedTimeIsAccepted(lead: string, time: string, trail: string)
    requires AllBlank(lead) && AllBlank(trail) && IsValidTime(time)
    ensures Strip(lead + time + trail) == time
    ensures IsValidTime(Strip(lead + time + trail))
  {
    ValidTimeExactly(time);
    StripRemovesSurroundingBlanks(lead, time, trail);
  }

  /** The state after one message in `stage`; None is the cleared state after the focus is given. */
  function NextStage(stage: Stage, text: string): Option<Stage> {
    match stage
    case WaitingForName => Some(WaitingForMorningTime)
    case WaitingForMorningTime => if IsValidTime(Strip(text)) then Some(WaitingForEveningTime) else Some(stage)
    case WaitingForEveningTime => if IsValidTime(Strip(text)) then Some(WaitingForDomain) else Some(stage)
    case WaitingForDomain => Some(WaitingForFocus)
    case WaitingForFocus => None
  }

  /**
   * The conversation is linear: a message moves to the next state (clearing after the
   * last one), except that an invalid time keeps the state, and only the time states
   * can stay.
   */
  lemma OnboardingIsLinear(stage: Stage, text: string)
    ensures NextStage(stage, text) == None <==> stage == WaitingForFocus
    ensures NextStage(stage, text).Some? ==>
      StageIndex(NextStage(stage, text).value) == StageIndex(stage) + 1 || NextStage(stage, text) == Some(stage)
    ensures NextStage(stage, text) == Some(stage) <==>
      (stage == WaitingForMorningTime || stage == WaitingForEveningTime) && !IsValidTime(Strip(text))
  {
  }

  /**
   * The marker decision of `process_evening_time`: a reminder whose time has
   * already come today counts as sent today. The string comparison with the
   * current "HH:MM" is the comparison of minutes.
   */
  function InitialMarkers(morningTime: string, checkinTime: string, nowMinute: MinuteOfDay, today: Day): (r: (Option<Day>, Option<Day>))
    requires IsValidTime(morningTime) && IsValidTime(checkinTime)
    ensures r.0 == (if MinutesOf(morningTime) <= nowMinute then Some(today) else None)
    ensures r.1 == (if MinutesOf(checkinTime) <= nowMinute then Some(today) else None)
  {
    var current := ClockText(nowMinute);
    ClockTextRoundTrip(nowMinute);
    LexOrderIsTimeOrder(morningTime, current);
    LexOrderIsTimeOrder(checkinTime, current);
    (if LexLe(morningTime, current) then Some(today) else None,
     if LexLe(checkinTime, current) then Some(today) else None)
  }

  /** The command a message carries, as aiogram's `Command` filters read it; `NoCommand` for plain text. */
  datatype Command = NoCommand | HelpCommand | StartCommand | ResetCommand | OtherCommand

  /** The handlers of bot.py that a message can reach, with the onboarding ones named. */
  datatype Handler = CmdHelp | CmdStart | Step(stage: Stage) | CmdReset | Elsewhere

  /**
   * The dispatcher hands a message to the first registered handler whose filter
   * matches: `/help` and `/start` come first, then the five state handlers, which
   * take any message in their state, and only then `/reset` and the rest.
   */
  function Route(stage: Option<Stage>, command: Command): Handler {
    if command == HelpCommand then CmdHelp
    else if command == StartCommand then CmdStart
    else if stage.Some? then Step(stage.value)
    else if command == ResetCommand then CmdReset
    else Elsewhere
  }

  /** `/reset` reaches `cmd_reset` only from a cleared conversation. */
  lemma ResetOnlyWhenCleared(stage: Option<Stage>, command: Command)
    ensures Route(stage, command) == CmdReset <==> stage.None? && command == ResetCommand
  {
  }

  /** While onboarding, every message but `/help` and `/start`, `/reset` included, goes to the state's handler. */
  lemma StepTakesTheMessage(stage: Option<Stage>, command: Command)
    requires stage.Some? && command != HelpCommand && command != StartCommand
    ensures Route(stage, command) == Step(stage.value)
  {
  }

  /** The FSM data stored by `update_data`: what has been answered so far. */
  datatype Answers = Answers(name: Option<string>, morningTime: Option<string>, domain: Option<string>)

  const NoAnswers := Answers(None, None, None)

  /** One user's conversation: the current state (None when cleared) and the stored answers. */
  class Session {
    var stage: Option<Stage>
    var answers: Answers

    /** The answers the handlers read are present, and the stored morning time is valid. */
    ghost predicate Valid()
      reads this
    {
      && (stage.Some? && StageIndex(stage.value) >= 1 ==> answers.name.Some?)
      && (stage.Some? && StageIndex(stage.value) >= 2 ==>
            answers.morningTime.Some? && IsValidTime(answers.morningTime.value))
      && (stage == Some(WaitingForFocus) ==> answers.domain.Some?)
    }

    constructor ()
      ensures Valid() && stage == None && answers == NoAnswers
    {
      stage, answers := None, NoAnswers;
    }

    /** `cmd_start`: a known user is only greeted; a new one is created and asked for a name. */
    method Start(db: Database, tgId: int)
      requires Valid() && db.Valid()
      modifies this, db
      ensures Valid() && db.Valid()
      ensures old(UserByTg(db.users, tgId)).Some? ==>
        stage == old(stage) && answers == old(answers) && db.users == old(db.users)
      ensures old(UserByTg(db.users, tgId)).None? ==>
        stage == Some(WaitingForName) && answers == old(answers) && UserByTg(db.users, tgId).Some?
      ensures old(UserByTg(db.users, tgId)).Some? ==> db.nextUserId == old(db.nextUserId)
      ensures old(UserByTg(db.users, tgId)).None? ==>
        db.users == old(db.users) + [User(old(db.nextUserId), tgId, None, None, None, None, None, None)] && db.nextUserId == old(db.nextUserId) + 1
      ensures db.focuses == old(db.focuses) && db.checkins == old(db.checkins) && db.nextFocusId == old(db.nextFocusId)
    {
      if UserByTg(db.users, tgId).Some? {
        return;
      }
      db.CreateUser(tgId);
      assert db.users[|db.users| - 1].tgId == tgId;
      stage := Some(WaitingForName);
    }

    /** `process_name`: the stripped text is the name. */
    method ProcessName(text: string)
      requires Valid() && stage == Some(WaitingForName)
      modifies this
      ensures Valid()
      ensures stage == NextStage(WaitingForName, text)
      ensures answers == old(answers).(name := Some(Strip(text)))
    {
      answers := answers.(name := Some(Strip(text)));
      stage := Some(WaitingForMorningTime);
    }

    /** `process_morning_time`: a valid stripped time is stored; anything else is asked again. */
    method ProcessMorningTime(text: string)
      requires Valid() && stage == Some(WaitingForMorningTime)
      modifies this
      ensures Valid()
      ensures stage == NextStage(WaitingForMorningTime, text)
      ensures IsValidTime(Strip(text)) ==> answers == old(answers).(morningTime := Some(Strip(text)))
      ensures !IsValidTime(Strip(text)) ==> answers == old(answers)
    {
      var morningTime := Strip(text);
      if !IsValidTime(morningTime) {
        return;
      }
      answers := answers.(morningTime := Some(morningTime));
      stage := Some(WaitingForEveningTime);
    }

    /**
     * `process_evening_time` on day `today` at minute `nowMinute`: a valid time
     * stores the profile with the initial markers; anything else is asked again.
     */
    method ProcessEveningTime(db: Database, tgId: int, text: string, today: Day, nowMinute: MinuteOfDay)
      requires Valid() && db.Valid() && stage == Some(WaitingForEveningTime)
      modifies this, db
      ensures Valid() && db.Valid()
      ensures stage == NextStage(WaitingForEveningTime, text)
      ensures answers == old(answers)
      ensures !IsValidTime(Strip(text)) ==> db.users == old(db.users)
      ensures IsValidTime(Strip(text)) ==>
        var markers := InitialMarkers(answers.morningTime.value, Strip(text), nowMinute, today);
        db.users == WithProfile(old(db.users), tgId, answers.name.value, answers.morningTime.value, Strip(text),
                                today, markers.0, markers.1)
      ensures db.focuses == old(db.focuses) && db.checkins == old(db.checkins)
      ensures db.nextUserId == old(db.nextUserId) && db.nextFocusId == old(db.nextFocusId)
    {
      var checkinTime := Strip(text);
      if !IsValidTime(checkinTime) {
        return;
      }
      var markers := InitialMarkers(answers.morningTime.value, checkinTime, nowMinute, today);
      db.UpdateUserNameAndTime(tgId, answers.name.value, answers.morningTime.value, checkinTime, today, markers.0, markers.1);
      stage := Some(WaitingForDomain);
    }

    /** `process_domain`: the stripped text is the domain. */
    method ProcessDomain(text: string)
      requires Valid() && stage == Some(WaitingForDomain)
      modifies this
      ensures Valid()
      ensures stage == NextStage(WaitingForDomain, text)
      ensures answers == old(answers).(domain := Some(Strip(text)))
    {
      answers := answers.(domain := Some(Strip(text)));
      stage := Some(WaitingForFocus);
    }

    /** `process_focus` at time `now`: the stripped text becomes the active focus and the conversation is cleared. */
    method ProcessFocus(db: Database, tgId: int, text: string, now: int)
      requires Valid() && db.Valid() && stage == Some(WaitingForFocus)
      modifies this, db
      ensures Valid() && db.Valid()
      ensures stage == NextStage(WaitingForFocus, text) && answers == NoAnswers
      ensures old(UserByTg(db.users, tgId)).Some? ==>
        db.focuses == ReplacedFocus(old(db.focuses), old(UserByTg(db.users, tgId)).value.id, Strip(text),
                                    old(answers.domain), old(db.nextFocusId), now)
      ensures old(UserByTg(db.users, tgId)).None? ==> db.focuses == old(db.focuses) && db.nextFocusId == old(db.nextFocusId)
      ensures old(UserByTg(db.users, tgId)).Some? ==> db.nextFocusId == old(db.nextFocusId) + 1
      ensures db.users == old(db.users) && db.checkins == old(db.checkins) && db.nextUserId == old(db.nextUserId)
    {
      var _ := db.CreateFocus(tgId, Strip(text), answers.domain.value, now);
      stage, answers := None, NoAnswers;
    }

    /**
     * `cmd_reset`: clear the conversation, make sure the user exists, and ask for
     * the name again. `Route` sends `/reset` here only when no state is set.
     */
    method Reset(db: Database, tgId: int)
      requires Valid() && db.Valid() && stage.None?
      modifies this, db
      ensures Valid() && db.Valid()
      ensures stage == Some(WaitingForName) && answers == NoAnswers
      ensures UserByTg(db.users, tgId).Some?
      ensures old(UserByTg(db.users, tgId)).Some? ==> db.users == old(db.users) && db.nextUserId == old(db.nextUserId)
      ensures old(UserByTg(db.users, tgId)).None? ==>
        db.users == old(db.users) + [User(old(db.nextUserId), tgId, None, None, None, None, None, None)] && db.nextUserId == old(db.nextUserId) + 1
      ensures db.focuses == old(db.focuses) && db.checkins == old(db.checkins) && db.nextFocusId == old(db.nextFocusId)
    {
      stage, answers := None, NoAnswers;
      db.CreateUser(tgId);
      assert UserByTg(db.users, tgId).Some? by {
        if old(UserByTg(db.users, tgId)).None? {
          assert db.users[|db.users| - 1].tgId == tgId;
        }
      }
      stage := Some(WaitingForName);
    }
  }
}
