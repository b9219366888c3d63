/**
 * The two scheduled passes of bot.py: the morning focus reminder
 * (`send_morning_focus`) and the evening check-in (`send_daily_checkins`),
 * with the evening summary text (`get_summary_text`). Outbound messages are
 * an output sequence; the store is the `Database` of the Store module.
 */
module Reminders {
  import opened Common
  import opened Store

  /**
   * A message the bot sends: its chat id and the fields its wording is made
   * from. The evening summary's text is `SummaryText(status, name)`.
   */
  datatype Outbound =
    | MorningFocus(chat: int, name: string, focusTitle: string)
    | EveningSummary(chat: int, name: string, status: Status)
    | EveningPrompt(chat: int, prefix: string)

  /** `user["name"] or ""`. */
  function DisplayName(u: User): string {
    if u.name.Some? then u.name.value else ""
  }

  /** `f"{name}, " if name else ""`. */
  function Prefix(name: string): (p: string)
    ensures |p| > 0 <==> |name| > 0
    ensures |name| > 0 ==> p == name + ", "
  {
    if |name| > 0 then name + ", " else ""
  }

  /** The three verdict texts of `get_summary_text`. */
  function Verdict(status: Status): string {
    match status
    case Done => "день по фокусу — сделан ✅"
    case Partial => "сегодня — сделано частично \U{1F313}"
    case Fail => "сегодня — не сделано ❌"
  }

  /** `get_summary_text(status, name)`: the name prefix, then the verdict for the status. */
  function SummaryText(status: Status, name: string): string {
    Prefix(name) + Verdict(status)
  }

  /** The summary text opens with the name prefix and tells the three statuses apart, whatever the name. */
  lemma SummaryTextDeterminesStatus(a: Status, b: Status, name: string)
    ensures |Prefix(name)| <= |SummaryText(a, name)| && SummaryText(a, name)[..|Prefix(name)|] == Prefix(name)
    ensures SummaryText(a, name) == SummaryText(b, name) <==> a == b
  {
  }

  /** The chat ids the messages go to, in order. */
  function Chats(ms: seq<Outbound>): (chats: seq<int>)
    ensures |chats| == |ms| && forall i :: 0 <= i < |ms| ==> chats[i] == ms[i].chat
  {
    seq(|ms|, i requires 0 <= i < |ms| => ms[i].chat)
  }

  /** The chat ids of the users, in order. */
  function TgIds(us: seq<User>): (tgs: seq<int>)
    ensures |tgs| == |us| && forall i :: 0 <= i < |us| ==> tgs[i] == us[i].tgId
  {
    seq(|us|, i requires 0 <= i < |us| => us[i].tgId)
  }

  predicate Distinct<T(==)>(s: seq<T>) {
    forall i, j :: 0 <= i < j < |s| ==> s[i] != s[j]
  }

  // ---------------------------------------------------------------------------
  // Morning pass

  /** The morning message for one selected user: none once they checked in today or without an active focus. */
  function MorningMessage(users: seq<User>, focuses: seq<Focus>, cs: seq<Checkin>, u: User, today: Day): Option<Outbound> {
    if TodayStatus(cs, u.id, today).Some? then None
    else
      match ActiveFocusForTg(users, focuses, u.tgId)
      case None => None
      case Some(f) => Some(MorningFocus(u.tgId, DisplayName(u), f.title))
  }

  /** A user gets a morning message exactly when they have no check-in today and an active focus. */
  function MorningEligible(users: seq<User>, focuses: seq<Focus>, cs: seq<Checkin>, today: Day): User -> bool {
    (u: User) => TodayStatus(cs, u.id, today).None? && ActiveFocusForTg(users, focuses, u.tgId).Some?
  }

  /** The messages of a pass over the selected users, in order: one for each user `message` yields one for. */
  function Collect(due: seq<User>, message: User -> Option<Outbound>): seq<Outbound> {
    if due == [] then []
    else
      var rest := Collect(due[..|due| - 1], message);
      match message(due[|due| - 1])
      case None => rest
      case Some(m) => rest + [m]
  }

  /** A pass whose messages go to their users' chats writes to exactly the users it yields a message for. */
  lemma {:induction false} CollectReachesFiltered(due: seq<User>, message: User -> Option<Outbound>, p: User -> bool)
    requires forall u :: message(u).Some? <==> p(u)
    requires forall u :: message(u).Some? ==> message(u).value.chat == u.tgId
    ensures Chats(Collect(due, message)) == TgIds(Filter(due, p))
  {
    if due != [] {
      var init, last := due[..|due| - 1], due[|due| - 1];
      CollectReachesFiltered(init, message, p);
      var kept := Filter(init, p);
      var rest := Collect(init, message);
      assert Filter(due, p) == kept + (if p(last) then [last] else []) by {
        assert due == init + [last];
        FilterAppend(init, [last], p);
        FilterSingle(last, p);
      }
      if p(last) {
        ChatsSnoc(rest, message(last).value);
        TgIdsSnoc(kept, last);
      } else {
        assert kept + [] == kept;
      }
    }
  }

  function MorningFor(users: seq<User>, focuses: seq<Focus>, cs: seq<Checkin>, today: Day): User -> Option<Outbound> {
    (u: User) => MorningMessage(users, focuses, cs, u, today)
  }

  /** The messages of the morning loop over the selected users, in order. */
  function MorningMessages(users: seq<User>, focuses: seq<Focus>, cs: seq<Checkin>, due: seq<User>, today: Day): seq<Outbound> {
    Collect(due, MorningFor(users, focuses, cs, today))
  }

  /** One user gets a morning message, to their own chat, exactly when eligible. */
  lemma MorningMessageIffEligible(users: seq<User>, focuses: seq<Focus>, cs: seq<Checkin>, u: User, today: Day)
    ensures MorningMessage(users, focuses, cs, u, today).Some? <==> MorningEligible(users, focuses, cs, today)(u)
    ensures MorningMessage(users, focuses, cs, u, today).Some? ==> MorningMessage(users, focuses, cs, u, today).value.chat == u.tgId
  {
  }

  lemma ChatsSnoc(ms: seq<Outbound>, m: Outbound)
    ensures Chats(ms + [m]) == Chats(ms) + [m.chat]
  {
  }

  lemma TgIdsSnoc(us: seq<User>, u: User)
    ensures TgIds(us + [u]) == TgIds(us) + [u.tgId]
  {
  }

  /** The morning pass writes to exactly the eligible selected users, in their order, one message each. */
  lemma MorningReachesEligible(users: seq<User>, focuses: seq<Focus>, cs: seq<Checkin>, due: seq<User>, today: Day)
    ensures Chats(MorningMessages(users, focuses, cs, due, today)) == TgIds(Filter(due, MorningEligible(users, focuses, cs, today)))
  {
    var message := MorningFor(users, focuses, cs, today);
    var p := MorningEligible(users, focuses, cs, today);
    forall u
      ensures message(u).Some? <==> p(u)
      ensures message(u).Some? ==> message(u).value.chat == u.tgId
    {
      MorningMessageIffEligible(users, focuses, cs, u, today);
    }
    CollectReachesFiltered(due, message, p);
  }

  /** Distinct chat ids among the selected users mean at most one morning message per user. */
  lemma MorningAtMostOnce(users: seq<User>, focuses: seq<Focus>, cs: seq<Checkin>, due: seq<User>, today: Day)
    requires Distinct(TgIds(due))
    ensures Distinct(Chats(MorningMessages(users, focuses, cs, due, today)))
    ensures forall u :: u in due ==>
      (u.tgId in Chats(MorningMessages(users, focuses, cs, due, today)) <==> MorningEligible(users, focuses, cs, today)(u))
  {
    var p := MorningEligible(users, focuses, cs, today);
    MorningReachesEligible(users, focuses, cs, due, today);
    var kept := Filter(due, p);
    FilterKeepsPairwise(due, p, DifferentChats);
    assert forall i, j :: 0 <= i < j < |due| ==> DifferentChats(due[i], due[j]) by {
      assert forall i :: 0 <= i < |due| ==> TgIds(due)[i] == due[i].tgId;
    }
    forall u | u in due ensures u.tgId in TgIds(kept) <==> p(u) {
      if p(u) {
        EligibleUserIsKept(due, p, u);
      }
      if u.tgId in TgIds(kept) {
        KeptChatIsEligible(due, p, u);
      }
    }
  }

  lemma EligibleUserIsKept(due: seq<User>, p: User -> bool, u: User)
    requires u in due && p(u)
    ensures u.tgId in TgIds(Filter(due, p))
  {
    var kept := Filter(due, p);
    var k :| 0 <= k < |kept| && kept[k] == u;
    assert TgIds(kept)[k] == u.tgId;
  }

  /** With distinct chat ids, a chat id among the kept users is only kept for its own user. */
  lemma KeptChatIsEligible(due: seq<User>, p: User -> bool, u: User)
    requires Distinct(TgIds(due)) && u in due && u.tgId in TgIds(Filter(due, p))
    ensures p(u)
  {
    var kept := Filter(due, p);
    var k :| 0 <= k < |kept| && TgIds(kept)[k] == u.tgId;
    var v := kept[k];
    assert v in due && p(v) && v.tgId == u.tgId;
    var i :| 0 <= i < |due| && due[i] == u;
    var j :| 0 <= j < |due| && due[j] == v;
    assert TgIds(due)[i] == TgIds(due)[j];
    assert i == j;
  }

  function DifferentChats(a: User, b: User): bool {
    a.tgId != b.tgId
  }

  // ---------------------------------------------------------------------------
  // Evening pass

  /** The evening message for one selected user: the summary when they checked in today, otherwise the prompt. */
  function EveningMessage(cs: seq<Checkin>, u: User, today: Day): Outbound {
    match TodayStatus(cs, u.id, today)
    case Some(status) => EveningSummary(u.tgId, DisplayName(u), status)
    case None => EveningPrompt(u.tgId, Prefix(DisplayName(u)))
  }

  /** The message goes to the user's chat, and it is the summary, of that status, exactly when they checked in today. */
  lemma EveningMessageFacts(cs: seq<Checkin>, u: User, today: Day)
    ensures EveningMessage(cs, u, today).chat == u.tgId
    ensures EveningMessage(cs, u, today).EveningSummary? <==> TodayStatus(cs, u.id, today).Some?
    ensures EveningMessage(cs, u, today).EveningSummary? ==>
      EveningMessage(cs, u, today).status == TodayStatus(cs, u.id, today).value && EveningMessage(cs, u, today).name == DisplayName(u)
  {
  }

  function EveningFor(cs: seq<Checkin>, today: Day): User -> Option<Outbound> {
    (u: User) => Some(EveningMessage(cs, u, today))
  }

  /** The messages of the evening loop over the selected users, in order. */
  function EveningMessages(cs: seq<Checkin>, due: seq<User>, today: Day): seq<Outbound> {
    Collect(due, EveningFor(cs, today))
  }

  /** Every selected user gets exactly one evening message, and message i is the one for user i. */
  lemma {:induction false} EveningMessagesInOrder(cs: seq<Checkin>, due: seq<User>, today: Day)
    ensures |EveningMessages(cs, due, today)| == |due|
    ensures forall i :: 0 <= i < |due| ==> EveningMessages(cs, due, today)[i] == EveningMessage(cs, due[i], today)
  {
    if due != [] {
      var init := due[..|due| - 1];
      EveningMessagesInOrder(cs, init, today);
      var rest := EveningMessages(cs, init, today);
      var ms := rest + [EveningMessage(cs, due[|due| - 1], today)];
      assert EveningMessages(cs, due, today) == ms;
      forall i | 0 <= i < |due| ensures ms[i] == EveningMessage(cs, due[i], today) {
        if i < |init| {
          assert ms[i] == rest[i] && init[i] == due[i];
        }
      }
    }
  }

  /** Every selected user receives exactly one evening message, in order. */
  lemma EveningReachesAll(cs: seq<Checkin>, due: seq<User>, today: Day)
    ensures Chats(EveningMessages(cs, due, today)) == TgIds(due)
  {
    EveningMessagesInOrder(cs, due, today);
    forall i | 0 <= i < |due| ensures EveningMessage(cs, due[i], today).chat == due[i].tgId {
      EveningMessageFacts(cs, due[i], today);
    }
  }

  // ---------------------------------------------------------------------------
  // The passes, over the store

  /** The users of a pass have distinct ids and distinct chat ids, since the table does. */
  lemma DueUsersDistinct(db: Database, kind: Reminder, today: Day)
    requires db.Valid()
    ensures Distinct(Ids(DueUsers(db.users, kind, today)))
    ensures Distinct(TgIds(DueUsers(db.users, kind, today)))
  {
    var p := NotSentOn(kind, today);
    FilterKeepsPairwise(db.users, p, DifferentUsers);
    var due := DueUsers(db.users, kind, today);
    assert forall i, j :: 0 <= i < j < |due| ==> DifferentUsers(due[i], due[j]);
  }

  function DifferentUsers(a: User, b: User): bool {
    a.id != b.id && a.tgId != b.tgId
  }

  /** The loop of `send_morning_focus` over the selected users: what it sends and the ids it collects. */
  method MorningLoop(users: seq<User>, focuses: seq<Focus>, checkins: seq<Checkin>, due: seq<User>, today: Day)
    returns (sent: seq<Outbound>, marked: seq<UserId>)
    ensures marked == Ids(due)
    ensures sent == MorningMessages(users, focuses, checkins, due, today)
  {
    sent, marked := [], [];
    for i := 0 to |due|
      invariant marked == Ids(due[..i])
      invariant sent == MorningMessages(users, focuses, checkins, due[..i], today)
    {
      var u := due[i];
      assert due[..i + 1][..i] == due[..i];
      var status := TodayStatus(checkins, u.id, today);
      if status.Some? {
        marked := marked + [u.id];
        continue;
      }
      var focus := ActiveFocusForTg(users, focuses, u.tgId);
      if focus.None? {
        marked := marked + [u.id];
        continue;
      }
      sent := sent + [MorningFocus(u.tgId, DisplayName(u), focus.value.title)];
      marked := marked + [u.id];
    }
    assert due[..|due|] == due;
  }

  /**
   * `send_morning_focus` on day `today`: every user not yet reminded today is
   * collected for marking, the eligible ones get the focus message, and the
   * whole list is marked in one update.
   */
  method SendMorningFocus(db: Database, today: Day) returns (sent: seq<Outbound>, marked: seq<UserId>)
    requires db.Valid()
    modifies db
    ensures db.Valid()
    ensures marked == Ids(old(DueUsers(db.users, Morning, today)))
    ensures sent == MorningMessages(old(db.users), old(db.focuses), old(db.checkins), old(DueUsers(db.users, Morning, today)), today)
    ensures db.users == MarkedSent(old(db.users), Morning, marked, today)
    ensures db.focuses == old(db.focuses) && db.checkins == old(db.checkins)
    ensures db.nextUserId == old(db.nextUserId) && db.nextFocusId == old(db.nextFocusId)
    ensures DueUsers(db.users, Morning, today) == []
  {
    var due := DueUsers(db.users, Morning, today);
    NoneDueAfterMarking(db.users, Morning, today);
    if due == [] {
      return [], [];
    }
    sent, marked := MorningLoop(db.users, db.focuses, db.checkins, due, today);
    db.MarkMorningSent(marked, today);
  }

  /** The loop of `send_daily_checkins` over the selected users: what it sends and the ids it collects. */
  method EveningLoop(checkins: seq<Checkin>, due: seq<User>, today: Day) returns (sent: seq<Outbound>, marked: seq<UserId>)
    ensures marked == Ids(due)
    ensures sent == EveningMessages(checkins, due, today)
  {
    sent, marked := [], [];
    for i := 0 to |due|
      invariant marked == Ids(due[..i])
      invariant sent == EveningMessages(checkins, due[..i], today)
    {
      var u := due[i];
      EveningMessagesSnoc(checkins, due, i, today);
      var status := TodayStatus(checkins, u.id, today);
      var message;
      if status.Some? {
        message := EveningSummary(u.tgId, DisplayName(u), status.value);
      } else {
        message := EveningPrompt(u.tgId, Prefix(DisplayName(u)));
      }
      assert message == EveningMessage(checkins, u, today);
      sent := sent + [message];
      marked := marked + [u.id];
    }
    assert due[..|due|] == due;
  }

  lemma EveningMessagesSnoc(cs: seq<Checkin>, due: seq<User>, i: nat, today: Day)
    requires i < |due|
    ensures EveningMessages(cs, due[..i + 1], today) == EveningMessages(cs, due[..i], today) + [EveningMessage(cs, due[i], today)]
  {
    assert due[..i + 1][..i] == due[..i];
  }

  /**
   * `send_daily_checkins` on day `today`: every user not yet reminded this
   * evening gets the summary or the prompt, and all of them are marked.
   */
  method SendDailyCheckins(db: Database, today: Day) returns (sent: seq<Outbound>, marked: seq<UserId>)
    requires db.Valid()
    modifies db
    ensures db.Valid()
    ensures marked == Ids(old(DueUsers(db.users, Evening, today)))
    ensures sent == EveningMessages(old(db.checkins), old(DueUsers(db.users, Evening, today)), today)
    ensures db.users == MarkedSent(old(db.users), Evening, marked, today)
    ensures db.focuses == old(db.focuses) && db.checkins == old(db.checkins)
    ensures db.nextUserId == old(db.nextUserId) && db.nextFocusId == old(db.nextFocusId)
    ensures DueUsers(db.users, Evening, today) == []
  {
    var due := DueUsers(db.users, Evening, today);
    NoneDueAfterMarking(db.users, Evening, today);
    if due == [] {
      return [], [];
    }
    sent, marked := EveningLoop(db.checkins, due, today);
    db.MarkEveningSent(marked, today);
  }
}
