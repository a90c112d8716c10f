/**
 * One connected chat client: its nickname, the four moderation fields and
 * everything written to its stream writer (the outbox). Times are whole
 * seconds on the server's clock; `datetime.now()` becomes a `now` argument.
 */
module Sessions {

  datatype Option<T> = None | Some(value: T)

  /** The observable state of one session, as a value. */
  datatype SessionView = SessionView(
    nickname: string,
    complaintCount: int,
    bannedTime: Option<int>,
    firstMessage: Option<int>,
    messageCount: int,
    outbox: seq<string>)

  const SecondsPerDay: int := 86400
  /** `ban_time` clears the complaints after 240 minutes. */
  const BanWindow: int := 240 * 60
  /** `messaging_time` clears the message count after 60 minutes. */
  const MessageWindow: int := 60 * 60

  /**
   * `timedelta.seconds` of a time difference: Python normalises a timedelta
   * so that its seconds part lies in [0, 86400) and the days part absorbs
   * the rest, so this is the elapsed time within the last day only.
   */
  function DaySeconds(elapsed: int): (r: int)
    ensures 0 <= r < SecondsPerDay
    ensures (elapsed - r) % SecondsPerDay == 0
  {
    elapsed % SecondsPerDay
  }

  /**
   * True when `since` is set and `(now - since).seconds / 60 >= window / 60`;
   * `window` is a whole number of minutes, so comparing seconds is exact.
   */
  predicate WindowPassed(since: Option<int>, now: int, window: int)
  {
    since.Some? && DaySeconds(now - since.value) >= window
  }

  /** A fresh session: nickname from the peer address, counters at zero, nothing written. */
  function Initial(peer: string): (v: SessionView)
  {
    SessionView(peer, 0, None, None, 0, [])
  }

  /** `send_message`: one more write on this session's writer. */
  function Deliver(v: SessionView, message: string): (r: SessionView)
  {
    v.(outbox := v.outbox + [message])
  }

  /** `ban_time` at time `now`. */
  function AfterBanTime(v: SessionView, now: int): (r: SessionView)
  {
    if WindowPassed(v.bannedTime, now, BanWindow) then v.(complaintCount := 0) else v
  }

  /** `messaging_time` at time `now`. */
  function AfterMessagingTime(v: SessionView, now: int): (r: SessionView)
  {
    if WindowPassed(v.firstMessage, now, MessageWindow) then v.(messageCount := 0) else v
  }

  /**
   * `ban_time` only ever clears the complaint count, and clears it exactly
   * when a ban time is set and its window has passed within the day.
   */
  lemma BanTimeEffect(v: SessionView, now: int)
    ensures AfterBanTime(v, now) == v.(complaintCount := AfterBanTime(v, now).complaintCount)
    ensures v.bannedTime.None? ==> AfterBanTime(v, now) == v
    ensures v.bannedTime.Some? ==>
      (AfterBanTime(v, now).complaintCount ==
        if (now - v.bannedTime.value) % 86400 >= 14400 then 0 else v.complaintCount)
  {
  }

  /**
   * `messaging_time` only ever clears the message count, and clears it
   * exactly when a first-message time is set and an hour has passed within the day.
   */
  lemma MessagingTimeEffect(v: SessionView, now: int)
    ensures AfterMessagingTime(v, now) == v.(messageCount := AfterMessagingTime(v, now).messageCount)
    ensures v.firstMessage.None? ==> AfterMessagingTime(v, now) == v
    ensures v.firstMessage.Some? ==>
      (AfterMessagingTime(v, now).messageCount ==
        if (now - v.firstMessage.value) % 86400 >= 3600 then 0 else v.messageCount)
  {
  }

  /** For a fixed `now`, applying `ban_time` twice is applying it once. */
  lemma BanTimeIdempotent(v: SessionView, now: int)
    ensures AfterBanTime(AfterBanTime(v, now), now) == AfterBanTime(v, now)
  {
  }

  /** For a fixed `now`, applying `messaging_time` twice is applying it once. */
  lemma MessagingTimeIdempotent(v: SessionView, now: int)
    ensures AfterMessagingTime(AfterMessagingTime(v, now), now) == AfterMessagingTime(v, now)
  {
  }

  /** The two reset rules touch different fields, so their order does not matter. */
  lemma ResetsCommute(v: SessionView, now: int)
    ensures AfterBanTime(AfterMessagingTime(v, now), now) == AfterMessagingTime(AfterBanTime(v, now), now)
  {
  }

  /**
   * Because only the seconds within the day are compared, whether a reset
   * window has passed repeats every 24 hours: it is the same at `now` and
   * at `now` plus any whole number of days.
   */
  lemma WindowPassedPeriodic(since: int, now: int, days: int, window: int)
    ensures WindowPassed(Some(since), now + days * SecondsPerDay, window) == WindowPassed(Some(since), now, window)
  {
  }

  /**
   * A ban set exactly one day ago is not lifted, although far more than
   * 240 minutes have gone by; at 240 minutes it is.
   */
  lemma BanKeptAfterWholeDay(v: SessionView, banned: int)
    requires v.bannedTime == Some(banned)
    ensures AfterBanTime(v, banned + SecondsPerDay) == v
    ensures AfterBanTime(v, banned + BanWindow).complaintCount == 0
  {
  }

  /** A session created for one accepted connection. */
  class ClientModel {
    var nickname: string
    var complaintCount: int
    var bannedTime: Option<int>
    var firstMessage: Option<int>
    var messageCount: int
    /** Everything written to this session's stream writer, oldest first. */
    var outbox: seq<string>

    function View(): (v: SessionView)
      reads this
    {
      SessionView(nickname, complaintCount, bannedTime, firstMessage, messageCount, outbox)
    }

    /** `peer` is the string form of the connection's peer address. */
    constructor (peer: string)
      ensures View() == Initial(peer)
      ensures nickname == peer && outbox == []
      ensures complaintCount == 0 && messageCount == 0
      ensures bannedTime.None? && firstMessage.None?
    {
      nickname := peer;
      complaintCount := 0;
      bannedTime := None;
      firstMessage := None;
      messageCount := 0;
      outbox := [];
    }

    method SendMessage(message: string)
      modifies this`outbox
      ensures outbox == old(outbox) + [message]
      ensures View() == Deliver(old(View()), message)
    {
      outbox := outbox + [message];
    }

    method BanTime(now: int)
      modifies this`complaintCount
      ensures View() == AfterBanTime(old(View()), now)
      ensures old(bannedTime).None? ==> complaintCount == old(complaintCount)
      ensures old(bannedTime).Some? ==>
        (complaintCount == if DaySeconds(now - old(bannedTime).value) >= BanWindow then 0 else old(complaintCount))
    {
      if bannedTime.Some? {
        var timeLeft := DaySeconds(now - bannedTime.value);
        if timeLeft >= BanWindow {
          complaintCount := 0;
        }
      }
    }

    method MessagingTime(now: int)
      modifies this`messageCount
      ensures View() == AfterMessagingTime(old(View()), now)
      ensures old(firstMessage).None? ==> messageCount == old(messageCount)
      ensures old(firstMessage).Some? ==>
        (messageCount == if DaySeconds(now - old(firstMessage).value) >= MessageWindow then 0 else old(messageCount))
    {
      if firstMessage.Some? {
        var timeLeft := DaySeconds(now - firstMessage.value);
        if timeLeft >= MessageWindow {
          messageCount := 0;
        }
      }
    }
  }
}
