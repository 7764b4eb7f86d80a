/**
 * The status of an election as both election cards (the host's card and
 * the voter's card) work it out from the clock, and the line of text that
 * tells how much time is left. Times are whole seconds.
 */
module CardStatus {
  import opened Wrappers
  import opened JsString
  import opened ElectionTypes

  /** The four statuses a card can show. */
  datatype Status = Active | Ending | Ended | Upcoming {
    /** The chip label of the status. */
    function Label(): (s: string)
      ensures s != []
    {
      match this
      case Active => "Active"
      case Ending => "Ending Soon"
      case Ended => "Ended"
      case Upcoming => "Upcoming"
    }
  }

  /** Length of the window in which an election counts as ending soon. */
  const ENDING_WINDOW: int := 3600 * 3
  /** The end assumed for an election whose end time is missing. */
  const DEFAULT_LENGTH: int := 86400

  /** `x || d` on an optional number: missing and zero both give `d`. */
  function OrDefault(x: Option<int>, d: int): (r: int)
    ensures x.None? || x.value == 0 ==> r == d
    ensures x.Some? && x.value != 0 ==> r == x.value
  {
    if x.Some? && x.value != 0 then x.value else d
  }

  /** The times a card works with: start, end and the seconds remaining. */
  datatype Clock = Clock(now: int, startTime: int, endTime: int) {
    function Remaining(): int {
      endTime - now
    }
  }

  /** The card's reading of an election at time `now`: a missing or zero end
      is one day from now, a missing or zero start is now. */
  function ClockOf(e: Election, now: int): (c: Clock)
    ensures c.now == now
    ensures c.endTime == (if e.endTime.Some? && e.endTime.value != 0 then e.endTime.value else now + DEFAULT_LENGTH)
    ensures c.startTime == (if e.startTime.Some? && e.startTime.value != 0 then e.startTime.value else now)
  {
    Clock(now, OrDefault(e.startTime, now), OrDefault(e.endTime, now + DEFAULT_LENGTH))
  }

  /** The status rules, first match wins: the ended flag, then a negative
      remaining time, then less than three hours remaining, then a start in
      the future; anything else is active. */
  function Classify(ended: bool, c: Clock): (s: Status)
    ensures s == Ended <==> ended || c.Remaining() < 0
    ensures s == Ending <==> !ended && 0 <= c.Remaining() < ENDING_WINDOW
    ensures s == Upcoming <==> !ended && c.Remaining() >= ENDING_WINDOW && c.now < c.startTime
    ensures s == Active <==> !ended && c.Remaining() >= ENDING_WINDOW && c.startTime <= c.now
  {
    if ended then Ended
    else if c.Remaining() < 0 then Ended
    else if c.Remaining() < ENDING_WINDOW then Ending
    else if c.now < c.startTime then Upcoming
    else Active
  }

  /** The status of a listed election at time `now`; a flagged election is
      ended whatever its times say. */
  function StatusOf(e: Election, now: int): (s: Status)
    ensures e.ended == Some(true) ==> s == Ended
    ensures s == Ended <==> e.ended == Some(true) || ClockOf(e, now).Remaining() < 0
  {
    Classify(e.ended == Some(true), ClockOf(e, now))
  }

  /** An unflagged election with neither time set reads as active: it
      started now and has a full day left. */
  lemma MissingTimesActive(e: Election, now: int)
    requires e.ended != Some(true)
    requires e.startTime.None? || e.startTime == Some(0)
    requires e.endTime.None? || e.endTime == Some(0)
    ensures StatusOf(e, now) == Active
  {
    assert ClockOf(e, now) == Clock(now, now, now + DEFAULT_LENGTH);
  }

  /** The time line of a card, before rendering. */
  datatype Remaining = Closed | NotYet | Days(days: nat) | HoursMinutes(hours: nat, minutes: nat)

  /** How much time is left as a card states it: closed when ended, not yet
      when upcoming; otherwise whole hours and minutes, or whole days once
      more than 24 hours remain. */
  function RemainingOf(ended: bool, c: Clock): (r: Remaining)
    ensures r.Closed? <==> Classify(ended, c) == Ended
    ensures r.NotYet? <==> Classify(ended, c) == Upcoming
    ensures r.Days? ==> r.days >= 1 && r.days == c.Remaining() / 86400 && c.Remaining() >= 25 * 3600
    ensures r.HoursMinutes? ==>
      && r.hours <= 24 && r.minutes < 60
      && 3600 * r.hours + 60 * r.minutes <= c.Remaining() < 3600 * r.hours + 60 * r.minutes + 60
  {
    var s := Classify(ended, c);
    if s == Ended then Closed
    else if s == Upcoming then NotYet
    else
      var rem := c.Remaining();
      var hours := rem / 3600;
      var minutes := (rem % 3600) / 60;
      if hours > 24 then Days(hours / 24) else HoursMinutes(hours, minutes)
  }

  /** `${n} unit`, with an "s" unless `n` is 1. */
  function Plural(n: nat, unit: string): string {
    NatToString(n) + " " + unit + (if n != 1 then "s" else "")
  }

  /** The rendered time line; `startsText` is what an upcoming election
      shows. The closed text is told apart from every count of time left. */
  function RemainingText(r: Remaining, startsText: string): (t: string)
    ensures r.Closed? ==> t == "Voting closed"
    ensures r.NotYet? ==> t == startsText
    ensures r.Days? || r.HoursMinutes? ==> |t| >= 9 && t[|t| - 9..] == "remaining" && t != "Voting closed"
  {
    match r
    case Closed => "Voting closed"
    case NotYet => startsText
    case Days(d) => Plural(d, "day") + " remaining"
    case HoursMinutes(h, m) => NatToString(h) + "h " + NatToString(m) + "m remaining"
  }
}
