/**
 * The voter's card for an election: its status chip, its time line and
 * which of its actions it offers.
 */
module ElectionCard {
  import opened Wrappers
  import opened ElectionTypes
  import opened CardStatus

  /** Ended by the flag or by the clock. */
  predicate IsEnded(e: Election, now: int)
    ensures IsEnded(e, now) <==> e.ended == Some(true) || ClockOf(e, now).Remaining() < 0
  {
    StatusOf(e, now) == Ended
  }

  /** The voter card's time line: an upcoming election shows "Starts "
      followed by its start time as the browser writes it (`startText`). */
  function TimeText(e: Election, now: int, startText: string): (t: string)
    ensures t == "Voting closed" <==> IsEnded(e, now)
    ensures StatusOf(e, now) == Upcoming ==> t == "Starts " + startText
  {
    var starts := "Starts " + startText;
    assert starts[0] != "Voting closed"[0];
    RemainingText(RemainingOf(e.ended == Some(true), ClockOf(e, now)), starts)
  }

  /** Clicking the card selects the election only when it is not ended, the
      voter has not voted in it and it is not marked as not started; so a
      selectable election is unflagged and not past its end. */
  predicate CanSelect(e: Election, now: int, alreadyVoted: bool, notStarted: bool)
    ensures CanSelect(e, now, alreadyVoted, notStarted) ==>
              e.ended != Some(true) && ClockOf(e, now).Remaining() >= 0 && !alreadyVoted && !notStarted
  {
    !IsEnded(e, now) && !alreadyVoted && !notStarted
  }

  /** The View Results button is shown exactly for ended elections: flagged,
      or past their end. */
  predicate ShowViewResults(e: Election, now: int)
    ensures ShowViewResults(e, now) <==> e.ended == Some(true) || ClockOf(e, now).Remaining() < 0
  {
    IsEnded(e, now)
  }

  /** The chip reads "Not Started" whenever the card is told so, and the
      status label otherwise. */
  function ChipLabel(e: Election, now: int, notStarted: bool): (s: string)
    ensures notStarted ==> s == "Not Started"
    ensures !notStarted ==> s == StatusOf(e, now).Label()
  {
    if notStarted then "Not Started" else StatusOf(e, now).Label()
  }
}
