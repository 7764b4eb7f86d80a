/**
 * The host's card for one of their elections: its status chip, its time
 * line, whether it offers to end the election, and the total of the votes
 * it was given.
 */
module HostCard {
  import opened Wrappers
  import opened ElectionTypes
  import opened CardStatus

  /** The host card's time line: an upcoming election "Starts soon". */
  function TimeText(e: Election, now: int): (t: string)
    ensures t == "Voting closed" <==> StatusOf(e, now) == Ended
    ensures StatusOf(e, now) == Upcoming ==> t == "Starts soon"
  {
    RemainingText(RemainingOf(e.ended == Some(true), ClockOf(e, now)), "Starts soon")
  }

  /** The End Election button: offered when the election is neither flagged
      as ended nor past its end, which is the same as its status not being
      ended. */
  predicate ShowEndButton(e: Election, now: int)
    ensures ShowEndButton(e, now) <==> StatusOf(e, now) != Ended
  {
    e.ended != Some(true) && StatusOf(e, now) != Ended
  }

  /** Sum of the votes of the vote data, added up left to right; with no
      negative count, the total is at least every single count. */
  function TotalVotes(voteData: seq<VoteItem>): (r: int)
    ensures (forall i :: 0 <= i < |voteData| ==> voteData[i].votes >= 0) ==>
              r >= 0 && forall i :: 0 <= i < |voteData| ==> voteData[i].votes <= r
  {
    if voteData == [] then 0 else TotalVotes(voteData[..|voteData| - 1]) + voteData[|voteData| - 1].votes
  }
}
