/**
 * The records the clients keep for an election and its candidates. Fields
 * that may be absent are optional; numbers are whole numbers (seconds for
 * times).
 */
module ElectionTypes {
  import opened Wrappers

  datatype Candidate = Candidate(id: int, name: string, image: string, votes: Option<int>)

  /** An election as listed on the clients; `totalVotes` is only filled in
      by the entry added right after a creation. */
  datatype Election = Election(
    id: int,
    title: string,
    candidates: seq<Candidate>,
    address: Option<string>,
    ended: Option<bool>,
    startTime: Option<int>,
    endTime: Option<int>,
    allowedVoters: Option<seq<string>>,
    totalVotes: Option<int>)

  /** A proposal and its tally as the clients receive them. */
  datatype VoteItem = VoteItem(name: string, votes: int)

  /** The picture shown for every candidate. */
  const PLACEHOLDER_IMAGE: string := "/candidate-placeholder.jpg"
}
