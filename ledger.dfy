/**
 * One election: its proposals and their tallies, the fixed set of accounts
 * allowed to vote, who has voted, the voting window and the `ended` flag.
 * Every state-changing call names its caller (the transaction sender) and,
 * where the window matters, the current block time.
 */
module Ledger {
  import opened Wrappers

  /** Accounts and contract addresses are 160-bit values. */
  type Address = a: nat | a < 0x1_0000_0000_0000_0000_0000_0000_0000_0000_0000_0000

  /** A proposal and the number of votes it has received. */
  datatype Proposal = Proposal(name: string, votes: nat)

  /** The answers of `canVote`, in the order of their status codes 0..3. */
  datatype VoteStatus = CanVote | NotRegistered | AlreadyVoted | InvalidProposal {
    /** The status code the contract returns. */
    function Code(): (c: nat)
      ensures c < 4
      ensures c == 0 <==> this == CanVote
    {
      match this
      case CanVote => 0
      case NotRegistered => 1
      case AlreadyVoted => 2
      case InvalidProposal => 3
    }
  }

  /** The one revert message of a rejected `vote`, whatever the reason. */
  const VOTE_ERROR: string := "Unable to vote"

  /** Why `endVote` was rejected. */
  datatype EndError = AccessDenied | AlreadyEnded

  /** Why an election could not be constructed. */
  datatype CreationError = NoProposals | DuplicateProposal | NoVoters | EmptyWindow

  /** Sum of the tallies. */
  function TotalVotes(ps: seq<Proposal>): nat {
    if ps == [] then 0 else ps[0].votes + TotalVotes(ps[1..])
  }

  function Names(ps: seq<Proposal>): (r: seq<string>)
    ensures |r| == |ps| && forall i :: 0 <= i < |ps| ==> r[i] == ps[i].name
  {
    seq(|ps|, i requires 0 <= i < |ps| => ps[i].name)
  }

  predicate Distinct(names: seq<string>) {
    forall i, j :: 0 <= i < j < |names| ==> names[i] != names[j]
  }

  /** The index of the proposal called `name`, the first one if several are. */
  function Find(ps: seq<Proposal>, name: string): (r: Option<nat>)
    ensures r.Some? ==> r.value < |ps| && ps[r.value].name == name
    ensures r.Some? ==> forall j :: 0 <= j < r.value ==> ps[j].name != name
    ensures r.None? <==> forall j :: 0 <= j < |ps| ==> ps[j].name != name
  {
    if ps == [] then None
    else if ps[0].name == name then Some(0)
    else match Find(ps[1..], name)
      case None => None
      case Some(k) => Some(k + 1)
  }

  /** The proposals with one more vote for the one at index `i`. */
  function AddVote(ps: seq<Proposal>, i: nat): (r: seq<Proposal>)
    requires i < |ps|
    ensures |r| == |ps| && Names(r) == Names(ps)
    ensures forall j :: 0 <= j < |ps| ==> r[j].name == ps[j].name
    ensures r[i].votes == ps[i].votes + 1
    ensures forall j :: 0 <= j < |ps| && j != i ==> r[j] == ps[j]
  {
    ps[i := Proposal(ps[i].name, ps[i].votes + 1)]
  }

  /** The tally of the proposal called `name`, if there is one. */
  function VotesOf(ps: seq<Proposal>, name: string): (r: Option<nat>)
    ensures r.None? <==> forall j :: 0 <= j < |ps| ==> ps[j].name != name
    ensures r.Some? ==> exists i :: 0 <= i < |ps| && ps[i] == Proposal(name, r.value)
  {
    match Find(ps, name)
    case None => None
    case Some(i) => Some(ps[i].votes)
  }

  /** A vote for the proposal called `name` adds one to its tally and
      leaves every other name's tally as it was. */
  lemma {:induction false} AddVoteTally(ps: seq<Proposal>, i: nat, name: string, n: string)
    requires i < |ps| && Find(ps, name) == Some(i)
    ensures VotesOf(AddVote(ps, i), n) == if n == name then Some(VotesOf(ps, n).value + 1) else VotesOf(ps, n)
  {
    var r := AddVote(ps, i);
    FindByNames(r, ps, n);
    var f := Find(ps, n);
    if f.Some? {
      var k := f.value;
      assert VotesOf(r, n) == Some(r[k].votes) && VotesOf(ps, n) == Some(ps[k].votes);
      if n == name {
        assert k == i;
      } else {
        assert ps[k].name != ps[i].name;
        assert r[k] == ps[k];
      }
    }
  }

  /** The accounts marked as having voted in a vote record. */
  ghost function VotersOf(voted: map<Address, bool>): set<Address> {
    set a | a in voted && voted[a]
  }

  /** Marking an account that has not voted adds exactly that account. */
  lemma MarkVoted(voted: map<Address, bool>, caller: Address)
    requires caller in voted && !voted[caller]
    ensures VotersOf(voted[caller := true]) == VotersOf(voted) + {caller}
    ensures |VotersOf(voted[caller := true])| == |VotersOf(voted)| + 1
  {
    assert VotersOf(voted[caller := true]) == VotersOf(voted) + {caller};
  }

  /** A vote adds exactly one to the total. */
  lemma {:induction false} AddVoteTotal(ps: seq<Proposal>, i: nat)
    requires i < |ps|
    ensures TotalVotes(AddVote(ps, i)) == TotalVotes(ps) + 1
  {
    var r := AddVote(ps, i);
    if i == 0 {
      assert r[1..] == ps[1..];
    } else {
      AddVoteTotal(ps[1..], i - 1);
      assert r[1..] == AddVote(ps[1..], i - 1);
    }
  }

  /** Construction checks of an election, first failure first: at least one
      proposal, no proposal named twice, at least one voter, a window that
      starts before it ends. */
  function CheckElection(names: seq<string>, voters: seq<Address>, startTime: int, endTime: int)
    : (r: Option<CreationError>)
    ensures r.None? <==> |names| > 0 && Distinct(names) && |voters| > 0 && startTime < endTime
  {
    if |names| == 0 then Some(NoProposals)
    else if !Distinct(names) then Some(DuplicateProposal)
    else if |voters| == 0 then Some(NoVoters)
    else if startTime >= endTime then Some(EmptyWindow)
    else None
  }

  class ElectionLedger {
    /** Where the contract lives on the chain. */
    const address: Address
    /** The account that created the election. */
    const owner: Address
    const proposalNames: seq<string>
    const allowedVoters: seq<Address>
    const startTime: int
    const endTime: int

    var proposals: seq<Proposal>
    /** Whether each allowed voter has voted. */
    var voted: map<Address, bool>
    var ended: bool

    /** The accounts that have voted. */
    ghost function Voters(): set<Address>
      reads this
    {
      VotersOf(voted)
    }

    /** The ledger's invariant: names fixed and distinct, the vote record
        covers exactly the allowed voters, and the tallies add up to the
        number of accounts that have voted. */
    ghost predicate Valid()
      reads this
    {
      && CheckElection(proposalNames, allowedVoters, startTime, endTime).None?
      && Names(proposals) == proposalNames
      && (forall a :: a in voted <==> a in allowedVoters)
      && TotalVotes(proposals) == |Voters()|
    }

    constructor (address: Address, owner: Address, names: seq<string>, voters: seq<Address>,
                 startTime: int, endTime: int)
      requires CheckElection(names, voters, startTime, endTime).None?
      ensures Valid()
      ensures this.address == address && this.owner == owner
      ensures proposalNames == names && allowedVoters == voters
      ensures this.startTime == startTime && this.endTime == endTime
      ensures forall i :: 0 <= i < |proposals| ==> proposals[i].votes == 0
      ensures Voters() == {} && !ended
    {
      this.address := address;
      this.owner := owner;
      proposalNames := names;
      allowedVoters := voters;
      this.startTime := startTime;
      this.endTime := endTime;
      proposals := seq(|names|, i requires 0 <= i < |names| => Proposal(names[i], 0));
      voted := map a | a in voters :: false;
      ended := false;
      new;
      assert TotalVotes(proposals) == 0 by {
        ZeroTotal(proposals);
      }
      assert Voters() == {};
    }

    /** `voterRegistry(account)`. */
    predicate IsRegistered(a: Address)
      reads this
    {
      a in allowedVoters
    }

    /** `hasVoted(account)`. */
    predicate HasVoted(a: Address)
      reads this
    {
      a in voted && voted[a]
    }

    /** `getProposalVotes(name)`: the tally of the named proposal, or
        nothing (the call reverts) for a name that is no proposal. */
    function ProposalVotes(name: string): (r: Option<nat>)
      reads this
      requires Valid()
      ensures r.None? <==> name !in proposalNames
      ensures r.Some? ==> exists i :: 0 <= i < |proposals| && proposals[i] == Proposal(name, r.value)
    {
      VotesOf(proposals, name)
    }

    /** `canVote(name)` for the sender `caller`, checked in this order:
        not registered (1), already voted (2), no such proposal (3),
        otherwise allowed (0). The voting window is not part of it. */
    function CanVote(caller: Address, name: string): (s: VoteStatus)
      reads this
      requires Valid()
      ensures s == NotRegistered <==> !IsRegistered(caller)
      ensures s == AlreadyVoted <==> IsRegistered(caller) && HasVoted(caller)
      ensures s == InvalidProposal <==> IsRegistered(caller) && !HasVoted(caller) && name !in proposalNames
      ensures s.CanVote? <==> IsRegistered(caller) && !HasVoted(caller) && name in proposalNames
    {
      if !IsRegistered(caller) then NotRegistered
      else if HasVoted(caller) then AlreadyVoted
      else if Find(proposals, name).None? then InvalidProposal
      else VoteStatus.CanVote
    }

    /** The election accepts votes at time `now`: inside the window, both
        ends included, and not ended. */
    predicate IsOpen(now: int)
      reads this
    {
      startTime <= now <= endTime && !ended
    }

    /** `vote(name)` sent by `caller` at time `now`: allowed exactly when
        `canVote` answers 0 and the election is open; it then adds one vote
        to the named proposal and records that the caller has voted, and
        otherwise reverts with the one message "Unable to vote", changing
        nothing. */
    method Vote(caller: Address, name: string, now: int) returns (r: Outcome<string>)
      requires Valid()
      modifies this
      ensures Valid()
      ensures r.Pass? <==> old(CanVote(caller, name)).CanVote? && old(IsOpen(now))
      ensures r.Fail? ==> r.error == VOTE_ERROR
      ensures r.Fail? ==> proposals == old(proposals) && voted == old(voted)
      ensures r.Pass? ==> Find(old(proposals), name).Some?
                          && proposals == AddVote(old(proposals), Find(old(proposals), name).value)
                          && voted == old(voted)[caller := true]
                          && Voters() == old(Voters()) + {caller}
      ensures forall a :: HasVoted(a) <==> old(HasVoted(a)) || (r.Pass? && a == caller)
      ensures ended == old(ended)
    {
      if !CanVote(caller, name).CanVote? || !IsOpen(now) {
        return Fail(VOTE_ERROR);
      }
      var i := Find(proposals, name).value;
      AddVoteTotal(proposals, i);
      MarkVoted(voted, caller);
      proposals := AddVote(proposals, i);
      voted := voted[caller := true];
      r := Pass;
    }

    /** `endVote()` sent by `caller`: only the owner may end the election,
        and only once; ending is permanent. */
    method EndVote(caller: Address) returns (r: Outcome<EndError>)
      requires Valid()
      modifies this`ended
      ensures Valid()
      ensures r == (if caller != owner then Fail(AccessDenied)
                    else if old(ended) then Fail(AlreadyEnded)
                    else Pass)
      ensures ended == (old(ended) || r.Pass?)
    {
      if caller != owner {
        return Fail(AccessDenied);
      }
      if ended {
        return Fail(AlreadyEnded);
      }
      ended := true;
      r := Pass;
    }
  }

  /** Lookup by name depends on the names alone, not on the tallies. */
  lemma {:induction false} FindByNames(a: seq<Proposal>, b: seq<Proposal>, name: string)
    requires |a| == |b| && forall j :: 0 <= j < |a| ==> a[j].name == b[j].name
    ensures Find(a, name) == Find(b, name)
  {
    if a != [] {
      FindByNames(a[1..], b[1..], name);
    }
  }

  lemma {:induction false} ZeroTotal(ps: seq<Proposal>)
    requires forall i :: 0 <= i < |ps| ==> ps[i].votes == 0
    ensures TotalVotes(ps) == 0
  {
    if ps != [] {
      ZeroTotal(ps[1..]);
    }
  }
}
