/**
 * The two test suites of contract/test/Election.ts replayed against the
 * ledger: each method deploys a fresh ledger the way the suite does, sends
 * the same calls from the same accounts in the same order, and returns what
 * the suite observes; the postconditions are the suite's expectations. A
 * third sequence, not in the suites, exercises `endVote` on the same
 * deployment.
 */
module LedgerScenarios {
  import opened Wrappers
  import opened Ledger

  /** Hardhat's first local account: the deployer and a listed voter. */
  const ACCOUNT_0: Address := 0xf39Fd6e51aad88F6F4ce6aB8827279cffFb92266
  /** Hardhat's third local account: not on the voter list. */
  const ACCOUNT_2: Address := 0x3C44CdDdB6a900fa2b585dd299e03d12FA4293BC
  /** Hardhat's twentieth local account: a listed voter. */
  const ACCOUNT_19: Address := 0x8626f6940E2eb28930eFb4CeF49B2d1F2C9C1199
  const MARCEL: Address := 0xC5c79779b78FB531Be4C8f4Aa87487361434Caa0
  const JIA_HONG: Address := 0xAc1891E2b8E8DD1C2bcd9A61811e1032FD3FF17e

  const ONE_DAY: int := 24 * 60 * 60

  /** The suites' deployment: three proposals, four voters, a window of one
      day starting at the deployment time, sent by account 0. */
  method Deploy(now: int, at: Address) returns (l: ElectionLedger)
    ensures fresh(l) && l.Valid()
    ensures l.owner == ACCOUNT_0 && l.startTime == now && l.endTime == now + ONE_DAY
    ensures l.proposals == [Proposal("Proposal A", 0), Proposal("Proposal B", 0), Proposal("Proposal C", 0)]
    ensures l.allowedVoters == [ACCOUNT_0, ACCOUNT_19, MARCEL, JIA_HONG]
    ensures forall a :: !l.HasVoted(a)
    ensures !l.ended
  {
    var names := ["Proposal A", "Proposal B", "Proposal C"];
    var voters := [ACCOUNT_0, ACCOUNT_19, MARCEL, JIA_HONG];
    l := new ElectionLedger(at, ACCOUNT_0, names, voters, now, now + ONE_DAY);
    assert Names(l.proposals) == names;
    forall a ensures !l.HasVoted(a) {
      assert a !in l.Voters();
    }
  }

  /** "Vote tests": a first vote is allowed (status 0) and succeeds; an
      unlisted account gets status 1 and is refused; a listed account naming
      an unknown proposal gets status 3 and is refused; account 19 may vote
      once (status 0) and is then refused with status 2. Every refusal
      carries the one message "Unable to vote". */
  method VoteTests(now: int, at: Address)
    returns (codes: seq<nat>, outcomes: seq<Outcome<string>>)
    ensures codes == [0, 1, 3, 0, 2]
    ensures outcomes == [Pass, Fail(VOTE_ERROR), Fail(VOTE_ERROR), Pass, Fail(VOTE_ERROR)]
  {
    var l := Deploy(now, at);
    var c0, o0 := VoteForA(l, ACCOUNT_0, now + 1, 0);

    var c1 := l.CanVote(ACCOUNT_2, "Proposal A").Code();
    var o1 := l.Vote(ACCOUNT_2, "Proposal A", now + 2);
    assert c1 == 1 && o1.Fail?;

    assert "asdasd" !in l.proposalNames && "asds" !in l.proposalNames;
    var c2 := l.CanVote(ACCOUNT_19, "asdasd").Code();
    var o2 := l.Vote(ACCOUNT_19, "asds", now + 3);
    assert c2 == 3 && o2.Fail?;

    var c3, o3 := VoteForA(l, ACCOUNT_19, now + 4, 1);

    var c4 := l.CanVote(ACCOUNT_19, "Proposal A").Code();
    var o4 := l.Vote(ACCOUNT_19, "Proposal A", now + 5);
    assert c4 == 2 && o4.Fail?;

    codes := [c0, c1, c2, c3, c4];
    outcomes := [o0, o1, o2, o3, o4];
  }

  /** "Election getters": right after deployment the election has not ended;
      after accounts 0 and 19 both vote for "Proposal A", the tallies read
      2, 0 and 0. */
  method GetterTests(now: int, at: Address)
    returns (endedAtStart: bool, codes: seq<nat>, tallies: seq<Option<nat>>)
    ensures !endedAtStart
    ensures codes == [0, 0]
    ensures tallies == [Some(2), Some(0), Some(0)]
  {
    var l := Deploy(now, at);
    endedAtStart := l.ended;
    var c0, o0 := VoteForA(l, ACCOUNT_0, now + 1, 0);
    var c1, o1 := VoteForA(l, ACCOUNT_19, now + 2, 1);
    codes := [c0, c1];
    assert "Proposal A"[9] != "Proposal B"[9];
    FindAt(l.proposals, 1, "Proposal B");
    assert "Proposal A"[9] != "Proposal C"[9] && "Proposal B"[9] != "Proposal C"[9];
    FindAt(l.proposals, 2, "Proposal C");
    tallies := [l.ProposalVotes("Proposal A"), l.ProposalVotes("Proposal B"), l.ProposalVotes("Proposal C")];
  }

  /** A listed voter who has not voted yet asks about, then votes for,
      "Proposal A" inside the window: allowed, and counted. */
  method VoteForA(l: ElectionLedger, voter: Address, now: int, a: nat) returns (code: nat, outcome: Outcome<string>)
    requires l.Valid() && !l.ended && l.startTime <= now <= l.endTime
    requires l.proposals == [Proposal("Proposal A", a), Proposal("Proposal B", 0), Proposal("Proposal C", 0)]
    requires voter in l.allowedVoters && !l.HasVoted(voter)
    modifies l
    ensures l.Valid() && !l.ended
    ensures l.proposals == [Proposal("Proposal A", a + 1), Proposal("Proposal B", 0), Proposal("Proposal C", 0)]
    ensures code == 0 && outcome == Pass
    ensures forall v :: l.HasVoted(v) <==> old(l.HasVoted(v)) || v == voter
  {
    assert Find(l.proposals, "Proposal A") == Some(0);
    code := l.CanVote(voter, "Proposal A").Code();
    outcome := l.Vote(voter, "Proposal A", now);
  }

  /** Where the first proposal named `name` sits. */
  lemma FindAt(ps: seq<Proposal>, i: nat, name: string)
    requires i < |ps| && ps[i].name == name
    requires forall j :: 0 <= j < i ==> ps[j].name != name
    ensures Find(ps, name) == Some(i)
  {
  }

  /** Ending: the owner ends the election once; a second attempt and any
      attempt by another account are refused; after ending, even a listed
      voter who has not voted is refused inside the window. */
  method EndTests(now: int, at: Address)
    returns (byStranger: Outcome<EndError>, byOwner: Outcome<EndError>, again: Outcome<EndError>,
             late: Outcome<string>, endedAfter: bool)
    ensures byStranger == Fail(AccessDenied) && byOwner == Pass && again == Fail(AlreadyEnded)
    ensures late == Fail(VOTE_ERROR) && endedAfter
  {
    var l := Deploy(now, at);
    byStranger := l.EndVote(ACCOUNT_19);
    byOwner := l.EndVote(ACCOUNT_0);
    again := l.EndVote(ACCOUNT_0);
    late := l.Vote(MARCEL, "Proposal B", now + 1);
    endedAfter := l.ended;
  }
}
