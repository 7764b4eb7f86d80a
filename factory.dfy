/**
 * The election factory: creates ledgers on request and keeps them in an
 * append-only list, so that clients can enumerate every election by index
 * without having seen any creation notification.
 */
module Factory {
  import opened Wrappers
  import opened Ledger

  /** What the factory records about each election it created. */
  datatype Entry = Entry(ledger: ElectionLedger, title: string, startTime: int, endTime: int)

  /** `getElectionDetails(i)` as the clients read it; `ended` and the voter
      list are read live from the ledger. */
  datatype Details = Details(electionAddress: Address, title: string, startTime: int, endTime: int,
                             ended: bool, allowedVoters: seq<Address>)

  /** The notification `ElectionCreated(address, title, startTime, endTime)`. */
  datatype Created = Created(electionAddress: Address, title: string, startTime: int, endTime: int)

  /** Everything a client can learn about election `i` by enumeration: the
      factory's details plus the ledger's `owner()` and `getAllProposals()`. */
  datatype ElectionView = ElectionView(details: Details, owner: Address, proposals: seq<Proposal>)

  class Registry {
    /** The factory's deployer; informational only, it does not gate creation. */
    const owner: Address
    var entries: seq<Entry>

    ghost function Ledgers(): set<ElectionLedger>
      reads this
    {
      set i | 0 <= i < |entries| :: entries[i].ledger
    }

    /** Each entry repeats its ledger's window. */
    ghost predicate Valid()
      reads this
    {
      forall i :: 0 <= i < |entries| ==>
        entries[i].startTime == entries[i].ledger.startTime && entries[i].endTime == entries[i].ledger.endTime
    }

    constructor (owner: Address)
      ensures Valid() && this.owner == owner && entries == []
    {
      this.owner := owner;
      entries := [];
    }

    /** `getElectionCount()`. */
    function ElectionCount(): nat
      reads this
    {
      |entries|
    }

    /** `getAllElections()`: the ledger addresses in creation order. */
    function AllElections(): (r: seq<Address>)
      reads this
      ensures |r| == ElectionCount()
      ensures forall i :: 0 <= i < |r| ==> r[i] == entries[i].ledger.address
    {
      var es := entries;
      seq(|es|, i requires 0 <= i < |es| => es[i].ledger.address as Address)
    }

    /** `getElectionDetails(i)`: defined exactly for the indices
        0..count-1; any other index reverts. */
    function ElectionDetails(i: int): (r: Option<Details>)
      reads this, Ledgers()
      ensures r.Some? <==> 0 <= i < ElectionCount()
      ensures r.Some? ==>
        && r.value.electionAddress == AllElections()[i]
        && r.value.title == entries[i].title
        && r.value.startTime == entries[i].startTime && r.value.endTime == entries[i].endTime
        && r.value.ended == entries[i].ledger.ended
        && r.value.allowedVoters == entries[i].ledger.allowedVoters
    {
      if 0 <= i < |entries| then
        var e := entries[i];
        Some(Details(e.ledger.address, e.title, e.startTime, e.endTime, e.ledger.ended, e.ledger.allowedVoters))
      else None
    }

    /** The whole registry as a client enumerates it, index by index. */
    function Views(): (r: seq<ElectionView>)
      reads this, Ledgers()
      ensures |r| == ElectionCount()
      ensures forall i :: 0 <= i < |r| ==> Some(r[i].details) == ElectionDetails(i)
      ensures forall i :: 0 <= i < |r| ==>
                r[i].owner == entries[i].ledger.owner && r[i].proposals == entries[i].ledger.proposals
    {
      seq(|entries|, i requires 0 <= i < |entries| reads this, Ledgers() =>
        ElectionView(ElectionDetails(i).value, entries[i].ledger.owner, entries[i].ledger.proposals))
    }

    /** `createElection(title, proposals, voters, startTime, endTime)` sent by
        `caller`; the chain places the new ledger at `at`. A rejected
        creation appends nothing; an accepted one appends exactly one entry,
        whose ledger is new, owned by the caller and not yet voted on, and
        which becomes the latest index. */
    method CreateElection(title: string, names: seq<string>, voters: seq<Address>,
                          startTime: int, endTime: int, caller: Address, at: Address)
      returns (r: Result<Created, CreationError>)
      requires Valid()
      modifies this
      ensures Valid()
      ensures r.Err? <==> CheckElection(names, voters, startTime, endTime).Some?
      ensures r.Err? ==> r.error == CheckElection(names, voters, startTime, endTime).value
                         && entries == old(entries)
      ensures r.Ok? ==> r.value == Created(at, title, startTime, endTime)
      ensures r.Ok? ==>
        && |entries| == old(|entries|) + 1
        && entries[..old(|entries|)] == old(entries)
        && entries[|entries| - 1].title == title
        && entries[|entries| - 1].startTime == startTime && entries[|entries| - 1].endTime == endTime
        && var l := entries[|entries| - 1].ledger;
           && fresh(l) && l.Valid()
           && l.address == at && l.owner == caller
           && l.proposalNames == names && l.allowedVoters == voters
           && l.Voters() == {} && !l.ended
           && ElectionDetails(ElectionCount() - 1) == Some(Details(at, title, startTime, endTime, false, voters))
    {
      var err := CheckElection(names, voters, startTime, endTime);
      if err.Some? {
        return Err(err.value);
      }
      var l := new ElectionLedger(at, caller, names, voters, startTime, endTime);
      entries := entries + [Entry(l, title, startTime, endTime)];
      r := Ok(Created(at, title, startTime, endTime));
    }
  }
}
