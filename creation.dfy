/**
 * Creating an election from a client, shared by both creation pages: the
 * request built from the form, its submission to the factory, and how the
 * new election's address is found afterwards.
 */
module Creation {
  import opened Wrappers
  import opened Ledger
  import opened Factory
  import opened AddressText

  /** What a form submits: a title, the proposal names and voter addresses
      as text, and the window in whole seconds. */
  datatype CreateRequest = CreateRequest(title: string, proposals: seq<string>, voters: seq<string>,
                                         startTime: int, endTime: int)

  /** Why a submission failed. */
  datatype SubmitError =
    | BadAddress          // a voter text is not an address; the call is never sent
    | Rejected(reason: CreationError)

  /** Every voter text read as an address, or nothing if one is not. */
  function ParseAll(texts: seq<string>): (r: Option<seq<Address>>)
    ensures r.Some? <==> forall i :: 0 <= i < |texts| ==> ParseAddress(texts[i]).Some?
    ensures r.Some? ==> |r.value| == |texts| && forall i :: 0 <= i < |texts| ==> Some(r.value[i]) == ParseAddress(texts[i])
  {
    if texts == [] then Some([])
    else match (ParseAddress(texts[0]), ParseAll(texts[1..]))
      case (Some(a), Some(rest)) => Some([a] + rest)
      case _ => None
  }

  /** A JavaScript numeric value: a BigInt, which is how every unsigned
      integer comes back from a contract call, or an ordinary Number. */
  datatype Numeric = BigInt(big: int) | Number(num: int)

  /** JavaScript `a - b`: two BigInts or two Numbers subtract; a BigInt
      mixed with a Number throws a TypeError. */
  function Minus(a: Numeric, b: Numeric): (r: Result<Numeric, string>)
    ensures r.Err? <==> a.BigInt? != b.BigInt?
    ensures a.BigInt? && b.BigInt? ==> r == Ok(BigInt(a.big - b.big))
    ensures a.Number? && b.Number? ==> r == Ok(Number(a.num - b.num))
  {
    match (a, b)
    case (BigInt(x), BigInt(y)) => Ok(BigInt(x - y))
    case (Number(x), Number(y)) => Ok(Number(x - y))
    case _ => Err("TypeError: Cannot mix BigInt and other types")
  }

  /** `getElectionDetails(index)` with an index JavaScript computed: a
      failed computation means the call is never made. */
  function DetailsAt(reg: Registry, index: Result<Numeric, string>): (r: Option<Details>)
    reads reg, reg.Ledgers()
    ensures index.Err? ==> r.None?
    ensures index == Ok(BigInt(reg.ElectionCount() - 1)) && reg.ElectionCount() > 0 ==>
              r.Some? && r.value.electionAddress == reg.AllElections()[reg.ElectionCount() - 1]
  {
    match index
    case Ok(BigInt(i)) => reg.ElectionDetails(i)
    case Ok(Number(i)) => reg.ElectionDetails(i)
    case Err(_) => None
  }

  /** The fallback when no creation notification was read: the details at
      `count - 1`, where `count` is the BigInt `getElectionCount()` returns
      and `1` is a Number. The subtraction throws, the error is swallowed,
      and no address is found, whatever the registry holds. */
  function LatestAddress(reg: Registry): (r: string)
    reads reg, reg.Ledgers()
    ensures r == []
  {
    AddressOf(DetailsAt(reg, Minus(BigInt(reg.ElectionCount()), Number(1))))
  }

  /** `details.electionAddress` as text, or nothing when the details could
      not be read. */
  function AddressOf(details: Option<Details>): (r: string)
    ensures details.None? ==> r == []
    ensures details.Some? ==> r == HexAddress(details.value.electionAddress)
  {
    match details
    case Some(d) => HexAddress(d.electionAddress)
    case None => []
  }

  /** The address a page reports after a creation: the one read from the
      notification when there is one, the fallback's otherwise. */
  function ResolveAddress(fromEvent: string, reg: Registry): (r: string)
    reads reg, reg.Ledgers()
    ensures fromEvent != [] ==> r == fromEvent
    ensures fromEvent == [] ==> r == LatestAddress(reg) == []
  {
    if fromEvent != [] then fromEvent else LatestAddress(reg)
  }

  /** A submission sent by `caller`, the new ledger landing at `at`.
      `eventRead` says whether the notification could be read back: when it
      was, the page has the new election's address; when it was not, the
      election is created all the same but the page is left with no address
      (empty text). A voter text that is not an address stops the call
      before it is sent, and a request the factory refuses changes nothing. */
  method Submit(reg: Registry, req: CreateRequest, caller: Address, at: Address, eventRead: bool)
    returns (r: Result<string, SubmitError>)
    requires reg.Valid()
    modifies reg
    ensures reg.Valid()
    ensures r.Err? ==> reg.entries == old(reg.entries)
    ensures ParseAll(req.voters).None? ==> r == Err(BadAddress)
    ensures ParseAll(req.voters).Some? ==>
      var check := CheckElection(req.proposals, ParseAll(req.voters).value, req.startTime, req.endTime);
      && (check.Some? ==> r == Err(Rejected(check.value)))
      && (check.None? ==> r == Ok(if eventRead then HexAddress(at) else []))
    ensures r.Ok? ==> Added(reg, old(reg.entries), req, caller, at)
  {
    var voters := ParseAll(req.voters);
    if voters.None? {
      return Err(BadAddress);
    }
    var created := reg.CreateElection(req.title, req.proposals, voters.value, req.startTime, req.endTime, caller, at);
    if created.Err? {
      return Err(Rejected(created.error));
    }
    var fromEvent := if eventRead then HexAddress(created.value.electionAddress) else [];
    r := Ok(ResolveAddress(fromEvent, reg));
  }

  /** The registry after an accepted submission: the earlier entries kept,
      and one more at the end for the request, owned by the caller, placed
      at `at`, open to exactly the request's voters and not yet voted on. */
  ghost predicate Added(reg: Registry, before: seq<Entry>, req: CreateRequest, caller: Address, at: Address)
    reads reg, reg.Ledgers()
  {
    && |reg.entries| == |before| + 1
    && reg.entries[..|before|] == before
    && var e := reg.entries[|before|];
       && e.title == req.title && e.startTime == req.startTime && e.endTime == req.endTime
       && e.ledger.owner == caller && e.ledger.address == at
       && e.ledger.proposalNames == req.proposals && !e.ledger.ended
       && ParseAll(req.voters) == Some(e.ledger.allowedVoters)
       && e.ledger.Voters() == {}
  }
}
