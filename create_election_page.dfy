/**
 * The simpler creation page: an election that starts when the form is sent
 * and lasts a chosen number of hours, and a debug panel that reads an
 * election's state for the connected account and explains whether a vote
 * for a proposal would go through.
 */
module CreateElectionPage {
  import opened Wrappers
  import opened JsString
  import opened Ledger
  import opened Factory
  import opened AddressText
  import opened ListInput
  import opened Creation
  import opened ElectionPage

  // ------------------------------------------------------------ debug panel

  const NO_WALLET: string := "Error: Wallet not connected"
  const MISSING_DEBUG_INPUT: string := "Please enter both election address and proposal name"
  const CHECK_FAILED: string := "Error checking vote eligibility: "

  /** How a boolean prints inside a template string. */
  function BoolText(b: bool): (t: string)
    ensures t == "true" <==> b
  {
    if b then "true" else "false"
  }

  /** The last line of the report for a status code. */
  function StatusLine(code: int): (t: string)
    ensures t == "Status: Unknown" <==> !(0 <= code < 4)
    ensures t == "Status: Can vote" <==> code == 0
  {
    if code == 0 then "Status: Can vote"
    else if code == 1 then "Status: Not registered to vote"
    else if code == 2 then "Status: Already voted"
    else if code == 3 then "Status: Invalid proposal"
    else "Status: Unknown"
  }

  /** The code a ledger answers is always one the panel names, and the panel
      says "Can vote" exactly when the ledger allows the vote. */
  lemma StatusLineOfCode(s: VoteStatus)
    ensures StatusLine(s.Code()) != "Status: Unknown"
    ensures StatusLine(s.Code()) == "Status: Can vote" <==> s.CanVote?
  {
  }

  /** The panel's reading of "active": inside the window, both ends
      included, and not ended. */
  predicate IsActive(now: int, startTime: int, endTime: int, ended: bool)
    ensures IsActive(now, startTime, endTime, ended) ==> startTime <= endTime && !ended
  {
    now >= startTime && now <= endTime && !ended
  }

  const REGISTERED_HEAD: string := "Is registered voter: "
  const VOTED_HEAD: string := "Has already voted: "
  const EXISTS_HEAD: string := "Proposal exists, current votes: "
  const MISSING_HEAD: string := "Proposal might not exist: "
  const START_HEAD: string := "Start time: "
  const END_HEAD: string := "End time: "
  const NOW_HEAD: string := "Current time: "
  const ENDED_HEAD: string := "Election ended: "
  const ACTIVE_HEAD: string := "Is active: "
  const CODE_HEAD: string := "Vote status code: "

  /** A report line: its label and the value after it. */
  function Labelled(head: string, value: string): (t: string)
    ensures |t| == |head| + |value| && t[..|head|] == head
  {
    head + value
  }

  predicate StartsWith(t: string, head: string) {
    |head| <= |t| && t[..|head|] == head
  }

  /** The third line: the tally of the proposal, or the message of the
      failed lookup; only the first starts with "Proposal exists". */
  function ProposalLine(votes: Option<nat>, revertText: string): (t: string)
    ensures StartsWith(t, EXISTS_HEAD) <==> votes.Some?
  {
    if votes.Some? then Labelled(EXISTS_HEAD, NatToString(votes.value))
    else
      var t := Labelled(MISSING_HEAD, revertText);
      assert t[9] == MISSING_HEAD[9] != EXISTS_HEAD[9];
      t
  }

  /** What the panel reads from a ledger for `account` and proposal
      `name`, in the order it asks. */
  datatype Reading = Reading(registered: bool, hasVoted: bool, votes: Option<nat>,
                             startTime: int, endTime: int, ended: bool, code: nat)

  /** The answers ledger `l` gives. */
  function ReadingOf(l: ElectionLedger, account: Address, name: string): (r: Reading)
    reads l
    requires l.Valid()
    ensures r.registered == l.IsRegistered(account) && r.hasVoted == l.HasVoted(account)
    ensures r.votes == l.ProposalVotes(name) && r.code == l.CanVote(account, name).Code()
    ensures r.startTime == l.startTime && r.endTime == l.endTime && r.ended == l.ended
  {
    Reading(l.IsRegistered(account), l.HasVoted(account), l.ProposalVotes(name),
            l.startTime, l.endTime, l.ended, l.CanVote(account, name).Code())
  }

  /** The lines of the report at time `now`. `timeText` renders a time in
      seconds in the browser's locale and `revertText` is the message of a
      failed tally lookup. */
  function ReportLines(r: Reading, now: int, timeText: int -> string, revertText: string): (lines: seq<string>)
    ensures |lines| == 10
  {
    [ Labelled(REGISTERED_HEAD, BoolText(r.registered)),
      Labelled(VOTED_HEAD, BoolText(r.hasVoted)),
      ProposalLine(r.votes, revertText),
      Labelled(START_HEAD, timeText(r.startTime)),
      Labelled(END_HEAD, timeText(r.endTime)),
      Labelled(NOW_HEAD, timeText(now)),
      Labelled(ENDED_HEAD, BoolText(r.ended)),
      Labelled(ACTIVE_HEAD, BoolText(IsActive(now, r.startTime, r.endTime, r.ended))),
      Labelled(CODE_HEAD, NatToString(r.code)),
      StatusLine(r.code) ]
  }

  /** A line "head: true" says exactly that its flag is set. */
  lemma TrueLine(head: string, b: bool)
    ensures Labelled(head, BoolText(b)) == Labelled(head, "true") <==> b
  {
    AppendText(head, BoolText(b), "true");
  }

  /** The yes-or-no lines of the report state the flags they were built
      from. */
  lemma ReportFlags(r: Reading, now: int, timeText: int -> string, revertText: string)
    ensures var lines := ReportLines(r, now, timeText, revertText);
      && (lines[0] == Labelled(REGISTERED_HEAD, "true") <==> r.registered)
      && (lines[1] == Labelled(VOTED_HEAD, "true") <==> r.hasVoted)
      && (lines[7] == Labelled(ACTIVE_HEAD, "true") <==> IsActive(now, r.startTime, r.endTime, r.ended))
  {
    TrueLine(REGISTERED_HEAD, r.registered);
    TrueLine(VOTED_HEAD, r.hasVoted);
    TrueLine(ACTIVE_HEAD, IsActive(now, r.startTime, r.endTime, r.ended));
  }

  /** The proposal line says whether the proposal exists and the status
      line says "Can vote" exactly for code 0. */
  lemma ReportVerdict(r: Reading, now: int, timeText: int -> string, revertText: string)
    ensures var lines := ReportLines(r, now, timeText, revertText);
      && (StartsWith(lines[2], EXISTS_HEAD) <==> r.votes.Some?)
      && (lines[9] == StatusLine(0) <==> r.code == 0)
  {
  }

  /** The report predicts the ledger: its status line says "Can vote" and
      its activity line says "true" exactly when a vote sent now would be
      counted; the first two lines say "true" exactly when the ledger does,
      and the third starts "Proposal exists" exactly for a proposal. */
  lemma ReportPredictsVote(l: ElectionLedger, account: Address, name: string, now: int,
                           timeText: int -> string, revertText: string)
    requires l.Valid()
    ensures var lines := ReportLines(ReadingOf(l, account, name), now, timeText, revertText);
      && (lines[0] == Labelled(REGISTERED_HEAD, "true") <==> l.IsRegistered(account))
      && (lines[1] == Labelled(VOTED_HEAD, "true") <==> l.HasVoted(account))
      && (StartsWith(lines[2], EXISTS_HEAD) <==> name in l.proposalNames)
      && (lines[9] == StatusLine(0) && lines[7] == Labelled(ACTIVE_HEAD, "true")
          <==> l.CanVote(account, name).CanVote? && l.IsOpen(now))
  {
    ReportFlags(ReadingOf(l, account, name), now, timeText, revertText);
    ReportVerdict(ReadingOf(l, account, name), now, timeText, revertText);
  }

  /** Two texts with the same head are equal exactly when their tails are. */
  lemma AppendText(head: string, a: string, b: string)
    ensures head + a == head + b <==> a == b
  {
    if head + a == head + b {
      assert a == (head + a)[|head|..];
    }
  }

  /** `checkVoteEligibility(address, name)` against ledger `l`: without a
      wallet it reports that; otherwise it reads the ledger and reports one
      line per answer, the lines separated by newlines. */
  method CheckVoteEligibility(l: ElectionLedger, signerReady: bool, account: Address, name: string,
                              now: int, timeText: int -> string, revertText: string)
    returns (debug: string)
    requires l.Valid()
    ensures !signerReady ==> debug == NO_WALLET
    ensures signerReady ==> debug == Join(ReportLines(ReadingOf(l, account, name), now, timeText, revertText), "\n")
  {
    if !signerReady {
      return NO_WALLET;
    }
    var reading := Reading(l.IsRegistered(account), l.HasVoted(account), l.ProposalVotes(name),
                           l.startTime, l.endTime, l.ended, l.CanVote(account, name).Code());
    debug := Join(ReportLines(reading, now, timeText, revertText), "\n");
  }

  /** The debug button: both fields must be filled; then the report for the
      ledger the address names, or the failure message with `errorText`
      when no ledger answers at that address. */
  method HandleDebugCheck(target: Option<ElectionLedger>, addressText: string, name: string,
                          signerReady: bool, account: Address, now: int,
                          timeText: int -> string, revertText: string, errorText: string)
    returns (debug: string)
    requires target.Some? ==> target.value.Valid()
    ensures addressText == [] || name == [] ==> debug == MISSING_DEBUG_INPUT
    ensures addressText != [] && name != [] && !signerReady ==> debug == NO_WALLET
    ensures addressText != [] && name != [] && signerReady ==>
      debug == if target.Some? then Join(ReportLines(ReadingOf(target.value, account, name), now, timeText, revertText), "\n")
               else CHECK_FAILED + errorText
  {
    if addressText == [] || name == [] {
      return MISSING_DEBUG_INPUT;
    }
    if signerReady && target.None? {
      return CHECK_FAILED + errorText;
    }
    if !signerReady {
      return NO_WALLET;
    }
    debug := CheckVoteEligibility(target.value, signerReady, account, name, now, timeText, revertText);
  }

  // ------------------------------------------------------------ creation form

  /** The default length of an election, in hours. */
  const DEFAULT_HOURS: int := 24

  /** The duration field: what `parseInt` reads from the typed text, with a
      failed or zero reading giving 24. A negative number is kept. */
  function DurationInput(s: string): (hours: int)
    ensures hours != 0
    ensures ParseInt(s).Some? && ParseInt(s).value != 0 ==> hours == ParseInt(s).value
    ensures ParseInt(s).None? || ParseInt(s) == Some(0) ==> hours == DEFAULT_HOURS
  {
    match ParseInt(s)
    case Some(v) => if v != 0 then v else DEFAULT_HOURS
    case None => DEFAULT_HOURS
  }

  /** Typing a whole number of hours in decimal gives that number, except
      that 0 gives the default. */
  lemma DurationOfNumber(n: nat)
    ensures DurationInput(NatToString(n)) == if n == 0 then DEFAULT_HOURS else n
  {
    ParseIntOfNatToString(n);
  }

  /** The form's checks and the request it sends: the election starts at the
      current second, rounded down from `nowMs`, and ends `hours` hours
      later. Only the contract and the three text fields are checked. */
  function CreateRequestOf(ready: bool, title: string, proposals: string, voters: string,
                           hours: int, nowMs: int): (r: Result<CreateRequest, FormError>)
    ensures r == Err(NotReady) <==> !ready
    ensures r == Err(MissingFields) <==> ready && (title == [] || proposals == [] || voters == [])
    ensures r.Ok? <==> ready && title != [] && proposals != [] && voters != []
    ensures r.Ok? ==>
      && title != [] && proposals != [] && voters != []
      && r.value == CreateRequest(title, ParseList(proposals), ParseList(voters),
                                  nowMs / 1000, nowMs / 1000 + hours * 3600)
  {
    if !ready then Err(NotReady)
    else if title == [] || proposals == [] || voters == [] then Err(MissingFields)
    else
      var now := nowMs / 1000;
      Ok(CreateRequest(title, ParseList(proposals), ParseList(voters), now, now + hours * 3600))
  }

  /** A positive duration passes the factory's window check. A negative
      one (the field keeps what was typed) would ask for an election that
      ends before it starts, which the factory would refuse once the lists
      are acceptable; on the page, the field's `min="1"` makes the browser
      block such a submission before the create handler runs. */
  lemma DurationWindow(ready: bool, title: string, proposals: string, voters: string,
                       hours: int, nowMs: int, vs: seq<Address>)
    requires CreateRequestOf(ready, title, proposals, voters, hours, nowMs).Ok?
    ensures var req := CreateRequestOf(ready, title, proposals, voters, hours, nowMs).value;
      && (req.startTime < req.endTime <==> hours > 0)
      && (hours < 0 && Distinct(req.proposals) && |vs| > 0 ==>
            CheckElection(req.proposals, vs, req.startTime, req.endTime) == Some(EmptyWindow))
  {
  }

  /** After a creation, the debug fields are filled: the address with the
      new election's and the proposal name with the first name sent. */
  datatype DebugFill = DebugFill(electionAddress: string, proposalName: string)

  /** The create button of this page: the checks, the request, and on
      success the status line and the debug fields filled in for the new
      election. When no address was found the election exists all the same,
      the page shows a warning and the debug fields stay as they were. The
      page always sends at least one proposal name, the first part of the
      split. `errorText` is the message of a failed send. */
  method HandleCreateElection(reg: Registry, ready: bool, title: string, proposals: string, voters: string,
                              hours: int, nowMs: int, caller: Address, at: Address, eventRead: bool,
                              errorText: string)
    returns (r: CreateOutcome, status: string, fill: Option<DebugFill>)
    requires reg.Valid()
    modifies reg
    ensures reg.Valid()
    ensures !r.Done? ==> fill.None?
    ensures !r.Done? && !r.NotCaptured? ==> reg.entries == old(reg.entries)
    ensures r.FormRejected? ==> status == r.formError.Message()
    ensures r.SendFailed? ==> status == "Error: " + errorText
    ensures r.NotCaptured? ==> status == NOT_CAPTURED
    ensures CreateRequestOf(ready, title, proposals, voters, hours, nowMs).Err? ==>
      r == FormRejected(CreateRequestOf(ready, title, proposals, voters, hours, nowMs).error)
    ensures CreateRequestOf(ready, title, proposals, voters, hours, nowMs).Ok? ==>
      var req := CreateRequestOf(ready, title, proposals, voters, hours, nowMs).value;
      && (ParseAll(req.voters).None? ==> r == SendFailed(BadAddress))
      && (ParseAll(req.voters).Some? ==>
            var check := CheckElection(req.proposals, ParseAll(req.voters).value, req.startTime, req.endTime);
            && (check.Some? ==> r == SendFailed(Rejected(check.value)))
            && (check.None? ==>
                  && Added(reg, old(reg.entries), req, caller, at)
                  && (eventRead ==> r == Done(HexAddress(at))
                                    && status == "Election created successfully at address " + HexAddress(at)
                                    && fill == Some(DebugFill(HexAddress(at), req.proposals[0])))
                  && (!eventRead ==> r == NotCaptured)))
  {
    var form := CreateRequestOf(ready, title, proposals, voters, hours, nowMs);
    if form.Err? {
      return FormRejected(form.error), form.error.Message(), None;
    }
    var sent := Submit(reg, form.value, caller, at, eventRead);
    if sent.Err? {
      return SendFailed(sent.error), "Error: " + errorText, None;
    }
    if sent.value == [] {
      return NotCaptured, NOT_CAPTURED, None;
    }
    r := Done(sent.value);
    status := "Election created successfully at address " + sent.value;
    fill := Some(DebugFill(sent.value, form.value.proposals[0]));
  }
}
