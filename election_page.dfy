/**
 * The host's page: the form that creates an election, the import of voter
 * addresses from a text file, the duration preview, and the list of the
 * elections the connected account created. Form times are milliseconds, as
 * the date pickers give them; chain times are seconds.
 */
module ElectionPage {
  import opened Wrappers
  import opened JsString
  import opened Ledger
  import opened Factory
  import opened AddressText
  import opened ListInput
  import opened ElectionTypes
  import opened Creation
  import HostCard
  import CardStatus
  import ElectionCard

  // ------------------------------------------------------- form checking

  /** Why the creation form was not sent, in the order the checks run. */
  datatype FormError = NotReady | MissingFields | StartInPast | EndBeforeStart | TooShort {
    /** The status line shown for the error. */
    function Message(): (m: string)
      ensures m != []
    {
      match this
      case NotReady => "Contract not initialized"
      case MissingFields => "Please fill all required fields"
      case StartInPast => "Start time cannot be in the past"
      case EndBeforeStart => "End time must be after start time"
      case TooShort => "Election must last at least 1 hour"
    }
  }

  const HOUR_MS: int := 3600 * 1000
  const MINUTE_MS: int := 60 * 1000

  /** Whole units between two instants, rounded toward zero, as a date
      library's difference in a given unit is. */
  function TruncDiv(x: int, unit: int): (r: int)
    requires unit > 0
    ensures x >= 0 ==> r == x / unit
    ensures x < 0 ==> r == -((-x) / unit)
  {
    if x >= 0 then x / unit else -((-x) / unit)
  }

  /** A difference that is not negative is at least one whole unit
      exactly when it reaches the unit. */
  lemma WholeUnits(x: int, unit: int)
    requires unit > 0
    ensures x >= 0 ==> (TruncDiv(x, unit) < 1 <==> x < unit)
  {
  }

  /** The checks of the creation form, in order, the first failure giving
      the message. `start` and `end` are missing when their pickers are
      empty. */
  function FormProblem(ready: bool, title: string, proposals: string, voters: string,
                       start: Option<int>, end: Option<int>, now: int): (r: Option<FormError>)
    ensures r == Some(NotReady) <==> !ready
    ensures r == Some(MissingFields) <==>
      ready && (title == [] || proposals == [] || voters == [] || start.None? || end.None?)
    ensures r == Some(StartInPast) <==>
      ready && title != [] && proposals != [] && voters != [] && start.Some? && end.Some?
      && start.value < now
    ensures r == Some(EndBeforeStart) <==>
      ready && title != [] && proposals != [] && voters != [] && start.Some? && end.Some?
      && now <= start.value && end.value < start.value
    ensures r == Some(TooShort) <==>
      ready && title != [] && proposals != [] && voters != [] && start.Some? && end.Some?
      && now <= start.value <= end.value < start.value + HOUR_MS
    ensures r.None? <==>
      ready && title != [] && proposals != [] && voters != [] && start.Some? && end.Some?
      && now <= start.value && start.value + HOUR_MS <= end.value
  {
    if !ready then Some(NotReady)
    else if title == [] || proposals == [] || voters == [] || start.None? || end.None? then Some(MissingFields)
    else if start.value < now then Some(StartInPast)
    else if end.value < start.value then Some(EndBeforeStart)
    else if (WholeUnits(end.value - start.value, HOUR_MS); TruncDiv(end.value - start.value, HOUR_MS) < 1) then Some(TooShort)
    else None
  }

  /** A form that passes the checks becomes a request with the lists split
      on commas and the times turned into whole seconds, rounded down. */
  function ValidateForm(ready: bool, title: string, proposals: string, voters: string,
                        start: Option<int>, end: Option<int>, now: int): (r: Result<CreateRequest, FormError>)
    ensures r.Err? <==> FormProblem(ready, title, proposals, voters, start, end, now).Some?
    ensures r.Err? ==> r.error == FormProblem(ready, title, proposals, voters, start, end, now).value
    ensures r.Ok? ==> start.Some? && end.Some? && now <= start.value && start.value + HOUR_MS <= end.value
    ensures r.Ok? ==>
      && r.value.title == title && r.value.proposals == ParseList(proposals)
      && r.value.voters == ParseList(voters)
      && r.value.startTime == start.value / 1000 && r.value.endTime == end.value / 1000
  {
    match FormProblem(ready, title, proposals, voters, start, end, now)
    case Some(e) => Err(e)
    case None => Ok(CreateRequest(title, ParseList(proposals), ParseList(voters), start.value / 1000, end.value / 1000))
  }

  /** An accepted form asks for an election that starts no earlier than the
      form was sent, lasts at least an hour in whole seconds, and has at
      least one proposal and one voter; so the factory can only refuse it
      for a repeated proposal name. */
  lemma AcceptedFormWindow(ready: bool, title: string, proposals: string, voters: string,
                           start: Option<int>, end: Option<int>, now: int, vs: seq<Address>)
    requires ValidateForm(ready, title, proposals, voters, start, end, now).Ok?
    requires |vs| == |ValidateForm(ready, title, proposals, voters, start, end, now).value.voters|
    ensures var req := ValidateForm(ready, title, proposals, voters, start, end, now).value;
      && now / 1000 <= req.startTime
      && req.endTime - req.startTime >= 3600
      && |req.proposals| >= 1 && |req.voters| >= 1
      && CheckElection(req.proposals, vs, req.startTime, req.endTime) in {None, Some(DuplicateProposal)}
  {
    var s, e := start.value, end.value;
    assert (s + HOUR_MS) / 1000 == s / 1000 + 3600;
  }

  /** How a press of the create button ends. */
  datatype CreateOutcome =
    | FormRejected(formError: FormError)
    | SendFailed(sendError: SubmitError)
    | Done(address: string)    // created, and the page knows where
    | NotCaptured              // created, but the page found no address

  /** The warning shown when an election was created but its address was
      not found. */
  const NOT_CAPTURED: string := "Election created but address not captured"

  /** The create button: the form is checked and the request is sent. A
      rejected form sends nothing, and a failed or refused request leaves
      both the registry and the list as they were. An accepted request adds
      the election to the registry; the page adds it to its own list only
      when it found the new address, which it does only through the
      creation notification. */
  method HandleElection(reg: Registry, ready: bool, list: seq<Election>,
                        title: string, proposals: string, voters: string,
                        start: Option<int>, end: Option<int>, now: int,
                        caller: Address, at: Address, eventRead: bool)
    returns (r: CreateOutcome, newList: seq<Election>)
    requires reg.Valid()
    modifies reg
    ensures reg.Valid()
    ensures !r.Done? ==> newList == list
    ensures !r.Done? && !r.NotCaptured? ==> reg.entries == old(reg.entries)
    ensures ValidateForm(ready, title, proposals, voters, start, end, now).Err? ==>
      r == FormRejected(ValidateForm(ready, title, proposals, voters, start, end, now).error)
    ensures ValidateForm(ready, title, proposals, voters, start, end, now).Ok? ==>
      var req := ValidateForm(ready, title, proposals, voters, start, end, now).value;
      && (ParseAll(req.voters).None? ==> r == SendFailed(BadAddress))
      && (ParseAll(req.voters).Some? ==>
            var check := CheckElection(req.proposals, ParseAll(req.voters).value, req.startTime, req.endTime);
            && (check.Some? ==> r == SendFailed(Rejected(check.value)))
            && (check.None? ==>
                  && Added(reg, old(reg.entries), req, caller, at)
                  && (eventRead ==> r == Done(HexAddress(at))
                                    && newList == AppendCreated(list, req, HexAddress(at)))
                  && (!eventRead ==> r == NotCaptured)))
  {
    var form := ValidateForm(ready, title, proposals, voters, start, end, now);
    if form.Err? {
      return FormRejected(form.error), list;
    }
    var sent := Submit(reg, form.value, caller, at, eventRead);
    if sent.Err? {
      return SendFailed(sent.error), list;
    }
    if sent.value == [] {
      return NotCaptured, list;
    }
    r := Done(sent.value);
    newList := AppendCreated(list, form.value, sent.value);
  }

  // ---------------------------------------------------------- period text

  /** The duration preview before rendering. */
  datatype Period =
    | Negative
    | Minutes(minutes: nat)
    | HoursMinutes(hours: nat, minutes: nat)
    | DaysHours(days: nat, hours: nat)

  /** The duration of `diff` whole minutes: under an hour in minutes, under
      a day in hours and minutes, and otherwise in days and hours, the
      minutes being dropped. */
  function PeriodOf(diff: int): (p: Period)
    ensures p.Negative? <==> diff < 0
    ensures p.Minutes? ==> p.minutes == diff < 60
    ensures p.HoursMinutes? ==> 1 <= p.hours < 24 && p.minutes < 60 && 60 * p.hours + p.minutes == diff
    ensures p.DaysHours? ==>
      && p.days >= 1 && p.hours < 24
      && 60 * (24 * p.days + p.hours) <= diff < 60 * (24 * p.days + p.hours) + 60
  {
    if diff < 0 then Negative
    else if diff < 60 then Minutes(diff)
    else
      var hours := diff / 60;
      var minutes := diff % 60;
      if hours < 24 then HoursMinutes(hours, minutes)
      else DaysHours(hours / 24, hours % 24)
  }

  /** The preview text of a period; only a negative one reads as the
      error text, every other starting with a number. */
  function PeriodText(p: Period): (r: string)
    ensures r == EndBeforeStart.Message() <==> p.Negative?
  {
    match p
    case Negative => EndBeforeStart.Message()
    case Minutes(m) =>
      assert (NatToString(m) + " minutes")[0] != EndBeforeStart.Message()[0];
      NatToString(m) + " minutes"
    case HoursMinutes(h, m) =>
      var t := CardStatus.Plural(h, "hour") + " " + (if m > 0 then "and " + CardStatus.Plural(m, "minute") else "");
      assert t[0] == NatToString(h)[0] != EndBeforeStart.Message()[0];
      t
    case DaysHours(d, h) =>
      var t := CardStatus.Plural(d, "day") + " " + (if h > 0 then "and " + CardStatus.Plural(h, "hour") else "");
      assert t[0] == NatToString(d)[0] != EndBeforeStart.Message()[0];
      t
  }

  /** `calculatePeriod(start, end)` for two instants in milliseconds: the
      error text exactly when the end is a whole minute or more before the
      start. */
  function CalculatePeriod(startMs: int, endMs: int): (r: string)
    ensures r == EndBeforeStart.Message() <==> endMs <= startMs - MINUTE_MS
  {
    PeriodText(PeriodOf(TruncDiv(endMs - startMs, MINUTE_MS)))
  }

  /** The minute difference is rounded toward zero, so an end less than a
      minute before the start previews as "0 minutes" rather than as the
      error text; from a whole minute before on, the error text shows. */
  lemma CalculatePeriodNearZero(startMs: int, endMs: int)
    ensures startMs - MINUTE_MS < endMs < startMs ==> CalculatePeriod(startMs, endMs) == "0 minutes"
    ensures endMs <= startMs - MINUTE_MS ==> CalculatePeriod(startMs, endMs) == EndBeforeStart.Message()
  {
    if startMs - MINUTE_MS < endMs < startMs {
      assert TruncDiv(endMs - startMs, MINUTE_MS) == 0;
      assert NatToString(0) == "0";
    } else if endMs <= startMs - MINUTE_MS {
      assert TruncDiv(endMs - startMs, MINUTE_MS) <= -1;
    }
  }

  // ------------------------------------------------------ voter file import

  /** The characters of the class `[\n,\s]`. */
  predicate IsSeparator(c: char) {
    c == ',' || IsSpace(c)
  }

  predicate NoSeparator(s: string) {
    forall i :: 0 <= i < |s| ==> !IsSeparator(s[i])
  }

  /** What follows a run of separators at the front of `s`. */
  function DropSeparators(s: string): (r: string)
    ensures |r| <= |s|
    ensures r == [] || !IsSeparator(r[0])
  {
    if s != [] && IsSeparator(s[0]) then DropSeparators(s[1..]) else s
  }

  /** `s.split(/[\n,\s]+/)`: the pieces between maximal runs of
      separators; a leading or trailing run gives an empty first or last
      piece, and no piece in between is empty. */
  function SplitRuns(s: string): (parts: seq<string>)
    ensures |parts| >= 1
    ensures forall i :: 0 <= i < |parts| ==> NoSeparator(parts[i])
    ensures forall i :: 0 < i < |parts| - 1 ==> parts[i] != []
    ensures s != [] && !IsSeparator(s[0]) ==> parts[0] != [] && parts[0][0] == s[0]
    decreases |s|
  {
    if s == [] then [[]]
    else if IsSeparator(s[0]) then [[]] + SplitRuns(DropSeparators(s[1..]))
    else
      var rest := SplitRuns(s[1..]);
      [[s[0]] + rest[0]] + rest[1..]
  }

  /** The characters of `s` that are not separators, in order. */
  function Strip(s: string): (r: string)
    ensures NoSeparator(r)
  {
    if s == [] then [] else (if IsSeparator(s[0]) then [] else [s[0]]) + Strip(s[1..])
  }

  function Concat(parts: seq<string>): string {
    if parts == [] then [] else parts[0] + Concat(parts[1..])
  }

  lemma {:induction false} StripSeparators(s: string)
    ensures Strip(s) == Strip(DropSeparators(s))
  {
    if s != [] && IsSeparator(s[0]) {
      StripSeparators(s[1..]);
    }
  }

  /** The pieces hold exactly the characters that are not separators, in
      their order. */
  lemma {:induction false} SplitRunsConcat(s: string)
    ensures Concat(SplitRuns(s)) == Strip(s)
    decreases |s|
  {
    if s != [] {
      if IsSeparator(s[0]) {
        var t := DropSeparators(s[1..]);
        SplitRunsConcat(t);
        StripSeparators(s[1..]);
        assert ([[]] + SplitRuns(t))[1..] == SplitRuns(t);
      } else {
        var rest := SplitRuns(s[1..]);
        SplitRunsConcat(s[1..]);
        var parts := [[s[0]] + rest[0]] + rest[1..];
        assert parts[1..] == rest[1..];
        assert Concat(rest) == rest[0] + Concat(rest[1..]);
      }
    }
  }

  /** A run of separators, such as the regular expression's `+` matches. */
  predicate AllSeparators(run: string) {
    forall i :: 0 <= i < |run| ==> IsSeparator(run[i])
  }

  /** Dropping a run of separators in front of text that does not start
      with one leaves exactly that text. */
  lemma {:induction false} DropRun(run: string, rest: string)
    requires AllSeparators(run)
    requires rest == [] || !IsSeparator(rest[0])
    ensures DropSeparators(run + rest) == rest
  {
    if run != [] {
      assert (run + rest)[1..] == run[1..] + rest;
      DropRun(run[1..], rest);
    }
  }

  /** Text without separators is a single piece. */
  lemma {:induction false} SplitRunsPlain(t: string)
    requires NoSeparator(t)
    ensures SplitRuns(t) == [t]
  {
    if t != [] {
      SplitRunsPlain(t[1..]);
      assert [t[0]] + t[1..] == t;
    }
  }

  /** A piece, then a maximal run of separators, then the rest: the piece
      comes first and the rest is split on its own. */
  lemma {:induction false} SplitRunsAfter(t: string, run: string, rest: string)
    requires NoSeparator(t) && run != [] && AllSeparators(run)
    requires rest == [] || !IsSeparator(rest[0])
    ensures SplitRuns(t + run + rest) == [t] + SplitRuns(rest)
    decreases |t|
  {
    var s := t + run + rest;
    if t == [] {
      assert s == run + rest && s[1..] == run[1..] + rest;
      DropRun(run[1..], rest);
    } else {
      assert s[1..] == t[1..] + run + rest;
      SplitRunsAfter(t[1..], run, rest);
      assert [t[0]] + t[1..] == t;
    }
  }

  /** `tokens[0] + runs[0] + tokens[1] + … + runs[n-2] + tokens[n-1]`. */
  function Glue(tokens: seq<string>, runs: seq<string>): (s: string)
    requires |tokens| == |runs| + 1
    ensures runs == [] ==> s == tokens[0]
  {
    if runs == [] then tokens[0] else tokens[0] + runs[0] + Glue(tokens[1..], runs[1..])
  }

  /** The split finds back the pieces of any text glued from pieces without
      separators and non-empty runs of separators, provided only the first
      and the last piece are empty (a run at either end of the text). */
  lemma {:induction false} SplitRunsGlue(tokens: seq<string>, runs: seq<string>)
    requires |tokens| == |runs| + 1
    requires forall k :: 0 <= k < |tokens| ==> NoSeparator(tokens[k])
    requires forall k :: 0 < k < |tokens| - 1 ==> tokens[k] != []
    requires forall k :: 0 <= k < |runs| ==> runs[k] != [] && AllSeparators(runs[k])
    ensures SplitRuns(Glue(tokens, runs)) == tokens
  {
    if runs == [] {
      SplitRunsPlain(tokens[0]);
    } else {
      var rest := Glue(tokens[1..], runs[1..]);
      SplitRunsGlue(tokens[1..], runs[1..]);
      if |tokens| > 2 {
        assert rest == tokens[1] + runs[1] + Glue(tokens[2..], runs[2..]);
        assert rest[0] == tokens[1][0];
      }
      SplitRunsAfter(tokens[0], runs[0], rest);
      assert [tokens[0]] + tokens[1..] == tokens;
    }
  }

  /** A token the import keeps: it starts with "0x" and is 42 characters long. */
  predicate IsAddressToken(t: string) {
    |t| == 42 && t[..2] == "0x"
  }

  /** The tokens that look like addresses, in their order. */
  function KeepAddresses(tokens: seq<string>): (r: seq<string>)
    ensures |r| <= |tokens|
    ensures forall x :: x in r <==> x in tokens && IsAddressToken(x)
    ensures |tokens| == 1 ==> (r == tokens <==> IsAddressToken(tokens[0])) && (r == [] <==> !IsAddressToken(tokens[0]))
  {
    if tokens == [] then []
    else (if IsAddressToken(tokens[0]) then [tokens[0]] else []) + KeepAddresses(tokens[1..])
  }

  /** Filtering works token by token: the tokens kept from two lists in a
      row are those kept from the first followed by those kept from the
      second, every copy of a repeated token included. */
  lemma {:induction false} KeepAddressesAppend(a: seq<string>, b: seq<string>)
    ensures KeepAddresses(a + b) == KeepAddresses(a) + KeepAddresses(b)
  {
    if a == [] {
      assert a + b == b;
    } else {
      assert (a + b)[0] == a[0] && (a + b)[1..] == a[1..] + b;
      KeepAddressesAppend(a[1..], b);
    }
  }

  /** What the import finds in a file's content: the pieces between
      separator runs, trimmed, that look like addresses. */
  function ImportedAddresses(content: string): (r: seq<string>)
    ensures forall i :: 0 <= i < |r| ==> IsAddressToken(r[i])
  {
    KeepAddresses(TrimAll(SplitRuns(content)))
  }

  /** For a file made of tokens between runs of separators, the import
      keeps exactly the address-like tokens, in file order: so a file of
      addresses one per line, or separated by commas and blanks, imports
      every line. */
  lemma ImportedOfGlue(tokens: seq<string>, runs: seq<string>)
    requires |tokens| == |runs| + 1
    requires forall k :: 0 <= k < |tokens| ==> NoSeparator(tokens[k])
    requires forall k :: 0 < k < |tokens| - 1 ==> tokens[k] != []
    requires forall k :: 0 <= k < |runs| ==> runs[k] != [] && AllSeparators(runs[k])
    ensures ImportedAddresses(Glue(tokens, runs)) == KeepAddresses(tokens)
  {
    SplitRunsGlue(tokens, runs);
    TrimmedPieces(tokens);
  }

  /** Two addresses on two lines import as those two addresses. */
  lemma ImportedLines(a: string, b: string)
    requires IsAddressToken(a) && NoSeparator(a) && IsAddressToken(b) && NoSeparator(b)
    ensures ImportedAddresses(a + "\n" + b) == [a, b]
  {
    assert Glue([a, b], ["\n"]) == a + "\n" + b;
    ImportedOfGlue([a, b], ["\n"]);
    KeepAddressesAppend([a], [b]);
    assert [a] + [b] == [a, b];
  }

  /** No imported address holds a separator. */
  lemma ImportedPlain(content: string)
    ensures forall i :: 0 <= i < |ImportedAddresses(content)| ==> NoSeparator(ImportedAddresses(content)[i])
  {
    var pieces := SplitRuns(content);
    TrimmedPieces(pieces);
    var r := KeepAddresses(pieces);
    forall i | 0 <= i < |r| ensures NoSeparator(r[i]) {
      assert r[i] in pieces;
      var j :| 0 <= j < |pieces| && pieces[j] == r[i];
    }
  }

  /** Trimming changes none of the pieces, which hold no white space. */
  lemma TrimmedPieces(pieces: seq<string>)
    requires forall i :: 0 <= i < |pieces| ==> NoSeparator(pieces[i])
    ensures TrimAll(pieces) == pieces
  {
    forall i | 0 <= i < |pieces| ensures Trim(pieces[i]) == pieces[i] {
      TrimNoSpace(pieces[i]);
    }
  }

  datatype StatusKind = Success | Warning

  /** The voters field and the status line after importing a file. */
  datatype Import = Import(voters: string, status: string, kind: StatusKind)

  /** Importing a voter file: with no address-like token the field is kept
      and a warning is shown; otherwise the field becomes the tokens joined
      by ", ", which the form reads back as exactly those tokens. */
  function ImportVoterFile(current: string, content: string, fileName: string): (r: Import)
    ensures ImportedAddresses(content) == [] ==>
      r == Import(current, "No valid Ethereum addresses found in file", Warning)
    ensures ImportedAddresses(content) != [] ==>
      && r.kind == Success
      && ParseList(r.voters) == ImportedAddresses(content)
      && r.status == "Successfully imported " + NatToString(|ImportedAddresses(content)|)
                     + " voter addresses from " + fileName
  {
    var addresses := ImportedAddresses(content);
    if addresses == [] then Import(current, "No valid Ethereum addresses found in file", Warning)
    else
      ImportedPlain(content);
      ImportedItems(addresses);
      Import(Join(addresses, ", "), "Successfully imported " + NatToString(|addresses|)
                                    + " voter addresses from " + fileName, Success)
  }

  lemma ImportedItems(addresses: seq<string>)
    requires |addresses| >= 1
    requires forall i :: 0 <= i < |addresses| ==> IsAddressToken(addresses[i]) && NoSeparator(addresses[i])
    ensures ParseList(Join(addresses, ", ")) == addresses
  {
    forall i | 0 <= i < |addresses| ensures IsItem(addresses[i]) {
      var a := addresses[i];
      assert !IsSeparator(a[0]) && !IsSeparator(a[|a| - 1]);
      assert ',' !in a by {
        forall k | 0 <= k < |a| ensures a[k] != ',' {
          assert !IsSeparator(a[k]);
        }
      }
    }
    ParseListJoin(addresses);
  }

  // ------------------------------------------------------ the host's list

  /** The list after the election at `address` was ended: the entries with
      that exact address now carry the ended flag, they differ from before
      in that flag alone, and every other entry is as it was. */
  function MarkEnded(list: seq<Election>, address: string): (r: seq<Election>)
    ensures |r| == |list|
    ensures forall i :: 0 <= i < |list| ==> r[i].(ended := list[i].ended) == list[i]
    ensures forall i :: 0 <= i < |list| && list[i].address == Some(address) ==> r[i].ended == Some(true)
    ensures forall i :: 0 <= i < |list| && list[i].address != Some(address) ==> r[i] == list[i]
  {
    seq(|list|, i requires 0 <= i < |list| =>
      if list[i].address == Some(address) then list[i].(ended := Some(true)) else list[i])
  }

  /** What marking an election ended is for: from then on its host card
      shows it as Ended with no End button, and a voter's card offers its
      results, whatever the clock says; every other card shows what it
      showed before. */
  lemma MarkEndedCards(list: seq<Election>, address: string, now: int)
    ensures var r := MarkEnded(list, address);
      forall i :: 0 <= i < |list| ==>
        if list[i].address == Some(address) then
          && CardStatus.StatusOf(r[i], now) == CardStatus.Ended
          && !HostCard.ShowEndButton(r[i], now)
          && ElectionCard.ShowViewResults(r[i], now)
        else
          && CardStatus.StatusOf(r[i], now) == CardStatus.StatusOf(list[i], now)
          && HostCard.ShowEndButton(r[i], now) == HostCard.ShowEndButton(list[i], now)
  {
  }

  /** Candidates numbered from 1 in input order, with no votes yet. */
  function Numbered(names: seq<string>): (r: seq<Candidate>)
    ensures |r| == |names|
    ensures forall i :: 0 <= i < |names| ==> r[i] == Candidate(i + 1, names[i], PLACEHOLDER_IMAGE, Some(0))
  {
    seq(|names|, i requires 0 <= i < |names| => Candidate(i + 1, names[i], PLACEHOLDER_IMAGE, Some(0)))
  }

  /** The entry the page adds for a new election at `address`: numbered one
      past the list, not ended, no votes. */
  function AppendCreated(list: seq<Election>, req: CreateRequest, address: string): (r: seq<Election>)
    ensures |r| == |list| + 1 && r[..|list|] == list
    ensures r[|list|] == Election(|list| + 1, req.title, Numbered(req.proposals), Some(address), Some(false),
                                  Some(req.startTime), Some(req.endTime), Some(req.voters), Some(0))
  {
    list + [Election(|list| + 1, req.title, Numbered(req.proposals), Some(address), Some(false),
                     Some(req.startTime), Some(req.endTime), Some(req.voters), Some(0))]
  }

  /** Candidates read from a ledger: numbered from 1 in ledger order, with
      their tallies. */
  function CandidatesOf(ps: seq<Proposal>): (r: seq<Candidate>)
    ensures |r| == |ps|
    ensures forall i :: 0 <= i < |ps| ==> r[i] == Candidate(i + 1, ps[i].name, PLACEHOLDER_IMAGE, Some(ps[i].votes))
  {
    seq(|ps|, i requires 0 <= i < |ps| => Candidate(i + 1, ps[i].name, PLACEHOLDER_IMAGE, Some(ps[i].votes)))
  }

  function AddressTexts(vs: seq<Address>): (r: seq<string>)
    ensures |r| == |vs| && forall i :: 0 <= i < |vs| ==> r[i] == HexAddress(vs[i])
  {
    seq(|vs|, i requires 0 <= i < |vs| => HexAddress(vs[i]))
  }

  /** The list entry for registry index `i`. */
  function ElectionOf(i: nat, v: ElectionView): Election {
    var d := v.details;
    Election(i + 1, d.title, CandidatesOf(v.proposals), Some(HexAddress(d.electionAddress)), Some(d.ended),
             Some(d.startTime), Some(d.endTime), Some(AddressTexts(d.allowedVoters)), None)
  }

  /** Whether the connected account (as text) owns the election. */
  predicate OwnedBy(v: ElectionView, account: string) {
    SameAccount(HexAddress(v.owner), account)
  }

  /** The entries for the first `n` registry indices owned by the account,
      in index order. */
  function MyElections(views: seq<ElectionView>, account: string, n: nat): (r: seq<Election>)
    requires n <= |views|
    ensures |r| <= n
  {
    if n == 0 then []
    else MyElections(views, account, n - 1)
         + (if OwnedBy(views[n - 1], account) then [ElectionOf(n - 1, views[n - 1])] else [])
  }

  /** An account that owns every index sees them all; one that owns none
      sees none. */
  lemma {:induction false} MyElectionsAllOrNone(views: seq<ElectionView>, account: string, n: nat)
    requires n <= |views|
    ensures (forall i :: 0 <= i < n ==> OwnedBy(views[i], account)) ==> |MyElections(views, account, n)| == n
    ensures (forall i :: 0 <= i < n ==> !OwnedBy(views[i], account)) ==> MyElections(views, account, n) == []
  {
    if n > 0 {
      MyElectionsAllOrNone(views, account, n - 1);
    }
  }

  /** Every entry of the list is the entry of a registry index below `n`
      that the account owns. */
  lemma {:induction false} MyElectionsSound(views: seq<ElectionView>, account: string, n: nat, e: Election)
    requires n <= |views|
    requires e in MyElections(views, account, n)
    ensures exists i :: 0 <= i < n && OwnedBy(views[i], account) && e == ElectionOf(i, views[i])
  {
    var prev := MyElections(views, account, n - 1);
    if e in prev {
      MyElectionsSound(views, account, n - 1, e);
    } else {
      assert OwnedBy(views[n - 1], account) && e == ElectionOf(n - 1, views[n - 1]);
    }
  }

  /** Every registry index below `n` that the account owns has its entry in
      the list. */
  lemma {:induction false} MyElectionsComplete(views: seq<ElectionView>, account: string, n: nat, i: nat)
    requires i < n <= |views|
    requires OwnedBy(views[i], account)
    ensures ElectionOf(i, views[i]) in MyElections(views, account, n)
  {
    var e := ElectionOf(i, views[i]);
    var prev := MyElections(views, account, n - 1);
    if i < n - 1 {
      MyElectionsComplete(views, account, n - 1, i);
      assert e in prev;
    } else {
      assert MyElections(views, account, n) == prev + [e];
    }
  }

  /** The list is numbered by registry index plus one, so its numbers lie
      between 1 and `n` and strictly increase. */
  lemma {:induction false} MyElectionsOrdered(views: seq<ElectionView>, account: string, n: nat)
    requires n <= |views|
    ensures forall k :: 0 <= k < |MyElections(views, account, n)| ==> 1 <= MyElections(views, account, n)[k].id <= n
    ensures forall j, k :: 0 <= j < k < |MyElections(views, account, n)| ==>
      MyElections(views, account, n)[j].id < MyElections(views, account, n)[k].id
  {
    if n > 0 {
      MyElectionsOrdered(views, account, n - 1);
      var prev := MyElections(views, account, n - 1);
      var cur := MyElections(views, account, n);
      assert cur[..|prev|] == prev;
      assert |cur| > |prev| ==> cur[|prev|].id == n;
    }
  }

  /** Loading the account's elections: nothing is loaded without a
      contract or an account, or when the registry is empty; otherwise every
      registry index is visited in order and the elections whose owner is
      the account, ignoring case, are kept, numbered by index plus one. */
  method FetchMyElections(reg: Registry, ready: bool, account: string) returns (r: Option<seq<Election>>)
    ensures !ready || account == [] || reg.ElectionCount() == 0 ==> r.None?
    ensures ready && account != [] && reg.ElectionCount() > 0 ==>
      r == Some(MyElections(reg.Views(), account, reg.ElectionCount()))
  {
    if !ready || account == [] {
      return None;
    }
    var addresses := reg.AllElections();
    if |addresses| == 0 {
      return None;
    }
    var views := reg.Views();
    var mine: seq<Election> := [];
    var i := 0;
    while i < |addresses|
      invariant 0 <= i <= |addresses| == |views|
      invariant mine == MyElections(views, account, i)
    {
      var details := reg.ElectionDetails(i).value;
      var ledger := reg.entries[i].ledger;
      var owner := HexAddress(ledger.owner);
      if Lower(owner) == Lower(account) {
        var election := Election(i + 1, details.title, CandidatesOf(ledger.proposals),
                                 Some(HexAddress(details.electionAddress)), Some(details.ended),
                                 Some(details.startTime), Some(details.endTime),
                                 Some(AddressTexts(details.allowedVoters)), None);
        assert election == ElectionOf(i, views[i]);
        mine := mine + [election];
      }
      i := i + 1;
    }
    r := Some(mine);
  }

  /** The entry the page adds right after a creation agrees with the entry a
      later load of the list gives for the same election in everything but
      the number and the vote total, when the voters were typed as lower-case
      addresses. */
  lemma CreatedEntryAgrees(list: seq<Election>, req: CreateRequest, i: nat, caller: Address, at: Address,
                           vs: seq<Address>)
    requires AddressTexts(vs) == req.voters
    ensures var v := ElectionView(Details(at, req.title, req.startTime, req.endTime, false, vs), caller,
                                  seq(|req.proposals|, k requires 0 <= k < |req.proposals| => Proposal(req.proposals[k], 0)));
      ElectionOf(i, v) == AppendCreated(list, req, HexAddress(at))[|list|].(id := i + 1, totalVotes := None)
  {
    var ps := seq(|req.proposals|, k requires 0 <= k < |req.proposals| => Proposal(req.proposals[k], 0));
    assert CandidatesOf(ps) == Numbered(req.proposals);
  }

  // ------------------------------------------------------ the host card's data

  /** The vote data handed to a host card: each candidate's name and votes,
      a missing count read as 0. */
  function VoteDataOf(candidates: seq<Candidate>): (r: seq<VoteItem>)
    ensures |r| == |candidates|
    ensures forall i :: 0 <= i < |r| ==>
      r[i] == VoteItem(candidates[i].name, if candidates[i].votes.Some? then candidates[i].votes.value else 0)
  {
    seq(|candidates|, i requires 0 <= i < |candidates| =>
      VoteItem(candidates[i].name, if candidates[i].votes.Some? then candidates[i].votes.value else 0))
  }

  lemma {:induction false} TotalOfLoaded(ps: seq<Proposal>)
    ensures HostCard.TotalVotes(VoteDataOf(CandidatesOf(ps))) == TotalVotes(ps)
  {
    if ps != [] {
      var data := VoteDataOf(CandidatesOf(ps));
      var last := |ps| - 1;
      TotalOfLoaded(ps[..last]);
      assert data[..last] == VoteDataOf(CandidatesOf(ps[..last])) by {
        assert forall k :: 0 <= k < last ==> data[k] == VoteDataOf(CandidatesOf(ps[..last]))[k];
      }
      TotalSplit(ps, last);
    }
  }

  /** The total of a ledger's tallies, split before its last proposal. */
  lemma {:induction false} TotalSplit(ps: seq<Proposal>, last: nat)
    requires last + 1 == |ps|
    ensures TotalVotes(ps) == TotalVotes(ps[..last]) + ps[last].votes
  {
    if last > 0 {
      TotalSplit(ps[1..], last - 1);
      assert ps[1..][..last - 1] == ps[..last][1..];
    }
  }

  /** The vote total a host card shows for a loaded election is the number
      of accounts that have voted in it. */
  lemma HostCardTotal(l: ElectionLedger)
    requires l.Valid()
    ensures HostCard.TotalVotes(VoteDataOf(CandidatesOf(l.proposals))) == |l.Voters()|
  {
    TotalOfLoaded(l.proposals);
  }
}
