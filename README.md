# Election dApp: ledger, registry and client logic

A model of the voting system's core:

- the **election ledger**, one per election, as its test suite exercises it:
  - a fixed list of proposals, each with a name and a tally;
  - a list of allowed voter accounts;
  - a voting window, the `ended` flag, and the owner;
  - `canVote` (status codes 0 to 3), `vote` (one vote per listed account,
    refused with the single message "Unable to vote"), `getProposalVotes`,
    and `endVote`;
- the **registry** (the factory contract): it creates ledgers, lists their
  addresses, and returns the details of the ledger at an index;
- the **client logic** of the two creation pages (`Election/page.tsx` and
  `createElection/page.tsx`):
  - checking the creation form;
  - splitting the comma-separated proposal and voter fields;
  - the duration preview;
  - importing voter addresses from a file;
  - the fallback meant to find a new election's address when the creation
    notification cannot be read, which as written never finds one;
  - the "my elections" loop, which keeps the registry entries whose owner
    matches the connected account, ignoring case;
  - the vote-eligibility debug report;
- the **cards and the dashboard**:
  - the status of a host card and an election card (Active, Ending Soon,
    Ended, Upcoming) and their time texts;
  - the counter animation and chart data of the vote dashboard;
  - the initials and avatar colour of a candidate card.

Modules:

- `Ledger` and `Factory` hold the chain side as classes whose methods update
  their fields.
- `LedgerScenarios` replays the two test suites against the ledger.
- `Creation` is shared by both pages.
- `ElectionPage` and `CreateElectionPage` hold the two pages.
- `HostCard`, `ElectionCard`, `CardStatus`, `VoteCountDashboard` and
  `CandidateCard` hold the components.
- `JsString`, `AddressText` and `ListInput` model the JavaScript string
  built-ins the pages rely on, as used there:
  - `trim` and `split`;
  - `join`;
  - `toLowerCase` and `toUpperCase`;
  - `parseInt`;
  - address text.

Modelling conventions:

- Accounts are 160-bit numbers on the chain side. The client compares them
  as lower-case `0x` hex text.
- Chain times are seconds. Form times are milliseconds.
- The clock, the wallet and the notification read-back are parameters.

## Model

| member | source | states |
|---|---|---|
| Ledger.VoteStatus.Code | contract/test/Election.ts:48-101 | the status code is one of 0..3, and it is 0 exactly when the vote is allowed |
| Ledger.Find | contract/test/Election.ts:150-154 | the index of the first proposal with the name; none exactly when no proposal has that name |
| Ledger.VotesOf | contract/test/Election.ts:150-154 | no tally exactly when no proposal has the name; otherwise the tally of a proposal with that name |
| Ledger.AddVote | contract/test/Election.ts:131-154 | one vote keeps the length and every name, adds one to the chosen proposal and leaves every other proposal as it was |
| Ledger.AddVoteTally | contract/test/Election.ts:131-154 | after a vote for a name, that name's tally read back is one more and every other name's tally is unchanged |
| Ledger.AddVoteTotal | contract/test/Election.ts:131-154 | a vote adds exactly one to the sum of all tallies |
| Ledger.MarkVoted | contract/test/Election.ts:84-101 | recording a first vote adds exactly that account to the set of voters, so the set grows by one |
| Ledger.CheckElection | contract/test/Election.ts:15-37 | a creation is accepted exactly when there is at least one proposal, the names are distinct, there is at least one voter and start is before end |
| Ledger.FindByNames | contract/test/Election.ts:150-154 | looking a proposal up depends only on the names, not on the tallies |
| Ledger.ElectionLedger.constructor | contract/test/Election.ts:15-37 | a fresh ledger holds the given owner, names, voters and window; every tally is 0; nobody has voted; it has not ended |
| Ledger.ElectionLedger.ProposalVotes | contract/test/Election.ts:150-154 | `getProposalVotes`: no value exactly when the name is not a proposal, otherwise that proposal's tally |
| Ledger.ElectionLedger.CanVote | contract/test/Election.ts:48-101 | the status is NotRegistered, AlreadyVoted, InvalidProposal or CanVote, checked in that order, each exactly under its condition |
| Ledger.ElectionLedger.Vote | contract/test/Election.ts:39-101 | the vote passes exactly when `canVote` gives 0 and the window is open. A refusal carries "Unable to vote" and changes nothing. A pass adds one to the named proposal and marks the caller as having voted. No other account's voted flag changes, and `ended` is kept |
| Ledger.ElectionLedger.EndVote | Frontend/src/app/Election/page.tsx:379-411 | only the owner may end, and only once; `ended` never goes back to false |
| LedgerScenarios.Deploy | contract/test/Election.ts:15-37 | the suites' deployment: three proposals at 0, four listed voters, a one-day window starting now, owner account 0 |
| LedgerScenarios.VoteTests | contract/test/Election.ts:41-102 | the "Vote tests" suite yields status codes 0, 1, 3, 0, 2, with the 2nd, 3rd and 5th calls refused with "Unable to vote" |
| LedgerScenarios.GetterTests | contract/test/Election.ts:104-155 | "Election getters": not ended after deployment; after two votes for A the tallies read 2, 0, 0 |
| LedgerScenarios.EndTests | Frontend/src/app/Election/page.tsx:379-411 | a stranger cannot end the election; the owner ends it once; a second end is refused; a vote after ending is refused |
| Factory.Registry.AllElections | Frontend/src/app/Election/page.tsx:110-121 | `getAllElections`: one address per created ledger, in creation order |
| Factory.Registry.ElectionDetails | Frontend/src/app/Election/page.tsx:122-124 | `getElectionDetails(i)` answers exactly for 0 <= i < count, with the entry's ledger address, title and window, and the ledger's ended flag and voter list |
| Factory.Registry.Views | Frontend/src/app/Election/page.tsx:121-145 | what the client reads per index: the details, and the owner and proposals of that index's ledger |
| Factory.Registry.CreateElection | Frontend/src/app/Election/page.tsx:251-258 | refused, with nothing added, exactly when the ledger's creation check fails; otherwise one entry is appended with the request's title and window and a new ledger owned by the caller, the earlier entries kept, and the notification carries its address, title and window |
| AddressText.HexAddress | Frontend/src/app/Election/page.tsx:134-136 | an address as text: "0x" and 40 hex digits, already lower case |
| AddressText.ParseAddress | Frontend/src/app/Election/page.tsx:251-258 | voter text is taken as an address exactly when it is "0x" and 40 hexadecimal digits, and then it names the address whose text is the voter text in lower case |
| AddressText.HexDigitsOfValue | Frontend/src/app/Election/page.tsx:251-258 | hexadecimal digits read as a number and written back come out as the same digits in lower case |
| AddressText.ParseHexAddress | Frontend/src/app/Election/page.tsx:251-258 | the text form of an address reads back as the same address |
| AddressText.HexAddressInjective | Frontend/src/app/Election/page.tsx:134-136 | two addresses have the same text exactly when they are equal |
| AddressText.SameAccountAsOwner | Frontend/src/app/Election/page.tsx:136 | the case-insensitive owner comparison holds exactly when the lower-cased account is the owner's text, i.e. names the owner's address |
| ListInput.ParseList | Frontend/src/app/Election/page.tsx:245-246 | splitting on commas and trimming gives one item per comma plus one, each without commas or surrounding blanks |
| ListInput.ParseListJoin | Frontend/src/app/Election/page.tsx:245-246 | items without commas or surrounding blanks, joined with ", ", read back as the same items |
| JsString.Split | Frontend/src/components/CandidateCard.tsx:21-27 | `split` gives one more part than there are separators, none containing the separator |
| JsString.JoinSplit | Frontend/src/components/CandidateCard.tsx:21-27 | joining the parts of a split with the separator gives back the string |
| JsString.SplitJoin | Frontend/src/components/CandidateCard.tsx:21-27 | splitting a join of parts without the separator gives back the parts |
| JsString.Trim | Frontend/src/app/Election/page.tsx:245-246 | `trim` leaves no white space at either end |
| JsString.TrimOfPadded | Frontend/src/app/Election/page.tsx:245-246 | trimming white space around a body gives back the body |
| JsString.TrimIdempotent | Frontend/src/app/Election/page.tsx:245-246 | trimming twice is trimming once |
| JsString.ParseInt | Frontend/src/app/createElection/page.tsx:297 | `parseInt` without a radix: blank text gives NaN; a result is negative only after a leading "-"; text starting with a decimal digit not followed by "x" gives a number. `ParseIntOfNatToString` pins the value for decimal text |
| JsString.ParseIntOfNatToString | Frontend/src/app/createElection/page.tsx:297 | `parseInt` reads the decimal text of a number back as that number |
| Creation.ParseAll | Frontend/src/app/Election/page.tsx:251-258 | the voter texts convert exactly when every one of them is an address, giving the addresses in order |
| Creation.Minus | Frontend/src/app/Election/page.tsx:295-296 | JavaScript subtraction: two BigInts or two Numbers subtract, and a BigInt mixed with a Number is a TypeError |
| Creation.DetailsAt | Frontend/src/app/Election/page.tsx:292-300 | a failed index computation makes no call; the BigInt index count-1 would read the latest election |
| Creation.LatestAddress | Frontend/src/app/Election/page.tsx:292-300 | the fallback finds no address for any registry, because `count - 1` mixes the BigInt count with a Number and throws |
| Creation.ResolveAddress | Frontend/src/app/Election/page.tsx:266-300 | the address from the notification when there is one, and otherwise the fallback's, which is always empty |
| Creation.Submit | Frontend/src/app/Election/page.tsx:244-300 | a bad voter text stops the call; a refused request changes nothing; an accepted one keeps the earlier entries and appends one for the request, owned by the caller at the new address, open to exactly the parsed voters and with nobody voted yet, and reports that address only when the notification was read, no address otherwise |
| ElectionPage.FormError.Message | Frontend/src/app/Election/page.tsx:204-238 | each form error has its own non-empty status line |
| ElectionPage.TruncDiv | Frontend/src/app/Election/page.tsx:234 | a whole-unit difference rounds toward zero for both signs |
| ElectionPage.WholeUnits | Frontend/src/app/Election/page.tsx:234 | a non-negative difference is under one hour exactly when it is under 3600000 ms |
| ElectionPage.FormProblem | Frontend/src/app/Election/page.tsx:204-238 | the first failing check in the page's order: no contract, a missing field, a start in the past, an end before the start, less than one hour; none exactly when all pass |
| ElectionPage.ValidateForm | Frontend/src/app/Election/page.tsx:204-249 | rejected exactly when a check fails, with that error; otherwise the request carries the title, the parsed lists and the times in whole seconds |
| ElectionPage.AcceptedFormWindow | Frontend/src/app/Election/page.tsx:217-249 | an accepted request starts no earlier than the current second, lasts at least 3600 s and has at least one proposal and one voter, so the factory can refuse it only for a repeated proposal name |
| ElectionPage.HandleElection | Frontend/src/app/Election/page.tsx:201-356 | a rejected form sends nothing; a failed send changes neither the registry nor the list; an accepted one appends the registry entry for the request (its title, window, names, owner, address and exactly the parsed voters, with nobody voted yet), and then either appends the new election to the list under the address from the notification, or, with no notification, ends as "address not captured" with the list unchanged |
| ElectionPage.PeriodOf | Frontend/src/app/Election/page.tsx:437-463 | a minute difference splits into negative, minutes under 60, hours under a day with minutes, or days with hours under 24, recombining to the difference |
| ElectionPage.CalculatePeriod | Frontend/src/app/Election/page.tsx:437-463 | `calculatePeriod`: the error text exactly when the end is a whole minute or more before the start. `PeriodOf` gives the shape of every other preview, and `CalculatePeriodNearZero` gives the sub-minute case |
| ElectionPage.CalculatePeriodNearZero | Frontend/src/app/Election/page.tsx:437-445 | an end less than a minute before the start previews as "0 minutes"; a full minute or more before gives the error text |
| ElectionPage.DropSeparators | Frontend/src/app/Election/page.tsx:786-789 | leading separators are removed |
| ElectionPage.SplitRuns | Frontend/src/app/Election/page.tsx:787 | at least one piece, none holding a separator, only the first and last possibly empty |
| ElectionPage.DropRun | Frontend/src/app/Election/page.tsx:787 | dropping a run of separators before text that does not start with one leaves exactly that text |
| ElectionPage.SplitRunsPlain | Frontend/src/app/Election/page.tsx:787 | text without separators is one piece |
| ElectionPage.SplitRunsAfter | Frontend/src/app/Election/page.tsx:787 | a piece, a run of separators and the rest split as that piece followed by the split of the rest |
| ElectionPage.SplitRunsGlue | Frontend/src/app/Election/page.tsx:787 | pieces without separators glued by non-empty separator runs, empty only at either end, split back into exactly those pieces |
| ElectionPage.SplitRunsConcat | Frontend/src/app/Election/page.tsx:786-789 | the pieces, put back together, are the file with every separator removed |
| ElectionPage.KeepAddresses | Frontend/src/app/Election/page.tsx:789 | a token is kept exactly when it starts with "0x" and has 42 characters; a single token is kept exactly when it looks like an address |
| ElectionPage.KeepAddressesAppend | Frontend/src/app/Election/page.tsx:789 | filtering two lists in a row keeps the first list's tokens, then the second's, in order and with every copy |
| ElectionPage.ImportedAddresses | Frontend/src/app/Election/page.tsx:786-789 | every imported token looks like an address |
| ElectionPage.ImportedOfGlue | Frontend/src/app/Election/page.tsx:786-789 | a file of tokens between runs of separators imports exactly its address-like tokens, in file order |
| ElectionPage.ImportedLines | Frontend/src/app/Election/page.tsx:786-789 | two addresses on two lines import as those two addresses |
| ElectionPage.ImportedPlain | Frontend/src/app/Election/page.tsx:786-789 | no imported token holds a comma or white space |
| ElectionPage.TrimmedPieces | Frontend/src/app/Election/page.tsx:788 | the `trim` after the split changes nothing |
| ElectionPage.ImportVoterFile | Frontend/src/app/Election/page.tsx:786-799 | no address gives a warning and keeps the field; otherwise the field is set so that the form reads back exactly the imported addresses (which ImportedOfGlue ties to the file's tokens), and the status line gives their count and the file name |
| ElectionPage.ImportedItems | Frontend/src/app/Election/page.tsx:798 | address tokens joined with ", " read back, through the form's split, as the same tokens |
| ElectionPage.MarkEnded | Frontend/src/app/Election/page.tsx:404-411 | the entries with that address become ended and change in that flag alone; every other entry is unchanged |
| ElectionPage.MarkEndedCards | Frontend/src/app/Election/page.tsx:404-411 | after ending, that election's host card shows Ended with no End button and its voter card offers results, whatever the clock; every other card shows what it showed before |
| ElectionPage.Numbered | Frontend/src/app/Election/page.tsx:319-324 | the candidates of a new election are numbered from 1, with the placeholder image and 0 votes |
| ElectionPage.AppendCreated | Frontend/src/app/Election/page.tsx:314-332 | the list gains exactly one entry, numbered after the others, carrying the request and the address |
| ElectionPage.CandidatesOf | Frontend/src/app/Election/page.tsx:138-145 | loaded proposals become candidates numbered from 1, carrying their tallies |
| ElectionPage.AddressTexts | Frontend/src/app/Election/page.tsx:170 | each allowed voter as address text, in order |
| ElectionPage.MyElections | Frontend/src/app/Election/page.tsx:121-175 | the account's elections among the first n indices number at most n. `MyElectionsAllOrNone`, `MyElectionsSound`, `MyElectionsComplete` and `MyElectionsOrdered` give which ones and in what order |
| ElectionPage.MyElectionsAllOrNone | Frontend/src/app/Election/page.tsx:121-175 | an account owning every index sees all of them; an account owning none sees none |
| ElectionPage.MyElectionsSound | Frontend/src/app/Election/page.tsx:121-175 | every election in "my elections" comes from an index whose owner is the account |
| ElectionPage.MyElectionsComplete | Frontend/src/app/Election/page.tsx:121-175 | every index whose owner is the account appears in "my elections" |
| ElectionPage.MyElectionsOrdered | Frontend/src/app/Election/page.tsx:121-175 | the kept elections are numbered within 1..count, in increasing order |
| ElectionPage.FetchMyElections | Frontend/src/app/Election/page.tsx:101-181 | with no contract, no account or an empty registry, nothing is loaded; otherwise the loop gives exactly the account's elections |
| ElectionPage.CreatedEntryAgrees | Frontend/src/app/Election/page.tsx:162-172 | the entry added after a creation equals what a reload reads for the same election, apart from its number and total |
| ElectionPage.VoteDataOf | Frontend/src/app/Election/page.tsx:615 | each candidate's name and votes, a missing count read as 0 |
| ElectionPage.TotalOfLoaded | Frontend/src/components/HostCard.tsx:85 | the host card's total over loaded proposals is the sum of the ledger's tallies |
| ElectionPage.TotalSplit | Frontend/src/components/HostCard.tsx:85 | the sum of the tallies is the sum before an index plus the tally at it |
| ElectionPage.HostCardTotal | Frontend/src/components/HostCard.tsx:85 | the host card's total equals the number of accounts that have voted |
| CardStatus.Status.Label | Frontend/src/components/HostCard.tsx:76-82 | each status has a non-empty label |
| CardStatus.OrDefault | Frontend/src/components/HostCard.tsx:31-32 | a missing or zero time falls back to the default |
| CardStatus.ClockOf | Frontend/src/components/HostCard.tsx:30-35 | a missing end is now plus one day; a missing start is now |
| CardStatus.Classify | Frontend/src/components/HostCard.tsx:41-50 | Ended exactly when flagged or past the end; Ending exactly when under 3 hours remain; Upcoming exactly before the start otherwise; Active in the remaining case |
| CardStatus.StatusOf | Frontend/src/components/ElectionCard.tsx:42-51 | the ended flag forces Ended; Ended exactly when flagged or past the end |
| CardStatus.MissingTimesActive | Frontend/src/components/ElectionCard.tsx:29-51 | an election with neither time set and not flagged as ended is Active |
| CardStatus.RemainingOf | Frontend/src/components/ElectionCard.tsx:57-70 | closed exactly when Ended; not yet exactly when Upcoming; days shown from 25 hours on; otherwise hours and minutes that recombine to the remaining time |
| CardStatus.RemainingText | Frontend/src/components/ElectionCard.tsx:57-70 | "Voting closed", the start text, or a text ending in "remaining" |
| HostCard.TimeText | Frontend/src/components/HostCard.tsx:53-66 | "Voting closed" exactly when Ended; "Starts soon" when Upcoming |
| HostCard.ShowEndButton | Frontend/src/components/HostCard.tsx:273 | the End button shows exactly when the status is not Ended |
| HostCard.TotalVotes | Frontend/src/components/HostCard.tsx:85 | `totalVotes`: with no negative count, the total is not negative and is at least every single count. `HostCardTotal` shows that it equals the number of accounts that voted |
| ElectionCard.TimeText | Frontend/src/components/ElectionCard.tsx:57-70 | "Voting closed" exactly when the card is ended; "Starts " and the start when Upcoming |
| ElectionCard.IsEnded | Frontend/src/components/ElectionCard.tsx:54 | `isEnded` holds exactly when the election is flagged as ended or is past its end, as `StatusOf` decides |
| ElectionCard.CanSelect | Frontend/src/components/ElectionCard.tsx:108 | a card selects only when not ended, not voted and started |
| ElectionCard.ShowViewResults | Frontend/src/components/ElectionCard.tsx:210-232 | results are offered exactly when the election is flagged ended or past its end |
| ElectionCard.ChipLabel | Frontend/src/components/ElectionCard.tsx:120 | "Not Started" when not started, otherwise the status label |
| VoteCountDashboard.Targets | Frontend/src/components/VoteCountDashboard.tsx:35 | each counter's target: the item's votes, 0 when absent |
| VoteCountDashboard.StepOne | Frontend/src/components/VoteCountDashboard.tsx:36-40 | a counter below its target moves up without passing it; any other counter becomes the target |
| VoteCountDashboard.GapShrinks | Frontend/src/components/VoteCountDashboard.tsx:36-40 | a step never widens the total gap to the targets and narrows one counter's gap |
| VoteCountDashboard.Tick | Frontend/src/components/VoteCountDashboard.tsx:30-44 | one interval tick steps every counter; it reports completion exactly when every counter had reached its target |
| VoteCountDashboard.Animate | Frontend/src/components/VoteCountDashboard.tsx:22-44 | from all zeros the ticks stop with every counter at its target, within the initial gap plus one ticks |
| VoteCountDashboard.ChartData | Frontend/src/components/VoteCountDashboard.tsx:63-68 | one chart entry per item, with its name, votes, counter and the colour by index modulo 8 |
| VoteCountDashboard.ChartSettles | Frontend/src/components/VoteCountDashboard.tsx:63-68 | once the animation has finished, every chart entry displays the item's votes |
| CandidateCard.FirstChars | Frontend/src/components/CandidateCard.tsx:24 | at most one character per part, and exactly one when no part is empty |
| CandidateCard.Initials | Frontend/src/components/CandidateCard.tsx:21-27 | at most one initial per space plus one |
| CandidateCard.InitialsEmpty | Frontend/src/components/CandidateCard.tsx:21-27 | no initials exactly when the name is made only of spaces |
| CandidateCard.InitialsOfWords | Frontend/src/components/CandidateCard.tsx:21-27 | words separated by single spaces give one initial each, the upper case of the word's first character |
| CandidateCard.FirstCharsOfWords | Frontend/src/components/CandidateCard.tsx:24 | non-empty parts give their first characters, in order |
| CandidateCard.Utf16 | Frontend/src/components/CandidateCard.tsx:42-43 | the code units are 16-bit values, at least one per character |
| CandidateCard.ToInt32 | Frontend/src/components/CandidateCard.tsx:43 | a signed 32-bit value congruent to the input modulo 2^32 |
| CandidateCard.ShiftLeft5 | Frontend/src/components/CandidateCard.tsx:43 | `<< 5` yields a signed 32-bit value |
| CandidateCard.ColorOf | Frontend/src/components/CandidateCard.tsx:46 | the colour is one of the 16 avatar colours, and the first one for the empty name |
| CandidateCard.HashBound | Frontend/src/components/CandidateCard.tsx:42-44 | each unit moves the hash by less than 2^31 + 2^16 |
| CandidateCard.AvatarColor | Frontend/src/components/CandidateCard.tsx:33-47 | the loop computes the colour of the name's hash, a colour from the list |
| CreateElectionPage.BoolText | Frontend/src/app/createElection/page.tsx:78-82 | the text is "true" exactly for true |
| CreateElectionPage.StatusLine | Frontend/src/app/createElection/page.tsx:109-115 | "Status: Unknown" exactly outside 0..3; "Status: Can vote" exactly for 0 |
| CreateElectionPage.StatusLineOfCode | Frontend/src/app/createElection/page.tsx:106-115 | a ledger status never gives "Status: Unknown", and gives "Status: Can vote" exactly when the vote is allowed |
| CreateElectionPage.Labelled | Frontend/src/app/createElection/page.tsx:78-107 | a report line begins with its heading |
| CreateElectionPage.ProposalLine | Frontend/src/app/createElection/page.tsx:84-90 | the proposal line reads "Proposal exists, current votes: " exactly when the tally could be read |
| CreateElectionPage.ReadingOf | Frontend/src/app/createElection/page.tsx:77-107 | what the report reads from the ledger: registration, voted flag, tally, window, ended flag and status code |
| CreateElectionPage.ReportLines | Frontend/src/app/createElection/page.tsx:78-115 | the report has ten lines |
| CreateElectionPage.TrueLine | Frontend/src/app/createElection/page.tsx:78-82 | a flag line reads "true" exactly when the flag holds |
| CreateElectionPage.IsActive | Frontend/src/app/createElection/page.tsx:103 | the report's "Is active" holds only for an unended election with a non-empty window. `ReportFlags` ties the line to it, and `ReportPredictsVote` ties it to the ledger's open window |
| CreateElectionPage.ReportFlags | Frontend/src/app/createElection/page.tsx:78-103 | the registered, voted and "Is active" lines read "true" exactly when those facts hold |
| CreateElectionPage.ReportVerdict | Frontend/src/app/createElection/page.tsx:84-115 | the proposal line shows a tally exactly when there is one; the last line is "Status: Can vote" exactly for code 0 |
| CreateElectionPage.ReportPredictsVote | Frontend/src/app/createElection/page.tsx:64-121 | read together, the report's lines say exactly whether a vote by the account for the name would pass now |
| CreateElectionPage.AppendText | Frontend/src/app/createElection/page.tsx:78-115 | two lines with the same heading are equal exactly when their values are |
| CreateElectionPage.CheckVoteEligibility | Frontend/src/app/createElection/page.tsx:64-121 | without a wallet, the wallet error; otherwise the report, line by line |
| CreateElectionPage.HandleDebugCheck | Frontend/src/app/createElection/page.tsx:234-241 | a missing address or name gives the prompt; otherwise the eligibility check runs, or its error text when the address has no election |
| CreateElectionPage.DurationInput | Frontend/src/app/createElection/page.tsx:297 | the typed number of hours, 24 when it is not a number or is 0 |
| CreateElectionPage.DurationOfNumber | Frontend/src/app/createElection/page.tsx:297 | typing a number gives that number, and 0 gives 24 |
| CreateElectionPage.CreateRequestOf | Frontend/src/app/createElection/page.tsx:124-146 | no contract, then a missing field, each exactly under its condition; a request exactly for a ready, filled form, carrying the parsed lists, starting at the current second and ending the chosen hours later |
| CreateElectionPage.DurationWindow | Frontend/src/app/createElection/page.tsx:141-146 | the window is non-empty exactly for a positive number of hours; a request with negative hours would be refused by the factory as an empty window, though on the page the field's `min="1"` stops such a form from being submitted |
| CreateElectionPage.HandleCreateElection | Frontend/src/app/createElection/page.tsx:124-231 | a rejected form changes nothing; a failed send shows "Error: " and the message; an accepted request appends the registry entry for the request (its title, window, names, owner, address and exactly the parsed voters, with nobody voted yet), and then either reports the new address from the notification and fills the debug inputs with it and the first proposal, or, with no notification, shows "Election created but address not captured" and leaves the debug inputs alone |

## Left out

- HTML constraint validation is not modelled. The duration field's
  `min="1"` (`createElection/page.tsx:294-300`) makes the browser block a
  submission with fewer than 1 hour, so on the page
  `CreateElectionPage.HandleCreateElection` is only reached with positive
  hours; the model accepts any hours and lets the factory's window check
  refuse a negative duration.
- The ledger and registry contract sources are not part of this model.
  Their behaviour comes from the test suite and the client calls. Some
  points are assumptions:
  - the creation checks in `Ledger.CheckElection`;
  - the order of the checks in `canVote`;
  - the voting window check in `vote`;
  - the owner-only and once-only rules of `endVote`.
- Gas, transaction hashes, receipts and event topics are not modelled.
  Wallet connection and RPC failures are not modelled either. Whether the
  creation notification is read is a parameter, and a failed send is an
  error value.
- The clock is a parameter. The locale date texts (`toLocaleString`, dayjs
  formats) are parameters or left out.
- Percentages, progress bars, chart widths and colours are not modelled,
  because they are floating-point or presentation only.
- Case mapping covers ASCII only. The EIP-55 checksum form of addresses is
  not modelled: the model writes addresses in lower case, including the
  address a creation notification carries.
- ParseAddress: accepts mixed-case text whose EIP-55 checksum is wrong,
  which the contract call refuses. The checksum needs Keccak-256, which is
  not modelled.
- JavaScript `length` and `[i]` count UTF-16 code units, while a Dafny
  `char` is a whole Unicode scalar value. So the model's `IsAddressToken`
  length and the first letter `CandidateCard.FirstChars` takes differ from
  the source for characters outside the Basic Multilingual Plane. Only
  `CandidateCard.Utf16` counts code units.
- JavaScript numbers are modelled as unbounded integers. `HashBound` gives
  the range where they stay exact.
- Lone surrogates in names are not modelled.
- The intermediate status lines are not modelled: "Creating election...",
  "Transaction submitted: …" and the status colours.
- The form reset after creation is not modelled.
- Of the wallet-specific error messages, only the generic "Error: " form is
  modelled: not "unknown account", "insufficient funds" or "user rejected".
- `CreateElectionPage.CheckVoteEligibility`: the report is built with `+=`
  in the source. The model builds it as a join of its lines with newlines.
- `VoteCountDashboard.Animate`: the 50 ms interval is a loop. The model
  assumes the state updater runs before `completed` is read.
- `HostCard.TimeText`: `formatTimeRemaining` is defined in the host card
  but never rendered.
- `ElectionPage.DropSeparators`: the contract does not state that the
  result is a suffix of the input.
- `Ledger.ElectionLedger.Vote`: the frame property "every other name's
  tally read back is unchanged" is stated by `Ledger.AddVoteTally`, not on
  `Vote` itself.
- `ElectionPage.FetchMyElections`: an index whose reads fail is skipped in
  the source. The model's registry reads never fail.
- The site/ Python service, the ignition deployment and the voting page
  are not part of this model.
