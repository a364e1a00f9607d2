# DayPilot: a verified model of its ledgers, machines and lifecycles

DayPilot is a workspace of FastAPI services over a relational database. Most of it moves data between a
client and a table. This project models the parts that compute or that keep state over many calls, and proves
what holds for every input and every run. For the credits, the event stream, profile updates and the first draft
of a day that includes every interleaving of requests; elsewhere calls run one after another.

The database is a sequence or map of rows with unique ids. A request that raises leaves everything as it was,
because its session is rolled back. A class of the source whose fields change is a Dafny class; each of its
methods is proved equal to a specification function on values, and the theorems are about that function and
about runs of calls. `dafny verify dfyconfig.toml` checks everything.

| files | what they model |
|---|---|
| `Lex`, `Sequences` | string order and sequence helpers |
| `Timestamps`, `Json`, `Base64Url`, `CursorCodec` | opaque page cursors: a sort value and an id as compact JSON in base64url |
| `Keyset`, `Traversal` | one page of a listing, and whole traversals while other clients change the table |
| `EventTail` | the event table, its server-sent stream, and a client that disconnects and resumes |
| `PyText`, `TextNormaliser`, `TextLayout` | `finish`: cleaning, wrapping, limits |
| `HtmlOutline`, `HtmlTree`, `HtmlWidth` | the tag-and-text machine that turns a page into an outline |
| `Credits`, `CreditsConcurrent` | AI credits, one request after another, and as transactions whose statements interleave |
| `DayPlan` | the plan of a day, its states, its wrap-up and its events |
| `Transactions`, `ProfileConcurrent`, `DayPlanConcurrent` | requests whose reads and commits interleave: profile updates, and first drafts of one date |
| `Schedule` | working windows and the overlap check |
| `Profile`, `Observations` | optimistic profile revisions, legacy import, onboarding, consented learning |
| `Identity` | login lockout and server-side sessions |
| `DeckContract`, `DeckValidator` | the deck contract, declaratively and as the validator runs |
| `DocumentVersions` | generated documents as versions of a lineage |

## What the code does not keep

Where a promise of the code or of its documentation is false, the model follows the code, names an input, and
proves exactly when the promise holds.

- `events.py` says that a client that resumes "never misses" an event. Numbers are assigned before the commit, so
  an event can become visible behind the number the client has seen, and is then never delivered
  (`EventTail.LateCommitExample`, `EventTail.MissedForGood`). The log is exact if and only if no step of the run
  passes over an event (`EventTail.TailTheorem`), as in every run where events become visible in the order of
  their numbers (`EventTail.ResumeNeverMisses`).
- `pagination.py` calls `updated_at` monotonic. It grows, but a row changed during a traversal sorted by it,
  latest change first, moves to the front of the listing, behind the cursor, and is not listed
  (`Traversal.SkipExample`). A row that stays in the table is listed if and only if it never falls behind: no
  fetch leaves it ahead, after its page, for the next fetch to find it behind the cursor of that page. Oldest
  change first, a row that stays is listed, and listed twice if and only if it comes again
  (`Traversal.ListedExactly`, `Traversal.RepeatedExactly`, `Traversal.GrowingTraversal`).
- The outline of a page is meant to hold its text outside the skipped elements. `embed` is among the skipped tags
  but has no end tag, so all text after an `<embed>` is lost (`HtmlTree.EmbedExample`). The outline is complete if
  and only if no visible text follows a skipped tag that is never closed (`HtmlTree.OutlineIsComplete`).
- 500 characters are "the longest label a dmind topic can hold", and indents of an outline are at most twelve
  levels. But control characters and byte-order marks are removed after the indents were chosen, so the spaces
  between them become an indent of any width (`HtmlWidth.ControlsExample`). The limit holds for all documents over
  an alphabet if and only if the alphabet lacks such characters, or white space, or visible characters
  (`HtmlWidth.OutlineFitsExactly`). For `finish` itself a line can always be kept within 500 characters if and
  only if its indent is at most 460 (`TextLayout.IndentLimit`); text by text, `TextLayout.TextFitsExactly` says
  which outputs fit.
- "Overlapping/inverted work windows" are to be rejected, but times are compared as strings, and the pattern for
  HH:MM also accepts non-ASCII digits and a final newline. With an Arabic-Indic digit an overlapping schedule is
  accepted (`Schedule.ForeignDigitExample`), and so is a window that ends before it starts, 09:04 to 09:03
  (`Schedule.InvertedWindowExample`). Over a set of times schedules are judged by the clock if and only if string
  order is clock order in that set (`Schedule.OverlapsJudgedExactly`), and so are single windows
  (`Schedule.WindowsJudgedExactly`). The canonical times are such a set, and with one further time if and only if
  that is canonical too (`Schedule.CanonicalAndOneMore`).
- A stale If-Match is to be refused. The revision is compared in the program, not in the UPDATE, so two overlapping
  requests with one revision can both be accepted, and the later one overwrites the earlier. At most one writer of
  each revision is accepted if and only if no request commits between the read and the commit of another
  (`ProfileConcurrent.OneWinnerExactly`); serial runs keep the promise (`Profile.WinnersHoldDifferentRevisions`).
- A date has one plan in every serial run (`DayPlan.RunInvariant`), but no unique key says so. With overlapping
  requests it gets a second one if and only if two that commit have both looked before the first commit
  (`DayPlanConcurrent.SecondPlanExactly`), and from then on every lookup fails (`DayPlanConcurrent.LookupsFail`).
- One credit refill a month is promised "at the start of each month". Every run has at most one in any month if
  and only if the clock never returns to a month it has left (`Credits.OneRefillExactly`); it may otherwise step
  back (`Credits.BackwardClockExample` returns).

## Model

| member | source | states |
|---|---|---|
| `Base64Url.RoundTrip` | services/api-gateway/app/pagination.py:35-40 | decoding the URL-safe base64 text of any bytes gives those bytes |
| `Base64Url.TestVectors` | services/api-gateway/app/pagination.py:35 | the encoder produces test vectors of section 10 of RFC 4648, and `-` and `_` for the two URL-safe digits |
| `Base64Url.UnpaddedRoundTrip` | services/api-gateway/app/mail_oauth.py:113-118 | stripping the padding leaves no `=`; restoring `-len % 4` of them gives the same text, so an unpadded token decodes to the original bytes |
| `Base64Url.EncodedShape` | services/api-gateway/app/mail_oauth.py:200-210 | every encoding is a body whose length is not one more than a multiple of four, followed by exactly `-len % 4` padding characters |
| `Base64Url.DigitsDecodeExactly` | services/api-gateway/app/pagination.py:40 | a text of base64 digits and padding decodes if and only if the digits are whole groups of four, or the last group has two or three and is padded to four |
| `Json.RoundTrip` | services/api-gateway/app/pagination.py:34-41 | loading the compact JSON text of a value (null, booleans, integers, strings with every escape, nested arrays and objects) gives that value |
| `Json.NumberTexts` | services/api-gateway/app/pagination.py:34 | the texts of zero, of a digit and of a negative number |
| `Json.WriteIsAscii` | services/api-gateway/app/pagination.py:34-35 | compact JSON text is ASCII, so it encodes to one byte a character |
| `Timestamps.IsoRoundTrip` | services/api-gateway/app/pagination.py:31-43 | `fromisoformat(t.isoformat())` is `t`, with and without a fraction of a second, and with and without an offset |
| `Timestamps.IsoTextOnly` | services/api-gateway/app/pagination.py:41-43 | a text is read as a timestamp only if it is the `isoformat` of that timestamp, but for a fraction of zeros and the offset `-00:00` |
| `Timestamps.OffsetTexts` | services/api-gateway/app/pagination.py:31 | the texts of three offsets |
| `Timestamps.NextDayIsLater` | services/api-gateway/app/pagination.py:79-91 | timestamps are compared as points in time: the next day is exactly one day later, over month ends and leap years, at every offset |
| `Timestamps.NextDayIsADate` | services/api-gateway/app/pagination.py:79-91 | every date has a next one but the last of the year 9999 |
| `Timestamps.CalendarExactly` | services/api-gateway/app/pagination.py:79-91 | the days before a year are those of the Gregorian calendar |
| `Timestamps.RankExactly` | services/api-gateway/app/pagination.py:79-91 | the point in time in microseconds of UTC, where a timestamp without an offset is in UTC |
| `Timestamps.RankInjective` | services/api-gateway/app/pagination.py:79-91 | timestamps of one offset that are the same point in time are equal |
| `CursorCodec.RoundTrip` | services/api-gateway/app/pagination.py:29-46 | a cursor decodes to exactly the sort value (timestamp, with its offset if it has one, or raw JSON) and id it was made from |
| `CursorCodec.Injective` | services/api-gateway/app/pagination.py:29-35 | different positions never share a cursor text |
| `CursorCodec.NeverEmpty` | services/api-gateway/app/pagination.py:29-35 | no cursor is the empty text, which a request would take for no cursor at all |
| `CursorCodec.EmptyIsInvalid` | services/api-gateway/app/pagination.py:38-46 | the empty text is refused by the decoder |
| `CursorCodec.TruncatedIsInvalid` | services/api-gateway/app/pagination.py:38-46 | a cursor cut off inside a group of four characters is refused |
| `CursorCodec.ValidDocuments` | services/api-gateway/app/pagination.py:41-46 | loaded JSON is accepted exactly when it is an object with an id and a typed sort value, and a timestamp where the type says so |
| `CursorCodec.WireText` | services/api-gateway/app/pagination.py:30-34 | the JSON inside a timestamp cursor, key by key, for ids without characters to escape |
| `Keyset.ClampLimit` | services/api-gateway/app/pagination.py:49-52 | the default without a limit; otherwise, of all sizes 1 to 200, the one nearest to the limit asked for |
| `Keyset.OrderByOrdered` | services/api-gateway/app/pagination.py:88-91 | sorting rows with unique ids by (sort column, id) in either direction is strictly ordered |
| `Keyset.OrderedUnique` | services/api-gateway/app/pagination.py:88-91 | an ordered listing is determined by the set of its rows |
| `Keyset.SeekThenSort` | services/api-gateway/app/pagination.py:77-91 | filtering past the cursor and then sorting gives the part of the whole sorted ledger that lies past the cursor |
| `Keyset.CursorPosition` | services/api-gateway/app/pagination.py:77-98 | the cursor made from a row leads back to the position of that row |
| `Keyset.KeysetPage` | services/api-gateway/app/pagination.py:55-99 | a sort that is not allowed is a bad request, and so is a cursor that does not decode to a timestamp and a text id, and nothing else; otherwise the page is the first rows of the sorted, filtered ledger past the cursor, with a next cursor exactly when more remain: in rising order for the eight spellings of "asc", in falling order for every other text |
| `Keyset.Fetch` | services/api-gateway/app/pagination.py:93-99 | fetching one row too many yields the first page of the selection, and a cursor exactly when a row is left over |
| `Keyset.ListTasks` | services/api-gateway/app/repository.py:53-78 | the page of the tasks that match all given filters, rising for "asc" in any letter case and falling otherwise, wrapped as items, next cursor, `hasMore` and the clamped limit |
| `Keyset.SelectedExactly` | services/api-gateway/app/repository.py:66-76 | the rows selected are the tasks of the workspace that have every value asked for; an empty value asks for none |
| `Keyset.ByColumnThenId` | services/api-gateway/app/pagination.py:73-91 | rows compare by the time column asked for, and by their ids where that is equal |
| `Traversal.CursorsCarryPositions` | services/api-gateway/app/pagination.py:77-99 | a walk that follows cursor texts is the walk that follows positions |
| `Traversal.WholeLedger` | services/api-gateway/app/pagination.py:55-99 | following cursors over an unchanging table, in any order and with any limit, ends after max(1, ceil(n / page size)) pages that join to the whole sorted ledger |
| `Traversal.PagesNeededIsCeiling` | services/api-gateway/app/pagination.py:93-99 | that number of pages is the ceiling, and one for an empty ledger |
| `Traversal.LedgerIsSorted` | services/api-gateway/app/pagination.py:88-91 | the ledger is strictly ordered and holds exactly the rows of the table |
| `Traversal.WholeTaskListing` | services/api-gateway/app/repository.py:53-78 | a task traversal lists each task that matches the filters once, in order, and nothing else |
| `Traversal.ListedOrdered` | services/api-gateway/app/pagination.py:77-99 | whatever other clients do between fetches, the rows listed are strictly ordered |
| `Traversal.ListedUnlessBehind` | services/api-gateway/app/pagination.py:77-99 | a row that is in the table at every fetch and never falls behind the cursor is listed, however any sort values change |
| `Traversal.BehindIsMissed` | services/api-gateway/app/pagination.py:77-99 | where rows never move on in the listing, a row that falls behind the cursor is not listed |
| `Traversal.ListedExactly` | services/api-gateway/app/pagination.py:8-10 | where rows never move on, a row that stays is listed if and only if it never falls behind; for any tables, page size and start |
| `Traversal.ListedDistinct` | services/api-gateway/app/pagination.py:77-99 | where rows never move on, none is listed twice |
| `Traversal.RepeatedExactly` | services/api-gateway/app/pagination.py:77-99 | where rows never move back, a row that stays is listed twice if and only if a fetch finds it ahead again after it was listed |
| `Traversal.StableTraversal` | services/api-gateway/app/pagination.py:77-99 | with rows inserted and deleted between fetches and a sort column that never changes, no row is listed twice and every row present throughout is listed |
| `Traversal.GrowingTraversal` | services/api-gateway/app/pagination.py:8-10 | with a sort column that only grows, for a row that stays: latest first, nothing is repeated, and the row is listed if and only if it never falls behind; oldest first, it is listed, and twice if and only if it comes again |
| `Traversal.SkipExample` | services/api-gateway/app/pagination.py:8-10 | a concrete table, listed latest change first, in which a changed row is skipped |
| `EventLog.EventTable.RecordEvent` | services/api-gateway/app/events.py:37-52 | appends one event under a number above all earlier ones; any type but the five known ones is flagged in the payload, these are stored as given |
| `EventLog.EventStream.PollOnce` | services/api-gateway/app/events.py:83-99 | one turn sends the first 200 events past the cursor in order and moves the cursor to the last; every fifteenth empty turn in a row sends a heartbeat |
| `EventLog.BacklogDrains` | services/api-gateway/app/events.py:55-98 | k waiting events arrive complete and in order in ceil(k / 200) polls |
| `EventTail.TailTheorem` | services/api-gateway/app/events.py:55-99 | over every run of appends, polls, deliveries, disconnects and reconnects the client log has nothing twice or out of order, and is exactly the events from the start to the last number seen if and only if no step passed over an event |
| `EventTail.ResumeNeverMisses` | services/api-gateway/app/events.py:3-6 | when events become visible in the order of their numbers, the log is exact after any reconnects |
| `EventTail.MissedForGood` | services/api-gateway/app/events.py:78-90 | an event once passed over is never delivered, however the run goes on |
| `EventTail.LateCommit` | services/api-gateway/app/events.py:45-52 | for any two numbers whose events commit in the opposite order around a poll, the run is allowed and the first event is not in the log |
| `EventTail.LateCommitExample` | services/api-gateway/app/events.py:3-6 | the same with the numbers 1 and 2 |
| `PyText.SpacesExactly` | services/api-gateway/app/dmind_inputs.py:79-91 | the characters that stripping takes for white space |
| `PyText.SplitJoin` | services/api-gateway/app/dmind_inputs.py:77-95 | splitting at newlines undoes joining lines without newlines |
| `TextNormaliser.CleanKeepsContent` | services/api-gateway/app/dmind_inputs.py:73-74 | cleaning drops byte-order marks and control characters and changes otherwise only white space |
| `TextNormaliser.RemovedExactly` | services/api-gateway/app/dmind_inputs.py:73-74 | the characters removed are the byte-order mark, and the controls but tab, newline and return |
| `TextNormaliser.CutPieces` | services/api-gateway/app/dmind_inputs.py:87-90 | a cut leaves two trimmed, non-empty parts, the rest shorter than before, with the same content: the loop ends |
| `TextNormaliser.WrapLine` | services/api-gateway/app/dmind_inputs.py:86-92 | the wrapping loop computes the recursive wrapping of a line |
| `TextNormaliser.Finish` | services/api-gateway/app/dmind_inputs.py:70-109 | refuses text without content, and text whose normal form exceeds the limit; otherwise returns the normal form and, if lines were split, a warning with their exact number |
| `TextNormaliser.OutputKeepsContent` | services/api-gateway/app/dmind_inputs.py:70-95 | the non-space characters of the output are those of the input, in order, without byte-order marks and control characters |
| `TextLayout.OutputWidth` | services/api-gateway/app/dmind_inputs.py:83-92 | every output line has at most max(500, indent + 40) characters |
| `TextLayout.OutputIdempotent` | services/api-gateway/app/dmind_inputs.py:70-95 | normalising the output again gives the same text and lines and splits nothing |
| `TextLayout.OutputLines` | services/api-gateway/app/dmind_inputs.py:77-95 | no leading, trailing or doubled blank line, no trailing white space, and no removable character is left in the output |
| `TextLayout.WrapLaysOut` | services/api-gateway/app/dmind_inputs.py:83-92 | every piece of a wrapped line has the indent of that line and fits its room |
| `TextLayout.SplitPoint` | services/api-gateway/app/dmind_inputs.py:87-88 | a split is at the last space of the second half of the room; a word is cut only when there is none |
| `TextLayout.SplitExactly` | services/api-gateway/app/dmind_inputs.py:84-86 | a line is split exactly when it is longer than 500 characters with its indent, and its text than 40 |
| `TextLayout.IndentLimit` | services/api-gateway/app/dmind_inputs.py:83-92 | an indent keeps every possible text within 500 characters if and only if it is at most 460 |
| `TextLayout.TextFitsExactly` | services/api-gateway/app/dmind_inputs.py:77-95 | text by text: all output lines are within 500 characters if and only if every cleaned line is blank, or indented by at most 460, or by less than 500 with a text whose cuts of 40 characters leave only parts that fit beside the indent |
| `TextNormaliser.LinesExactly` | services/api-gateway/app/dmind_inputs.py:73-77 | for any lines with any of the three line endings: the lines read are these, without byte-order marks and control characters, if and only if no return is followed by a line without content and a newline |
| `TextNormaliser.CleanedLines` | services/api-gateway/app/dmind_inputs.py:73-77 | in that case the three are read as one line ending, and all else is as before |
| `TextNormaliser.EveryText` | services/api-gateway/app/dmind_inputs.py:73 | every text is such lines and endings, with none of them so fused |
| `TextLayout.OutputKeepsParagraphs` | services/api-gateway/app/dmind_inputs.py:73-95 | for any lines with any line endings: blank lines separate the same paragraphs, with the same content, in the output as in these lines |
| `TextLayout.EveryTextByLines` | services/api-gateway/app/dmind_inputs.py:73-95 | for every text, taken without byte-order marks as lines with line endings: its output has the paragraphs of these lines, and fits if and only if they do |
| `TextLayout.SplitsCount` | services/api-gateway/app/dmind_inputs.py:80-98 | the number in the warning is that by which the lines with content have grown |
| `HtmlMachine.CollapseKeepsWords` | services/api-gateway/app/dmind_inputs.py:277 | collapsing white space keeps the words |
| `HtmlMachine.CollapseShape` | services/api-gateway/app/dmind_inputs.py:277 | collapsed text is trimmed, its only white space is the space character, and it is empty exactly for blank text |
| `HtmlMachine.HtmlOutline.FlushBuffer` | services/api-gateway/app/dmind_inputs.py:276-280 | empties the buffer into one collapsed, indented line, or none when it is blank |
| `HtmlMachine.HtmlOutline.HandleStartTag` | services/api-gateway/app/dmind_inputs.py:286-304 | takes the state to that of the machine after a start tag |
| `HtmlMachine.HtmlOutline.HandleEndTag` | services/api-gateway/app/dmind_inputs.py:306-318 | takes the state to that of the machine after an end tag |
| `HtmlMachine.HtmlOutline.HandleData` | services/api-gateway/app/dmind_inputs.py:320-324 | takes the state to that of the machine after character data |
| `HtmlMachine.HtmlText` | services/api-gateway/app/dmind_inputs.py:331-338 | running the parser over any events yields the normal form of the machine's lines, the refusals of `finish`, and the collapsed title cut to 200 characters |
| `HtmlTree.TitleOfTree` | services/api-gateway/app/dmind_inputs.py:287-308 | where every title is closed and none lies in another, the title is the text inside the title elements of the document, in a skipped head too, and nothing else |
| `HtmlTree.OutlineContent` | services/api-gateway/app/dmind_inputs.py:286-328 | for every tree of elements, text and void tags, the content of the outline is the text outside skipped elements that comes before the first skipped tag that is never closed |
| `HtmlTree.OutlineIsComplete` | services/api-gateway/app/dmind_inputs.py:260-261 | the outline holds all visible text if and only if none comes after such a tag |
| `HtmlTree.WellNestedOutlineIsComplete` | services/api-gateway/app/dmind_inputs.py:286-328 | on documents where every skipped tag is closed the outline holds exactly the visible text |
| `HtmlTree.EmbedExample` | services/api-gateway/app/dmind_inputs.py:260 | in `<p>a</p><embed><p>b</p>` the text "b" is lost |
| `HtmlTree.SkippedVanish` | services/api-gateway/app/dmind_inputs.py:260 | an element with one of the thirteen skipped tags leaves no trace, whatever it contains |
| `HtmlTree.OthersShow` | services/api-gateway/app/dmind_inputs.py:260 | the text in an element with any other tag is kept |
| `HtmlTree.OwnLine` | services/api-gateway/app/dmind_inputs.py:261-316 | text in a heading, a list item or one of the block elements stands on a line of its own; in any other element it continues the line |
| `HtmlTree.MachineWalksTree` | services/api-gateway/app/dmind_inputs.py:286-324 | the flags and counters refine a recursive reading of the tree: same page, and skip counter and list depth back where they were |
| `HtmlTree.OutlineOfTree` | services/api-gateway/app/dmind_inputs.py:286-328 | so the lines are those of the recursive reading |
| `HtmlTree.TextUnderHeading` | services/api-gateway/app/dmind_inputs.py:282-304 | a paragraph after a heading of level n is indented by n levels, the heading by n - 1 |
| `HtmlTree.NestedListIndent` | services/api-gateway/app/dmind_inputs.py:282-304 | an item inside n + 1 lists, of either kind, is indented by min(n, 6) levels |
| `HtmlWidth.OutlineIndents` | services/api-gateway/app/dmind_inputs.py:282-304 | for any event stream, well nested or not, every line is an indent of at most twelve levels and collapsed text |
| `HtmlWidth.OutlineWidth` | services/api-gateway/app/dmind_inputs.py:331-338 | over an alphabet without removed characters, or white space, or visible characters, indents stay within twelve levels and lines within 500 characters after `finish` |
| `HtmlWidth.OutlineFitsExactly` | services/api-gateway/app/dmind_inputs.py:331-338 | exactly those alphabets are safe for all documents |
| `HtmlWidth.ControlsExample` | services/api-gateway/app/dmind_inputs.py:73-85 | for every n, a document whose only output line is n spaces and a letter |
| `Credits.CreditStore.OpenAccount` | services/api-gateway/app/ai_credits.py:65-85 | creates, refills or reads the account, and logs what it gained |
| `Credits.CreditStore.Charge` | services/api-gateway/app/ai_credits.py:88-103 | debits and logs, or refuses and leaves everything as it was |
| `Credits.CreditStore.GiveBack` | services/api-gateway/app/ai_credits.py:106-112 | credits and logs a positive cost |
| `Credits.CreditStore.AddCredits` | services/api-gateway/app/ai_credits.py:115-127 | adds and logs the amount, sets the allowance |
| `Credits.RunBalanced` | services/api-gateway/app/ai_credits.py:61-127 | over every serial run, across months and with the clock moving either way, the balance is the sum of the ledger and every `balance_after` is the sum up to its entry |
| `Credits.RunNonNegative` | services/api-gateway/app/ai_credits.py:88-127 | without negative grants the balance is never negative |
| `Credits.RefillIsMax` | services/api-gateway/app/ai_credits.py:77-83 | a refill leaves the larger of balance and allowance, and a second one in the month does nothing |
| `Credits.RefusedExactly` | services/api-gateway/app/ai_credits.py:88-103 | a charge is refused exactly when the balance after any refill is too small, and then changes nothing |
| `Credits.ChargeThenRefund` | services/api-gateway/app/ai_credits.py:88-112 | a charge and its refund in one month restore the account and add two entries that cancel |
| `Credits.RefillsWithinVisits` | services/api-gateway/app/ai_credits.py:65-85 | over every run a month is refilled at most as often as the clock enters it |
| `Credits.SpendingRefills` | services/api-gateway/app/ai_credits.py:65-103 | requests that spend the whole allowance are refilled exactly that often |
| `Credits.OneRefillExactly` | services/api-gateway/app/ai_credits.py:65-85 | for any readings of the clock: every run at these readings has at most one refill in any month if and only if the clock never returns to a month it has left |
| `Credits.OneRefillPerMonth` | services/api-gateway/app/ai_credits.py:65-85 | in particular with a clock that does not step back; refills are then in strictly later and later months |
| `Credits.BackwardClockExample` | services/api-gateway/app/ai_credits.py:77-83 | a clock that returns to a month gives it two refills |
| `CreditsConcurrent.EveryInterleaving` | services/api-gateway/app/ai_credits.py:65-127 | in every interleaving of statements that the row lock allows, with requests refused or failing at any point, the committed books are those of a serial run of the committed requests, each once, in the order of their commits and with every charge served |
| `CreditsConcurrent.BalanceAtEveryMoment` | services/api-gateway/app/ai_credits.py:88-127 | at every moment the balance of the row is not negative and equals the logged amounts plus the updates not yet logged, and the committed ledger states its running sums |
| `CreditsConcurrent.DebitedExactly` | services/api-gateway/app/ai_credits.py:93-102 | over every run, a charge is debited if and only if its conditional update matched (and it has not failed since), and refused if and only if it did not match |
| `CreditsConcurrent.NoDeadlock` | services/api-gateway/app/ai_credits.py:65-127 | over every run a running request can execute its next statement unless another one holds the account row, and the one that holds it always can |
| `CreditsConcurrent.EndedBalances` | services/api-gateway/app/ai_credits.py:88-127 | when all requests have ended nothing is locked, and the balance is the sum of the ledger |
| `CreditsConcurrent.RunOpenedOnce` | services/api-gateway/app/ai_credits.py:67-76 | however many requests find no account, the ledger has one opening entry if there is an account, and none otherwise |
| `CreditsConcurrent.RefusedCreatorExample` | services/api-gateway/app/db.py:28-38 | a charge that is refused in the request that created the account leaves no account and no entry |
| `PlanStates.TerminalAllowsNothing` | services/orchestrator/daypilot_orchestrator/plan_state.py:37-77 | the terminal states are exactly those that allow no action |
| `PlanStates.ActionsLead` | services/orchestrator/daypilot_orchestrator/plan_state.py:38-49 | every action leads to its own state wherever it is allowed |
| `PlanStates.AllowedExactly` | services/orchestrator/daypilot_orchestrator/plan_state.py:38-61 | the allowed actions of each state |
| `PlanStates.TextsExactly` | services/orchestrator/daypilot_orchestrator/plan_state.py:27-76 | by their texts: which are actions, which of them each state allows, and where they lead |
| `DayPlan.PlanStore.GetPlan` | services/orchestrator/daypilot_orchestrator/today_engine.py:125-130 | finds the plan of a workspace and date if there is one |
| `DayPlan.PlanStore.BuildOrGetDraft` | services/orchestrator/daypilot_orchestrator/today_engine.py:133-174 | returns the existing plan, or adds a draft with the first twelve tasks and its event |
| `DayPlan.PlanStore.TransitionPlan` | services/orchestrator/daypilot_orchestrator/today_engine.py:177-188 | moves the plan along the table and emits the event; an action that is unknown or not allowed leaves everything, even a draft just made, as it was |
| `DayPlan.TransitionByText` | services/orchestrator/daypilot_orchestrator/today_engine.py:177-188 | for every text: an unknown action, one that is not allowed, or the state that the text names; other plans keep their states |
| `DayPlan.StateHasItsCall` | services/orchestrator/daypilot_orchestrator/today_engine.py:133-188 | over every run: some call has taken a plan to its state, by the text that names the state, a draft request or a wrap-up, and it has been in it since |
| `DayPlan.ApprovedByApproval` | services/orchestrator/daypilot_orchestrator/today_engine.py:177-188 | so a plan is approved only by "approve" |
| `DayPlan.NewDraft` | services/orchestrator/daypilot_orchestrator/today_engine.py:138-174 | a new draft holds the first twelve tasks, all of them if there are fewer, and its event tells how many |
| `DayPlan.PlanStore.GenerateWrapup` | services/orchestrator/daypilot_orchestrator/wrapup.py:61-72 | drafts tomorrow, and wraps today's plan with an event if it is active |
| `DayPlan.PlanStore.StartFocus` | services/orchestrator/daypilot_orchestrator/today_engine.py:191-198 | emits an event of another type, or fails without one for a task that is not there |
| `DayPlan.RunInvariant` | services/orchestrator/daypilot_orchestrator/today_engine.py:125-188 | over every serial run of the entry points there is one plan per workspace and date, in the state that a replay of its events leads to |
| `DayPlan.LastEventTellsState` | services/orchestrator/daypilot_orchestrator/today_engine.py:172-186 | a plan is in the state of its last event, and its events form a path of allowed transitions from DRAFT |
| `DayPlan.ActiveWasProposed` | services/orchestrator/daypilot_orchestrator/plan_state.py:37-49 | no plan is active that was not proposed |
| `DayPlan.DraftTwice` | services/orchestrator/daypilot_orchestrator/today_engine.py:133-137 | asking for the draft again changes nothing, whatever the tasks are by then |
| `DayPlan.WrapUpTwice` | services/orchestrator/daypilot_orchestrator/wrapup.py:61-72 | a second wrap-up of a date changes no plan and adds no event |
| `DayPlan.WrappedForGood` | services/orchestrator/daypilot_orchestrator/wrapup.py:68-72 | a wrapped plan stays as it is, whatever is called afterwards |
| `DayPlan.OthersUntouched` | services/orchestrator/daypilot_orchestrator/today_engine.py:177-188 | a transition leaves the plans of other dates and workspaces alone |
| `DayPlanConcurrent.SecondPlanExactly` | services/orchestrator/daypilot_orchestrator/today_engine.py:133-146 | with requests that overlap, a date gets a second plan if and only if two requests that commit have both looked before the first commit |
| `DayPlanConcurrent.PlansExactly` | services/knowledge-service/daypilot_knowledge/db/models.py:288 | the stored plans of a date are those of exactly the requests that have looked before the first commit and commit |
| `DayPlanConcurrent.LookupsFail` | services/orchestrator/daypilot_orchestrator/today_engine.py:125-130 | once a date has two plans, every later lookup fails |
| `ClockTimes.FiveExactly` | services/api-gateway/app/profile_schemas.py:24 | five characters match the pattern exactly when they are an hour below 24 and a minute below 60, with foreign digits only in the last place of each and not after a 2 |
| `ClockTimes.LongerExactly` | services/api-gateway/app/profile_schemas.py:24 | besides these only such five characters and a newline match |
| `ClockTimes.CanonicalExactly` | services/api-gateway/app/profile_schemas.py:24 | every minute of the day has its canonical text |
| `ClockTimes.CanonicalOnly` | services/api-gateway/app/profile_schemas.py:24 | and every canonical text is that of its minute |
| `ClockTimes.CanonicalOrder` | services/api-gateway/app/profile_schemas.py:24 | string order is clock order on canonical HH:MM texts |
| `ClockTimes.OrderAgreesExactly` | services/api-gateway/app/profile_schemas.py:24 | of the texts the pattern accepts, exactly the canonical ones are ordered like the clock against every canonical time |
| `Schedule.SortedDays` | services/api-gateway/app/profile_schemas.py:103-108 | the weekdays in increasing order, each once |
| `Schedule.MakeWindow` | services/api-gateway/app/profile_schemas.py:98-121 | a window is accepted exactly when its days, times and order are valid, and keeps them |
| `Schedule.SortAndCompare` | services/api-gateway/app/profile_schemas.py:149-153 | after sorting, comparing neighbours finds an overlap if and only if some two spans overlap |
| `Schedule.CheckNoOverlap` | services/api-gateway/app/profile_schemas.py:142-154 | accepts a schedule if and only if, on every weekday, all its windows are pairwise disjoint |
| `Schedule.GroupByDay` | services/api-gateway/app/profile_schemas.py:145-148 | the dictionary holds for each weekday the spans of the windows on that day, in order |
| `Schedule.CompareNeighbours` | services/api-gateway/app/profile_schemas.py:151-153 | accepts exactly the lists in which no span starts before its predecessor ends |
| `Schedule.OverlapsJudgedExactly` | services/api-gateway/app/profile_schemas.py:142-154 | for any set of times: every schedule with valid windows and times from it is accepted exactly when no minute of a weekday belongs to two windows, if and only if string order is clock order in that set |
| `Schedule.WindowsJudgedExactly` | services/api-gateway/app/profile_schemas.py:117-121 | for any set of times: every window with times from it is accepted exactly when it ends after it starts, if and only if string order is clock order in that set |
| `Schedule.CanonicalAndOneMore` | services/api-gateway/app/profile_schemas.py:24 | schedules with canonical times and one further time are judged so if and only if that time is canonical too |
| `Schedule.AcceptedMeansMinutesApart` | services/api-gateway/app/profile_schemas.py:142-154 | in particular, a schedule with canonical times is accepted exactly when no minute of a weekday belongs to two windows |
| `Schedule.ForeignDigitExample` | services/api-gateway/app/profile_schemas.py:24 | two windows that share a minute are accepted |
| `Schedule.InvertedWindowExample` | services/api-gateway/app/profile_schemas.py:117-121 | a window that ends a minute before it starts is accepted |
| `Schedule.RefusedForNothing` | services/api-gateway/app/profile_schemas.py:142-154 | a window that is empty or inverted by the clock, accepted and given twice, is refused as overlapping although no minute belongs to both |
| `Profile.ProfileStore.ApplyProfileUpdate` | services/api-gateway/app/profile_platform.py:167-199 | creates the profile, refuses a missing or stale revision without a change, or merges the provided fields and consents under the next revision |
| `Profile.AcceptedExactly` | services/api-gateway/app/profile_platform.py:178-181 | an update of an existing profile is accepted exactly when its header names the stored revision; otherwise it learns that revision and changes nothing |
| `Profile.FirstUpdate` | services/api-gateway/app/profile_platform.py:175-197 | the first update creates the profile with revision 1, the fields provided and the consents given |
| `Profile.ProfileStore.ImportLegacy` | services/api-gateway/app/profile_platform.py:545-571 | fills time zone and name where they are empty, and reports exactly the fields filled |
| `Profile.ImportFills` | services/api-gateway/app/profile_platform.py:550-566 | an import sets an empty time zone to a known one and an empty name to at most 120 characters, and changes nothing else |
| `Profile.ProfileStore.PatchOnboarding` | services/api-gateway/app/profile_platform.py:499-517 | saves navigation, steps and dismissal, and starts a flow that was not started |
| `Profile.ProfileStore.CompleteOnboarding` | services/api-gateway/app/profile_platform.py:520-542 | refuses with the missing fields, or completes once, keeping the first completion time |
| `Profile.MissingExactly` | services/api-gateway/app/profile_platform.py:467-526 | a refused completion changes nothing and names the required fields that are empty |
| `Profile.ProgressSaved` | services/api-gateway/app/profile_platform.py:499-542 | what a patch and a completion do to every part of the progress |
| `Profile.RevisionCountsWins` | services/api-gateway/app/profile_platform.py:175-181 | the revision of an existing profile grows by one with each accepted writer and with nothing else |
| `Profile.RevisionGrows` | services/api-gateway/app/profile_platform.py:175-181 | revisions never decrease and a profile never disappears |
| `Profile.WinnersHoldDifferentRevisions` | services/api-gateway/app/profile_platform.py:178-181 | over serial runs, of two accepted writers the later held the larger revision, so no two writers of one revision are both accepted |
| `ProfileConcurrent.OneWinnerExactly` | services/api-gateway/app/profile_platform.py:173-181 | with requests that overlap: whatever the row and the updates, no two accepted writers held one revision, if and only if no request commits between the read and the commit of another |
| `ProfileConcurrent.SerialWithoutInterruption` | services/api-gateway/app/profile_platform.py:172-199 | then the row is that of a serial run of the requests in the order of their commits, and later winners held larger revisions |
| `Profile.RevisionsArePositive` | services/api-gateway/app/profile_platform.py:202-206 | stored revisions are positive, so a header that is no number never matches |
| `Profile.FieldChanges` | services/api-gateway/app/profile_platform.py:183-194 | a field changes only when an accepted update provides it or an import fills it while it is empty |
| `Profile.ConsentMerges` | services/api-gateway/app/profile_platform.py:185-189 | an accepted update sets the consents it names and keeps all others |
| `Profile.DeclaredValueStays` | services/api-gateway/app/profile_platform.py:545-571 | a value once set survives every run that does not provide another, in particular every import |
| `Profile.CompletesOnlyWhenReady` | services/api-gateway/app/profile_platform.py:520-533 | only a completion with both required fields present completes the flow |
| `Profile.CompletionStays` | services/api-gateway/app/profile_platform.py:499-533 | a completed flow stays completed with its first completion time |
| `Profile.CompleteTwice` | services/api-gateway/app/profile_platform.py:520-542 | completing again changes nothing and reports no error |
| `Observations.ObservationStore.RecordObservation` | services/api-gateway/app/profile_platform.py:260-288 | adds one suggestion with the given owner, category and value, exactly when the category is one of six and the owner has no observation of that value in any state |
| `Observations.ObservationStore.DecideObservation` | services/api-gateway/app/profile_platform.py:298-306 | confirms or rejects the owner's own observation and no other |
| `Observations.DecisionByText` | services/api-gateway/app/profile_platform.py:298-303 | "confirm" confirms and every other text rejects; no other row changes |
| `Observations.RefusedForGood` | services/api-gateway/app/profile_platform.py:260-306 | after a decision that is not "confirm" the value is not suggested again until the owner confirms it |
| `Observations.ObservationStore.ResetLearned` | services/api-gateway/app/profile_platform.py:209-224 | removes the owner's suggested and confirmed rows and counts them |
| `Observations.RunValid` | services/api-gateway/app/profile_platform.py:209-306 | over every run an owner has at most one observation per category and value |
| `Observations.RejectionHolds` | services/api-gateway/app/profile_platform.py:260-279 | a rejected observation survives everything but its own confirmation, and its value is never suggested again |
| `Observations.ResetExactly` | services/api-gateway/app/profile_platform.py:209-221 | after a reset exactly the other owners' rows and the rejected ones are left |
| `Observations.OnlyOwnersDecide` | services/api-gateway/app/profile_platform.py:291-302 | no decision changes another owner's observation |
| `Observations.LearnAgain` | services/api-gateway/app/profile_platform.py:209-288 | after a reset a value can be learned again exactly if it was not rejected |
| `Identity.IdentityStore.CountRecentFailures` | services/api-gateway/app/identity.py:127-134 | counts the failed logins of an address in the last fifteen minutes |
| `Identity.IdentityStore.LocalLogin` | services/api-gateway/app/identity.py:137-166 | locked exactly at five recent failures; otherwise logged in exactly when the address has an active account whose stored hash is that of the password; each outcome with its event, and only a success with a session |
| `Identity.OtherPasswordRefused` | services/api-gateway/app/identity.py:149-155 | a password other than the stored one never logs in and opens no session |
| `Identity.TokenResolvesExactly` | services/api-gateway/app/identity.py:157-202 | after a login, over any calls: the token stands for the user if and only if it has not expired, and neither it nor all tokens of the user have been logged out |
| `Identity.IdentityStore.Logout` | services/api-gateway/app/identity.py:195-202 | revokes a live session and records it; anything else changes nothing |
| `Identity.IdentityStore.LogoutAll` | services/api-gateway/app/identity.py:205-213 | revokes all live sessions of the user and counts them |
| `Identity.AtMostFiveFailures` | services/api-gateway/app/identity.py:127-155 | over every run, every window of fifteen minutes, wherever it begins, holds at most five recorded failures of an address |
| `Identity.LockedExactly` | services/api-gateway/app/identity.py:127-155 | over every run an address is locked if and only if five attempts at it were refused with invalid credentials in the last fifteen minutes |
| `Identity.OnlyFailuresCount` | services/api-gateway/app/identity.py:127-134 | the lock depends on recorded failures alone |
| `Identity.LockedAttemptsDoNotExtend` | services/api-gateway/app/identity.py:144-146 | attempts made while locked leave the lock as it was, at every later time |
| `Identity.LockEnds` | services/api-gateway/app/identity.py:127-134 | the lock ends when the failures are older than fifteen minutes |
| `Identity.LogoutIsFinal` | services/api-gateway/app/identity.py:177-202 | after a logout the token never resolves again |
| `Identity.LogoutAllIsFinal` | services/api-gateway/app/identity.py:177-213 | after logging out everywhere none of the user's tokens resolves again |
| `Identity.LogoutAllSparesOthers` | services/api-gateway/app/identity.py:205-213 | and all other tokens resolve as before |
| `DeckValidator.CheckUnique` | docs/presentations/validate_contracts.py:34-36 | comparing the size of the set with the length accepts exactly lists without duplicates |
| `DeckValidator.IndexExact` | docs/presentations/validate_contracts.py:103-113 | the metric index holds exactly the metrics of the sources under their (source, metric) ids |
| `DeckValidator.ResolveMeansBacked` | docs/presentations/validate_contracts.py:115-123 | a reference resolves exactly when some source holds that metric with the number shown and, where one is given, the unit |
| `DeckValidator.CheckSources` | docs/presentations/validate_contracts.py:103-113 | accepts exactly sources with unique ids, valid periods and finite metrics of their own period |
| `DeckValidator.CheckClaims` | docs/presentations/validate_contracts.py:136-143 | accepts exactly claims whose numbers are backed, and collects the sources they use |
| `DeckValidator.CheckChart` | docs/presentations/validate_contracts.py:152-160 | accepts exactly charts whose points match the categories and are backed, with a zero baseline where one is due |
| `DeckValidator.CheckTable` | docs/presentations/validate_contracts.py:161-169 | accepts exactly tables without ragged rows whose numeric cells are backed |
| `DeckValidator.CheckDiagram` | docs/presentations/validate_contracts.py:170-181 | accepts exactly diagrams over a graph source with unique, bounded nodes and no dangling edge |
| `DeckValidator.CheckElement` | docs/presentations/validate_contracts.py:145-183 | accepts exactly elements that keep the contract of their kind |
| `DeckValidator.NotedMeans` | docs/presentations/validate_contracts.py:131-184 | the accumulated sets are noted exactly when every source used anywhere on the slide is |
| `DeckValidator.CheckSlide` | docs/presentations/validate_contracts.py:127-184 | accepts exactly slides that keep the contract and share no claim or element id with the slides before |
| `DeckValidator.ValidateDeck` | docs/presentations/validate_contracts.py:95-184 | the validator accepts a deck if and only if it keeps the declarative contract |
| `DeckValidator.NumbersAreBacked` | docs/presentations/validate_contracts.py:136-184 | in an accepted deck a claim with a number shows the number and unit of a metric whose source is in the notes of the slide |
| `DeckValidator.PointsAreBacked` | docs/presentations/validate_contracts.py:152-160 | and every point of a chart the number of a noted fixture metric in the unit of the chart, one point for each category, bars and columns from zero |
| `DeckValidator.CellsAreBacked` | docs/presentations/validate_contracts.py:161-169 | every number in a table is that of a noted fixture metric, and every row has a cell for each header |
| `DeckValidator.ElementsInBounds` | docs/presentations/validate_contracts.py:39-41 | elements, and nodes of diagrams, lie within their parents |
| `DeckValidator.DiagramsAreGraphs` | docs/presentations/validate_contracts.py:170-181 | a diagram is drawn from a noted graph snapshot, with unique ids |
| `DeckValidator.EdgesJoinNodes` | docs/presentations/validate_contracts.py:175-180 | every edge of a diagram joins two of its nodes |
| `DeckValidator.TextsShowClaims` | docs/presentations/validate_contracts.py:149-151 | a text shows claims of its own slide |
| `DeckValidator.ImagesArePlaceholders` | docs/presentations/validate_contracts.py:182-183 | an image is a placeholder |
| `DeckValidator.NotesAreKnown` | docs/presentations/validate_contracts.py:128-130 | a slide has a known layout, and its notes name known sources |
| `DeckValidator.CheckPeriod` | docs/presentations/validate_contracts.py:44-49 | accepts exactly periods with offsets at both ends that end after they start |
| `DeckValidator.CheckCount` | docs/presentations/validate_contracts.py:96-101 | accepts exactly the number of slides asked for, or one within the range |
| `DeckValidator.ElementIdsUnique` | docs/presentations/validate_contracts.py:125-147 | in an accepted deck no two elements of any slides share an id |
| `DocumentVersions.DocumentStore.Upload` | services/knowledge-service/daypilot_knowledge/db/models.py:123-127 | starts a lineage at version 1 |
| `DocumentVersions.DocumentStore.GenerateOutput` | services/knowledge-service/daypilot_knowledge/document_ai.py:75-122 | adds a document with the next version of the lineage and its chunks; an unknown source changes nothing |
| `DocumentVersions.RunValid` | services/knowledge-service/daypilot_knowledge/document_ai.py:75-122 | over every run, later documents of a lineage have larger versions and every generated document is a direct child of a root |
| `DocumentVersions.NextVersion` | services/knowledge-service/daypilot_knowledge/document_ai.py:88-114 | a new version is one above the largest, whichever version it was made from, and its chunks join to the stripped content |
| `DocumentVersions.RunGapless` | services/knowledge-service/daypilot_knowledge/document_ai.py:88-105 | the versions of a lineage are as many as the largest of them: no gaps |
| `DocumentVersions.EarlierUnchanged` | services/knowledge-service/daypilot_knowledge/document_ai.py:82 | earlier documents and their chunks never change |
| `DocumentVersions.PiecesJoin` | services/knowledge-service/daypilot_knowledge/document_ai.py:125-127 | the chunks join to the text; all but the last have 1200 characters and none is empty |

## Left out

- CursorCodec.RoundTrip: offsets of whole minutes; ISO texts in other forms than `isoformat` writes, and JSON fractions, lone surrogates, white space and bytes beyond ASCII, are refused by the model's decoder while the library would read them.
- Json.RoundTrip: fractions (floats) are left out, as is the text of infinities and of NaN.
- Timestamps.RankInjective: a timestamp without an offset is taken as UTC, which is how the tables are written; a hand-made cursor that mixes the two kinds is compared in the session's time zone by Postgres.
- Keyset.KeysetPage: the two time columns; other sort columns, and a raw cursor value against a time column (a database error), are left out.
- EventTail.TailTheorem: frames arrive whole; timing, and a connection that breaks inside a frame, are not modelled.
- CreditsConcurrent.EveryInterleaving: within one month, as the refill writes an absolute balance; transactions are at READ COMMITTED or stricter, each request makes one credit call, and savepoints other than that of the insert, lock timeouts and deadlocks are left out.
- Credits.RunBalanced: one workspace; the table of costs, `cost_for` and `summary` would only add easy members.
- ProfileConcurrent.OneWinnerExactly: updates of an existing profile at READ COMMITTED; two first updates meet the primary key. The imports and onboarding calls run one at a time in `Profile`.
- DayPlan.RunInvariant: one call at a time; overlapping first drafts are in `DayPlanConcurrent`, which follows only which plans exist. The day's tasks, their order and the calendar are parameters; the query behind `today_context`, other writers of plans and the figures in the wrap-up report are left out.
- HtmlMachine.HtmlText: starts from parser events; reading raw markup and unescaping the title are behaviour of a library.
- HtmlTree.MachineWalksTree: for documents whose void tags are neither skipped nor lists; `HtmlTree.OutlineContent` covers the content of all trees.
- HtmlWidth.OutlineWidth: per alphabet of the documents; `TextLayout.TextFitsExactly` is the statement per text.
- TextNormaliser.Finish: characters are Unicode scalar values; lone surrogates are not part of this model.
- Profile.ProfileStore.ApplyProfileUpdate: one writer at a time; overlapping ones are in `ProfileConcurrent`. The parsing of the If-Match text is not modelled; only "not a number is -1" is used.
- Profile.ProfileStore.CompleteOnboarding: capability status and the audit rows are left out.
- Observations.RunValid: confidence and expiry are stored but decide nothing in these calls; JSON values are compared in normal form.
- Identity.AtMostFiveFailures: one login at a time; two concurrent attempts can both pass the check before either is recorded.
- Identity.LogoutIsFinal: password and token hashes are collision-free, and a new token is never one that is in use; cookies, CSRF tokens, bootstrap and e-mail normalisation are left out.
- DeckValidator.ValidateDeck: the part about the deck (lines 95-184); brand kit, template, series, manifest, digests, time zones and JSON-schema shapes are left out, numbers are reals or not finite, and booleans do not occur as numbers.
- DocumentVersions.RunValid: deletion of documents, search, embeddings and project status are left out; ids are handed out in increasing order.
- Other `list_*` functions of `repository.py` have the shape of `list_tasks`.
- Goals: `create_goal` limits active goals to three, which `update_goal` does not keep; no statement is made about it.
- DOCX indentation, PDF, OCR and fetched pages, mail, OAuth exchanges, metrics, retrieval scores, standup, delegation, job queue and all user interface code.
