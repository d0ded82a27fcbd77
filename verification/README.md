# Verified models of the stewards hosts

A Dafny 4.11 model of seven components of the repository: the persona gateway's turn loop and outbox, the
citation oracle, the politeness gate of the web fetcher, the bridge's work queue and session cache, two text
codecs (the JSON extractor and the YAML quoter), the pruned glob walk of the file sandbox, and the OTLP
exporter. `dafny verify dfyconfig.toml` checks all of it.

Code that changes state in place is modelled by classes and loops whose contracts equate the new state with a
step function; what the step function keeps over whole runs is proved beside it, as lemmas over every run.

## The components

**Turn loop** (`TurnLoop`, `TurnEvents`, `TurnLaws`, `TurnSafety`, `Delivery`, `Outbox`, `Gateway`).
`TurnLoop.Step` says what each event does: a frame read, a turn's session or final report, an outbox drain, a row
written by a running turn, a reconnect. `Gateway.GatewayConn` is the connection itself, a map of mutable
`ChannelState` objects; `Serve` is proved to take exactly that step. A `Run` is any sequence of enabled events from
the start, so the run lemmas quantify over every interleaving. `TurnEvents` counts from the events of a run alone
what a channel's session, names and hop budget must be, and `TurnLaws` says from them which events start a turn, for
which message and on which session. On all runs no trigger is lost or served twice, persona chains are bounded,
and an archive ends the session. One turn per channel holds on a run *if and only if* no `archive`
frame is handled while its channel is busy with an empty session id: `handleProgram` looks at the session before
`busy`, so that frame frees the channel under a live turn (`TwoTurnsAtOnce` shows the second turn,
`EarlyArchiveIsReachable` that two steps lead there). After that a turn can even lose its session: on a run every
turn of the persona's own keeps its channel's session *if and only if* no other turn ends beside it while the channel
is archiving, or with another session (`TurnsKeepTheirSessionIff`), and both can happen. The eyes are where the
channel remembers them if and only if no turn starts over another message's eyes, which needs such a frame too.

**Citation oracle** (`Normalize`, `Lcs`, `Citation`). The verdict is compared with a statement about the original
text: some checked scope has a span whose normal form is the quote's. The core is that normalizing a span gives a
contiguous piece of the normalized whole, and back. A quote cut at the cap may end in a space; then the verdict is
true exactly when some span reads as the cut quote and one word rune more. Unicode enters as two functions with
the assumptions of `Normalize.WellBehaved`, which ASCII satisfies.

**Politeness gate** (`RobotsMatch`, `RobotsRules`, `RobotsText`, `RateLedger`). Reading a robots.txt undoes printing
groups of rules with any white space, letter case and comments. The interval of a caller's rate is a 64-bit
product that wraps: 9223372036855 ms gives a negative interval. The 500 ms floor that the package promises
(`cmd/fetch-md-mcp/politeness.go:44`) therefore holds exactly for the rates of `RateLedger.KeepsFloor`, among them
all up to 9223372036854 ms, and so does the bound on slots in a window. RFC 9309, sections 2.2.1 to 2.2.3. The greedy
matcher is exact for patterns without `$`, by an exchange argument. The comment beside it
(`cmd/fetch-md-mcp/politeness.go:356-357`) promises the same with `$`; that is false of the code, for instance for
`/*.php$` on `/a.php/b.php`. It holds on every path exactly for patterns that are not the bare `$` and have no `*`,
or have one just before the `$`.

**Bridge** (`BridgeQueue`, `SessionCache`). Claims, hand-offs, calls, terminal writes that may be lost, crashes
and startup reaps, over any number of incarnations with one bridge alive at a time and no outside reset to pending.

**Codecs** (`JsonExtract`, `YamlQuote`). Extraction undoes printing of any JSON object (RFC 8259, sections 4 and 7)
inside any prose; a decoder for YAML 1.2.2 double-quoted scalars (sections 5.7 and 7.3.1) undoes quoting.

**Glob walk** (`GlobMatch`, `GlobWalk`). The walk from each allowed glob's own root returns what a filter over all
files would. What a glob with `**` matches is said on path segments. Go's `path.Match` is a parameter; all that
is assumed is that it takes the literal start of a pattern literally.

**OTLP exporter** (`OtelSpans`, `OtelExport`). The span forest of one work item, and at-least-once export over ticks
with any failures and restarts. A tick covers everything up to its new checkpoint if and only if no row cut off by
the LIMIT ties with the last row of the batch; over a run, export is at least once if and only if no tick moves the
checkpoint past a tied row that was never sent. `TieLosesRow` loses one for good; distinct times exclude ties. A
checkpoint save that took effect but was reported as failed costs no coverage, but can lower the checkpoint later:
it decreases exactly when a tick moves it while everything there is to fetch lies before the stored one.

`Strings` holds the few functions of Go's `strings` package that these need, `Sequences` facts about sequences, and
`Options` an option type.

## Model

| member | source | states |
|---|---|---|
| `TurnSafety.OneTurnIffNoEarlyArchive` | cmd/persona-host/gateway.go:551-786 | on every run, every channel in every state has exactly one turn of its connection under way when busy and none when free, if and only if no archive frame was handled on a busy channel without a session |
| `TurnSafety.StepKeepsOneTurn` | cmd/persona-host/gateway.go:425-482 | any one step other than such an archive frame keeps one turn per channel |
| `TurnSafety.EarlyArchiveBreaksOneTurn` | cmd/persona-host/gateway.go:752-760 | that frame always breaks it, because the session is looked at before busy |
| `TurnSafety.TwoTurnsAtOnce` | cmd/persona-host/gateway.go:752-786 | after it, the next message that passes the gates, a human's or another persona's that names us, leaves two turns running on the channel |
| `TurnSafety.EarlyArchiveIsReachable` | cmd/persona-host/gateway.go:551-628 | the state it needs follows a reconnect and a first message |
| `TurnSafety.TurnsRunOnTheirSession` | cmd/persona-host/gateway.go:597-627 | without an early archive, every turn of the persona's own that runs on an established session runs on the one its channel holds, throughout the run |
| `TurnSafety.StaleReportsChangeNothing` | cmd/persona-host/gateway.go:668-675 | on every run, a turn from before a reconnect changes nothing by whatever it reports later, except that it is over |
| `TurnSafety.EyesMatchIffNoneIsOverwritten` | cmd/persona-host/gateway.go:572-580 | on every run, the messages that wear the turn's eyes are exactly the channel's current nonempty eyedID, if and only if no turn starts over the eyes of another message |
| `TurnSafety.EyesAreBalanced` | cmd/persona-host/gateway.go:723-732 | without an early archive at most one message wears the eyes, the remembered one, and only while its turn runs |
| `TurnEvents.ChannelIsItsEvents` | cmd/persona-host/gateway.go:425-786 | on every run a channel's session, its characters' names, the hops it has spent and whether it waits to rotate are functions of the frames, reports and turn ends so far, counted from the events alone |
| `TurnLaws.PassesIsHears` | cmd/persona-host/gateway.go:551-566 | policy "mentioned" hears only what names the persona, "judgment" anything but what calls on somebody else without naming it, "all" everything |
| `TurnLaws.MessageIsServed` | cmd/persona-host/gateway.go:551-628 | on every run a message starts a turn if and only if it asks for one and the channel is free: the turn answers it, on its character's session or the channel's, and it wears the eyes; while a turn runs it takes the place of what waited; any other message changes neither |
| `TurnLaws.TurnEndIsServed` | cmd/persona-host/gateway.go:723-743 | on every run the end of a turn takes the eyes off and starts a turn if and only if something waited, the policy hears it and the channel does not rotate; it answers what waited |
| `TurnLaws.ArchiveIsServed` | cmd/persona-host/gateway.go:752-777 | on every run an archive frame starts a closing turn on the session if and only if there is one and the channel is free |
| `TurnLaws.TurnStartsIff` | cmd/persona-host/gateway.go:425-786 | on every run a step starts a turn in these three cases and no other |
| `TurnLaws.TriggersAreConserved` | cmd/persona-host/gateway.go:551-580 | on every run each message has a turn started for it, is replaced, dropped by a rotation or a new connection or refused on re-gating, or waits, exactly as often as it asked for a turn; what waits is the latest one that asked, and the channel is busy |
| `TurnLaws.BudgetIsRestored` | cmd/persona-host/gateway.go:457-461 | on every run a human message, blank or not, a resume frame and a rotation leave the channel its whole budget |
| `TurnLaws.PingPongIsBounded` | cmd/persona-host/gateway.go:457-480 | within a run, turns started for other personas' messages on a channel number at most 3 × (1 + resets), resets being counted from the events |
| `TurnLaws.BudgetIsExact` | cmd/persona-host/gateway.go:465-480 | on every run, another persona's message that names us is held back, and changes nothing, exactly when three such messages have come since the last human message, resume, rotation or new connection |
| `TurnLaws.ArchiveEndsSession` | cmd/persona-host/gateway.go:729-786 | on every run, an archive frame on a channel with a session rotates the channel as the next turn there ends, whatever arrives meanwhile: no session, no turn, nothing pending, the whole budget, and no follow-up |
| `Delivery.RowsAreSentOnceInOrder` | cmd/persona-host/outbox.go:29-68 | over whole runs each outbox row is handled at most once, and the rows of one session in the order they were written |
| `Delivery.AnswerFollowsItsRows` | cmd/persona-host/gateway.go:695-722 | on every run, when a finished turn's claim succeeds, its answer is sent last, and each row already written for its session is handled before it if and only if no earlier claim took that row and lost its reply |
| `Delivery.StepSends` | cmd/persona-host/gateway.go:704-722 | a step sends what becomes of rows and after it, if a current turn ends with something said, the answer, to the turn's channel under the name it speaks in; nothing else |
| `Delivery.StepMarksIff` | cmd/persona-host/gateway.go:804-833 | a row is marked exactly when it waits for a session that some channel is on, or a character of it, at a drain whose claim is applied |
| `Delivery.StepWrites` | cmd/persona-host/outbox.go:22-48 | a row is appended unposted and as written, and no step changes more of a row than its mark |
| `TurnSafety.EarlySessionIsDrained` | cmd/persona-host/gateway.go:677-694 | on every run without an early archive, a spawned turn's session is in reach of the drain, on the turn's channel, as soon as it is reported |
| `TurnSafety.ReportIsHeldIff` | cmd/persona-host/gateway.go:677-694 | in any state, a session reported early is in reach of the drain if and only if it is a character's, or the channel had no session or this one, or a character there has it already |
| `TurnSafety.TurnsKeepTheirSessionIff` | cmd/persona-host/gateway.go:695-743 | throughout a run, every turn of the persona's own that has a session has its channel's, if and only if no turn ends beside such a turn while the channel is archiving, or, being the persona's own, with a session other than that turn's |
| `TurnSafety.EndMovesSession` | cmd/persona-host/gateway.go:695-743 | in any state, such an end leaves the other turn running on a session that is not its channel's |
| `TurnSafety.MoveNeedsEarlyArchive` | cmd/persona-host/gateway.go:752-760 | on every run there is no such end unless an archive frame was early before |
| `TurnSafety.SessionMovesUnderATurn` | cmd/persona-host/gateway.go:695-703 | a run where it happens: of three turns the second ends with a session of its own, and the channel leaves the third's |
| `TurnSafety.SessionClearedUnderATurn` | cmd/persona-host/gateway.go:732-736 | and one where the second fails to spawn after an archive frame was put off: the rotation clears the session the third runs on |
| `Delivery.RowsGoToTheirHolder` | cmd/persona-host/gateway.go:804-850 | with disjoint sessions, a claimed row goes to the channel holding its session whatever the order of the map iteration: posted with its body, or as a reaction on the message wearing the eyes; skipped only for want of one or in a channel with an empty name |
| `Delivery.HolderIsOrderFreeIff` | cmd/persona-host/gateway.go:804-850 | the channel a session's rows go to is the same for every order of the map iteration, if and only if at most one channel holds the session |
| `Delivery.BeatsSpeakAsTheirCharacter` | cmd/persona-host/gateway.go:856-862 | a beat without a speaker of its own is spoken by the promoted character whose session it is, and by nobody else |
| `Delivery.PostedRowsAreHandledIff` | cmd/persona-host/gateway.go:825-875 | in every state of every run, a row has been handled if and only if it is marked as posted and no claim took it and lost its reply |
| `Delivery.HandledIffReplyKept` | cmd/persona-host/outbox.go:29-68 | on every run, a row is handled if and only if the claim that marked it did not lose its reply, and nothing later changes that |
| `Delivery.BatchKeepsOrderly` | cmd/persona-host/outbox.go:33-68 | a claimed batch continues every session's order and leaves only later rows to come |
| `Outbox.ClaimOutboxForSessions` | cmd/persona-host/outbox.go:33-68 | whatever order the database reports the rows in, a claim marks exactly the sessions' unposted rows and returns their ids in id order |
| `Outbox.Claimed` | cmd/persona-host/outbox.go:37-67 | the ids handed out are ascending and exactly the waiting ones |
| `Outbox.Marked` | cmd/persona-host/outbox.go:37-48 | nothing of the sessions waits afterwards, no other row changes, and no row changes otherwise |
| `Gateway.GatewayConn.Serve` | cmd/persona-host/gateway.go:262-283 | one turn of the worker's loop takes exactly the step of the event it serves, keeping the channels' states separate objects |
| `Gateway.GatewayConn.Handle` | cmd/persona-host/gateway.go:425-482 | a frame changes one channel, created on first mention, and the turns, by the step's decision |
| `Gateway.GatewayConn.MaybeStartTurn` | cmd/persona-host/gateway.go:551-628 | a message starts a turn on the right session, waits in place of an earlier one, or is gated out, in place |
| `Gateway.GatewayConn.HandleProgram` | cmd/persona-host/gateway.go:752-775 | resume and archive frames, with the closing turn, change the channel as the step says |
| `Gateway.GatewayConn.ApplySession` | cmd/persona-host/gateway.go:668-694 | an early session report registers the session on its channel, unless it is stale |
| `Gateway.GatewayConn.ApplyDone` | cmd/persona-host/gateway.go:695-744 | a final report registers, drains, answers and releases in the step's order, or is stale |
| `Gateway.GatewayConn.Release` | cmd/persona-host/gateway.go:723-743 | eyes off, then rotation or the one follow-up |
| `Gateway.GatewayConn.RouteSessions` | cmd/persona-host/gateway.go:808-821 | the two maps built over the channels give every session's last visited holder and speaker, and no other session |
| `Gateway.GatewayConn.DrainOutbox` | cmd/persona-host/gateway.go:804-875 | a drain marks and sends what the step says, for every answer the database may give |
| `Gateway.GatewayConn.Reconnect` | cmd/persona-host/gateway.go:939-955 | a new connection forgets all channels and moves to the next generation |
| `Gateway.ChannelState.Offer` | cmd/persona-host/gateway.go:567-580 | a busy channel keeps the latest trigger, a free one takes it and puts the eyes on it |
| `Gateway.ChannelState.Rotate` | cmd/persona-host/gateway.go:779-786 | a rotation in place |
| `Citation.CheckCitation` | cmd/stewards-mcp/citation_check.go:196-335 | for any sections, as long as no inverted scope is cut out of the body: a quote is verified if and only if some checked scope has an original span with the quote's normal form (for a cut quote ending in a space: with it and one word rune more); the reported span is such a span, in the first scope that has one; otherwise the nearest region is a longest shared run |
| `Citation.VerdictIsExact` | cmd/stewards-mcp/citation_check.go:281-307 | for a nonempty normalized quote within the cap, a scope holds it in normal form exactly when a span of the scope reads as it |
| `Citation.WholeDocumentVerdict` | cmd/stewards-mcp/citation_check.go:292-335 | over the whole document, and within both caps, that is the same as the longest shared run having the quote's length |
| `Citation.CutQuoteOccursIff` | cmd/stewards-mcp/citation_check.go:287-307 | a quote cut after a space is found exactly when a span of the scope reads as it and one word rune more |
| `Citation.OccursIffScopeReads` | cmd/stewards-mcp/citation_check.go:292-307 | an exact search of the normalized scope finds a text ending in a word exactly when an original span normalizes to it |
| `Citation.FirstPass` | cmd/stewards-mcp/citation_check.go:292-307 | the first scope in priority order that holds the quote gives the location |
| `Citation.NearestRegion` | cmd/stewards-mcp/citation_check.go:309-334 | the nearest region is a longest run shared with the capped document, with the section and excerpt of the original text it came from |
| `Citation.Scopes` | cmd/stewards-mcp/citation_check.go:202-279 | there is always a scope, it lies within the document, and it is the whole document when nothing was asked for |
| `Citation.ScopesAreAskedFor` | cmd/stewards-mcp/citation_check.go:220-279 | of a section address the scope is the first section that has it, clamped to the document; of a heading the scopes are in order all sections whose heading contains it, whatever the case of either; the whole document if and only if there is no such section |
| `Citation.NeedleIsFirstThousand` | cmd/stewards-mcp/citation_check.go:282-290 | what is searched for is the quote's normal form, or its first 1000 runes |
| `Citation.ExcerptShowsAround` | cmd/stewards-mcp/citation_check.go:456-476 | the excerpt is the region with up to 160 runes of the body on either side, with dots exactly where the body goes on |
| `Citation.SectionRefForOffset` | cmd/stewards-mcp/citation_check.go:443-450 | the address of the first covering section, or the fallback |
| `Citation.SectionAtIsFirst` | cmd/stewards-mcp/citation_check.go:443-450 | the first section that covers the offset gives the address, and the fallback does if and only if none covers it |
| `Citation.SectionAtIsCovering` | cmd/stewards-mcp/citation_check.go:438-450 | with non-overlapping sections it is the one that covers the offset, whatever their order |
| `Citation.NormalizeCitationText` | cmd/stewards-mcp/citation_check.go:353-386 | the loop's text and offset map are the normal form and its original offsets, shifted by the base |
| `Normalize.NormIsJoinedWords` | cmd/stewards-mcp/citation_check.go:342-386 | the normal form is the folded maximal non-space runs joined by single spaces |
| `Normalize.GlyphsRead` | cmd/stewards-mcp/citation_check.go:359-366 | exactly the listed typographic quotes, primes, dashes and the minus read as ASCII ones, and every other rune as itself |
| `Normalize.NormIsIdempotent` | cmd/stewards-mcp/citation_check.go:342-386 | normalizing twice is normalizing once |
| `Normalize.OffsetsInRange` | cmd/stewards-mcp/citation_check.go:342-386 | the offset list is strictly increasing and in range, and lists exactly the positions that emit |
| `Normalize.SubSpanIsPiece` | cmd/stewards-mcp/citation_check.go:293-299 | normalizing any sub-span gives a contiguous piece of the normalized whole |
| `Normalize.PieceIsSpan` | cmd/stewards-mcp/citation_check.go:295-299 | a piece that starts and ends on a word is the normal form of the original span its offsets give |
| `Lcs.LongestCommonSubstring` | cmd/stewards-mcp/citation_check.go:414-436 | the greatest length of a run shared by both texts, and an end in `b` whose run occurs in `a`, although the reused row is never cleared |
| `Lcs.FillRow` | cmd/stewards-mcp/citation_check.go:422-432 | one row of the table is filled in place from the row before, whatever it held, and the best run is kept up |
| `Lcs.RunIsLongest` | cmd/stewards-mcp/citation_check.go:421-434 | any shared run is at most as long as the run the table has at its end |
| `Lcs.IndexRunes` | cmd/stewards-mcp/citation_check.go:390-409 | the first occurrence, or -1 exactly when there is none or the needle is empty |
| `RobotsMatch.UnanchoredIsExact` | cmd/fetch-md-mcp/politeness.go:358-391 | without `$` the greedy matcher accepts exactly the paths with a prefix that matches, each `*` standing for any sequence |
| `RobotsMatch.GreedyEndsFirst` | cmd/fetch-md-mcp/politeness.go:366-382 | the exchange argument: if the literals can be placed at all, the leftmost placement exists and ends no later |
| `RobotsMatch.AnchoredIsSound` | cmd/fetch-md-mcp/politeness.go:358-391 | with `$`, other than bare, an accepted path matches as a whole |
| `RobotsMatch.AnchoredIsExactIff` | cmd/fetch-md-mcp/politeness.go:356-391 | an anchored pattern is matched exactly on every path if and only if it is not the bare `$` and has no `*`, or has one just before the `$` |
| `RobotsMatch.AnchoredIsExactUnless` | cmd/fetch-md-mcp/politeness.go:358-391 | on one path, an anchored match is found exactly when the path matches and the last literal does not occur before the end as well, after the leftmost placement of the others |
| `RobotsMatch.AnchoredCounterexample` | cmd/fetch-md-mcp/politeness.go:356-391 | `/*.php$` is refused on `/a.php/b.php`, which it matches |
| `RobotsMatch.SecondOccurrenceMissed` | cmd/fetch-md-mcp/politeness.go:366-388 | so is every anchored pattern of two literals on every path that it matches and in which the last literal occurs before the end too |
| `RobotsMatch.BareAnchorMatchesAll` | cmd/fetch-md-mcp/politeness.go:384-387 | the bare `$` is accepted on every path |
| `RobotsMatch.MatchRobotsPattern` | cmd/fetch-md-mcp/politeness.go:358-391 | the loop decides by the leftmost placement of the literals |
| `RobotsRules.RobotsVerdict` | cmd/fetch-md-mcp/politeness.go:333-354 | allowed if and only if no rule applies or a longest applying rule is an Allow; a refusal names a longest Disallow |
| `RobotsRules.VerdictIsOrderFree` | cmd/fetch-md-mcp/politeness.go:333-354 | the verdict depends on the set of rules alone |
| `RobotsRules.ParseRobots` | cmd/fetch-md-mcp/politeness.go:256-329 | the parser's rules are those of the matching specific groups, or, when these carry none, of the `*` groups |
| `RobotsText.LineRoundTrip` | cmd/fetch-md-mcp/politeness.go:264-304 | a directive printed with any white space, letter case and comment is read as what it means, Allow and Disallow kept apart; a line without a colon before its comment says nothing |
| `RobotsText.RobotsRoundTrip` | cmd/fetch-md-mcp/politeness.go:256-329 | of any printed groups, after lines that belong to none, the rules that govern are those said by a group that names the product, or if these say none, those of the groups for everybody, each as printed |
| `RobotsRules.GroupOrderDoesNotMatter` | cmd/fetch-md-mcp/politeness.go:256-354 | for texts made of groups with at least one non-agent line each, reordering whole groups and adding or deleting lines that say nothing leaves the allowed bit of every path |
| `RobotsRules.BlankLineDeleted` | cmd/fetch-md-mcp/politeness.go:265-276 | deleting a line with nothing before its comment from any text leaves the governing rules |
| `RobotsRules.BlocksAreGroups` | cmd/fetch-md-mcp/politeness.go:281-303 | every run of agent lines with the lines after it is read as one group of its own |
| `RobotsRules.GoverningIsOrderFree` | cmd/fetch-md-mcp/politeness.go:305-328 | the fallback to `*` groups and the governing rules depend on the set of groups alone |
| `RateLedger.FloorIff` | cmd/fetch-md-mcp/politeness.go:93-101 | the 64-bit interval reaches 500 ms if and only if the rate is at most 9223372036854, or its product with one million is at least 500 ms and below 2^63 modulo 2^64 |
| `RateLedger.IntervalIsClampedRateIff` | cmd/fetch-md-mcp/politeness.go:93-101 | the interval is the clamped rate exactly for rates up to 9223372036854 |
| `RateLedger.IntervalIsAsAsked` | cmd/fetch-md-mcp/politeness.go:93-101 | two seconds when no rate is asked for, half a second at least, and otherwise the rate asked for, below the overflow |
| `RateLedger.OverflowingRates` | cmd/fetch-md-mcp/politeness.go:93-101 | the next rate up has a negative interval, and 18446744073710 a positive one far below the floor |
| `RateLedger.PoliteGate.RateWait` | cmd/fetch-md-mcp/politeness.go:223-235 | a reservation takes the later of the clock and the host's next free time, and moves that by the caller's 64-bit interval |
| `RateLedger.ConsecutiveAreSpaced` | cmd/fetch-md-mcp/politeness.go:223-245 | under any interleaving, consecutive slots of one host are the earlier caller's interval apart, and none precedes its caller's clock |
| `RateLedger.SlotsAreSpaced` | cmd/fetch-md-mcp/politeness.go:223-245 | so are any two slots of a host, unless a reservation in between has an interval that overflowed below zero |
| `RateLedger.WindowBound` | cmd/fetch-md-mcp/politeness.go:93-101 | any half-open window of width W holds at most ⌈W / 500 ms⌉ slots of a host whose callers' rates keep the floor |
| `RateLedger.WindowBoundIff` | cmd/fetch-md-mcp/politeness.go:93-101 | the bound holds for all reservations at some set of rates if and only if every one of these rates keeps the floor |
| `RateLedger.OtherHostsDoNotMatter` | cmd/fetch-md-mcp/politeness.go:223-245 | a host's slots are those it would get if no other host were ever asked for |
| `RateLedger.SlotIsNextFree` | cmd/fetch-md-mcp/politeness.go:223-235 | a slot is never later than the clock and the host's last reservation require |
| `BridgeQueue.CalledAtMostOnce` | cmd/stewards-mcp/bridge_run.go:198-368 | over all incarnations each row is handed to CallTool at most once |
| `BridgeQueue.InProgressIsLocated` | cmd/stewards-mcp/bridge_run.go:198-240 | in every reachable state a row is in progress if and only if the main loop, the job channel or a worker holds it or it is orphaned, and it is in one such place only |
| `BridgeQueue.ReapLeavesNoneInProgress` | cmd/stewards-mcp/bridge_run.go:426-441 | a successful startup reap leaves no row in progress |
| `BridgeQueue.TerminalIsFinal` | cmd/stewards-mcp/bridge_run.go:356-421 | done and error are final over any continuation of a run |
| `BridgeQueue.StatusMovesForward` | cmd/stewards-mcp/bridge_run.go:198-441 | a row's status only moves forward, a terminal row does not change, and calls are never taken back |
| `BridgeQueue.StatusChangesIff` | cmd/stewards-mcp/bridge_run.go:198-441 | on every run a row becomes in progress if and only if it is claimed, done if and only if the worker that called it reports a reply and the write is applied, an error if and only if the write of a failure is applied or a startup reap finds it in progress; nothing else of it changes |
| `BridgeQueue.OtherRowsAreLeftAlone` | cmd/stewards-mcp/bridge_run.go:201-216 | no row of another kind is touched, none appears or disappears |
| `BridgeQueue.OrphanedIff` | cmd/stewards-mcp/bridge_run.go:223-228 | a row is left to nobody exactly by a claim whose reply is lost, a cancelled hand-off, a lost terminal write or a crash |
| `BridgeQueue.DoneWasCalled` | cmd/stewards-mcp/bridge_run.go:343-364 | on every run a row that becomes done was handed to CallTool |
| `BridgeQueue.CrashOrphansAll` | cmd/stewards-mcp/bridge_run.go:426-441 | after a crash exactly the rows in progress are nobody's |
| `BridgeQueue.WorkersStay` | cmd/stewards-mcp/bridge_run.go:233-240 | a bridge starts with idle workers, and keeps these until it crashes |
| `BridgeQueue.RowsMoveAlong` | cmd/stewards-mcp/bridge_run.go:198-368 | on every run a claimed row is the main loop's until it is handed off; a worker takes the longest waiting row, is calling it when its call is listed, and is idle after its last write; no other event moves a row |
| `BridgeQueue.JobsAreFifo` | cmd/stewards-mcp/bridge_run.go:96-112 | workers take the rows in the order they were handed off, and no more wait than twice the workers |
| `BridgeQueue.StepKeepsInv` | cmd/stewards-mcp/bridge_run.go:163-441 | every step, crashes, lost claims and lost writes among them, keeps the invariant of the queue |
| `BridgeQueue.Bridge.DrainOne` | cmd/stewards-mcp/bridge_run.go:198-221 | claims an oldest pending row that nobody else has locked; none only when the query fails or every pending row is locked; a claim whose reply is lost orphans its row |
| `BridgeQueue.Bridge.HandOffOrCancel` | cmd/stewards-mcp/bridge_run.go:223-228 | the claimed row goes to the job channel, or is orphaned when the context ends first |
| `BridgeQueue.Bridge.TakeJob` | cmd/stewards-mcp/bridge_run.go:233-240 | a worker takes the oldest job |
| `BridgeQueue.Bridge.WriteResult` | cmd/stewards-mcp/bridge_run.go:356-364 | the terminal write of a reply, applied or lost |
| `BridgeQueue.Bridge.WriteError` | cmd/stewards-mcp/bridge_run.go:404-421 | the terminal write of a failure, applied or lost |
| `BridgeQueue.Bridge.ReapStaleRows` | cmd/stewards-mcp/bridge_run.go:426-441 | turns every stale row into an error and touches no other |
| `SessionCache.Cache.Get` | cmd/stewards-mcp/bridge_run.go:490-521 | the cached session or a newly opened one, never a closed one, and none when the server cannot be reached |
| `SessionCache.Cache.Invalidate` | cmd/stewards-mcp/bridge_run.go:526-534 | closes and forgets what is cached for the server; no session is closed twice or leaked |
| `SessionCache.Cache.CloseAll` | cmd/stewards-mcp/bridge_run.go:536-544 | afterwards every session ever opened has been closed, once |
| `JsonExtract.ExtractUndoesPrint` | cmd/stewards-mcp/compact_context.go:188-225 | for every JSON object, any prefix without a brace and any suffix, the printed object is what is extracted |
| `JsonExtract.ExtractJSONObject` | cmd/stewards-mcp/compact_context.go:191-225 | the shortest prefix from the first brace that is balanced outside strings; empty if and only if there is none |
| `JsonExtract.ExtractsIsUnique` | cmd/stewards-mcp/compact_context.go:191-225 | only one result satisfies that |
| `JsonExtract.JsonIsNeutral` | cmd/stewards-mcp/compact_context.go:200-222 | a printed JSON value leaves a scanner outside strings at the depth where it began |
| `YamlQuote.QuoteRoundTrip` | cmd/stewards-mcp/projector.go:349-374 | the decoder returns exactly the runes that were quoted and stops at the closing quote, whatever follows |
| `YamlQuote.GoTextRoundTripIff` | cmd/stewards-mcp/projector.go:352-373 | a Go string comes back as it was if and only if it is valid UTF-8 |
| `YamlQuote.QuotedIsInjective` | cmd/stewards-mcp/projector.go:349-374 | different sequences of runes are quoted differently |
| `YamlQuote.QuotedIsInjectiveIff` | cmd/stewards-mcp/projector.go:352-373 | no other Go string is quoted like a given one, if and only if U+FFFD is not among its runes, as a rune or for an invalid byte |
| `YamlQuote.NoRawControl` | cmd/stewards-mcp/projector.go:365-368 | no control character below 0x20 is emitted raw |
| `YamlQuote.YamlQuote` | cmd/stewards-mcp/projector.go:349-374 | the loop over a Go string, invalid bytes included, emits the quoted form that the round trip is about |
| `GlobMatch.MatchIsBelowRoot` | cmd/fs-read-mcp/tools.go:161-174 | whatever matches a glob without backslashes, with classes or not, is at or below the glob's walk root |
| `GlobMatch.StarMatchTakesLiterals` | cmd/fs-read-mcp/sandbox.go:98-102 | what is assumed of Go's path matching holds of patterns of literals, `*` and `?` |
| `GlobMatch.GlobWalkRoot` | cmd/fs-read-mcp/tools.go:161-174 | the literal directories that the glob starts with |
| `GlobMatch.WalkRootIsLongest` | cmd/fs-read-mcp/tools.go:161-174 | the walk root is the longest run of segments without wildcards that the glob starts with |
| `GlobMatch.MatchGlob` | cmd/fs-read-mcp/sandbox.go:97-127 | the search loops decide the glob with its recursive `**` |
| `GlobMatch.DeepGlobIff` | cmd/fs-read-mcp/sandbox.go:104-126 | on segments: `pre/**/suf` matches a path if and only if the segments of `pre` start the path's and `path.Match` takes `suf` for some tail of the others; `**/suf` is the case without `pre`, `pre/**` the one where nothing must follow |
| `GlobMatch.FlatGlobIff` | cmd/fs-read-mcp/sandbox.go:99-102 | without `**` a glob matches what `path.Match` says |
| `GlobMatch.MatchesAllowed` | cmd/fs-read-mcp/sandbox.go:82-89 | a path is allowed if and only if some allowed glob matches it |
| `GlobWalk.WalkIsFullFilter` | cmd/fs-read-mcp/tools.go:393-443 | without a limit the pruned walk returns, each once, exactly the files that match an allowed glob and the user's glob, whatever that is, and have none of the nine excluded directories from that allowed glob's root down |
| `GlobWalk.CandidatesForIff` | cmd/fs-read-mcp/tools.go:401-436 | for one allowed glob the pruned walk reports exactly what the full filter keeps |
| `GlobWalk.LimitTakesPrefix` | cmd/fs-read-mcp/tools.go:393-443 | a limited walk returns the first results of the unlimited one |
| `GlobWalk.WalkAllowedFiltered` | cmd/fs-read-mcp/tools.go:393-443 | the walk collects the candidates of all globs, without repeats, up to the limit; when the context ends at any moment it returns the first of these results |
| `OtelExport.ExportIsAtLeastOnceIff` | cmd/stewards-mcp/otel_export.go:114-148 | throughout a run of ticks with any failures, saves of unknown outcome, row changes and restarts, every terminal row up to the checkpoint was sent in an acknowledged POST or rejected, if and only if no tick moves the checkpoint past a row never sent or rejected that the limit cut off a tie |
| `OtelExport.DistinctTimesDropNothing` | cmd/stewards-mcp/otel_export.go:229-260 | with distinct update times no tick does that |
| `OtelExport.CheckpointNeverDecreasesIff` | cmd/stewards-mcp/otel_export.go:114-148 | throughout a run the checkpoint never decreases, if and only if no tick moves it while every row it could fetch lies strictly before the stored one |
| `OtelExport.StepLowersIff` | cmd/stewards-mcp/otel_export.go:114-148 | one step lowers the checkpoint exactly then, as long as fewer rows than one batch lie between the checkpoint held and the stored one |
| `OtelExport.RunsStayNarrow` | cmd/stewards-mcp/otel_export.go:138-147 | which is so in every state of every run |
| `OtelExport.FallsBackAfterUnknownSave` | cmd/stewards-mcp/otel_export.go:138-141 | no tick does that unless an earlier save took effect but was reported as failed |
| `OtelExport.UnknownSaveLowersCheckpoint` | cmd/stewards-mcp/otel_export.go:138-141 | a run where it happens: a save that took effect but was reported as failed, a row of its batch that reopens, and the next tick |
| `OtelExport.TickCoversIff` | cmd/stewards-mcp/otel_export.go:229-260 | a tick covers every terminal row up to its new checkpoint if and only if no row left out by the limit ties with its last row |
| `OtelExport.TieLosesRow` | cmd/stewards-mcp/otel_export.go:229-260 | with one item more than the limit, all updated at one moment, a fault-free tick of an exporter just started passes over a row that no later tick fetches |
| `OtelExport.GoodTickAdvances` | cmd/stewards-mcp/otel_export.go:114-148 | a tick in which nothing fails covers what it fetched and strictly advances the checkpoint |
| `OtelExport.TickCounts` | cmd/stewards-mcp/otel_export.go:114-148 | a version is counted as sent exactly when it was in a batch that was built and acknowledged, and as rejected when such a batch passed it over |
| `OtelExport.FailureKeepsCheckpoint` | cmd/stewards-mcp/otel_export.go:114-148 | a tick in which anything fails leaves the stored and the held checkpoint as they were |
| `OtelExport.OtherEventsKeepLedger` | cmd/stewards-mcp/otel_export.go:64-107 | a start takes up the stored checkpoint, and nothing but a tick changes what is stored or counted |
| `OtelExport.OtelExporter.Tick` | cmd/stewards-mcp/otel_export.go:114-148 | one tick's effect on what was sent and on the stored and returned checkpoint, for every place it can fail |
| `OtelExport.BuildSpans` | cmd/stewards-mcp/otel_export.go:416-459 | every fetched item is sent or, if its id does not parse, skipped; the checkpoint offered is the greatest update time |
| `OtelSpans.BuildWorkItemSpans` | cmd/stewards-mcp/otel_export.go:477-618 | a span forest if and only if the id parses: one parentless span, first, from the item's creation to its completion or last update, Ok if and only if it completed and Error if and only if it failed; every other parent earlier, one trace id, start before end; one tree per session that left a trace; as many tool spans as replies |
| `OtelSpans.BuildToolCallSpans` | cmd/stewards-mcp/otel_export.go:652-715 | one span per tool reply, in order, named and started by the last request for its call id that no reply has used |
| `OtelSpans.RequestConsumedOnce` | cmd/stewards-mcp/otel_export.go:652-715 | each recorded request is consumed by at most one reply, and each reply consumes at most one |
| `OtelSpans.RepliesAre` | cmd/stewards-mcp/otel_export.go:671-673 | the replies are, in order, the tool messages with a call id |
| `OtelSpans.TreesAreForest` | cmd/stewards-mcp/otel_export.go:477-618 | session trees under a root make a forest |
| `OtelSpans.TreesCount` | cmd/stewards-mcp/otel_export.go:477-618 | the tool spans are the replies of the emitted sessions, and the rest is one span per session |
| `OtelSpans.BuildSessionSpans` | cmd/stewards-mcp/otel_export.go:529-600 | a session's span goes from its earliest message to its latest, or takes the row's own times when it has none, with its tool spans under it; Ok if and only if the item completed, Error if and only if it failed in this stage |
| `OtelSpans.StageNameRoundTrip` | cmd/stewards-mcp/otel_export.go:466-475 | the stage read from a session id is the stage it was made with |
| `OtelSpans.StageNameIs` | cmd/stewards-mcp/otel_export.go:466-475 | the stage is what follows the first "--" after the leading "wi--", and empty without these |
| `OtelSpans.TraceIdFromUuid` | cmd/stewards-mcp/otel_otlp.go:133-147 | there is a trace id, of 32 lower-case hex digits, if and only if the id is 32 hex digits and any dashes |
| `OtelSpans.TraceIsOwnDigits` | cmd/stewards-mcp/otel_otlp.go:126-147 | the trace id's digits are the id's own, in order, in lower case |

## Left out

- TurnSafety.OneTurnIffNoEarlyArchive: a reconnect is one step, so the time between losing a connection and dialling again, in which the loop handles nothing, is not modelled; shutdown by context is not modelled either.
- TurnSafety.EyesAreBalanced: counts the turn loop's own reactions and takes every send to succeed; room reactions are a different reaction of the same message.
- TurnLaws.PingPongIsBounded: a reconnect counts as a reset of the budget, as the channels' states are new.
- Delivery.RowsGoToTheirHolder: when a promoted character's session is held by two channels the row goes to the one visited last, which differs between orders (`HolderIsOrderFreeIff`); nothing more is claimed there.
- Outbox.ClaimOutboxForSessions: one claimer per session; the statement skips rows that another claimer has locked, and there is none here.
- Gateway.GatewayConn.Serve: the recent-message buffer, labels, typing pulses, prompt framing and the mood prefix of a beat are not part of the model; name addressing and the choice of a promoted character are inputs of an event, and so are a failing character lookup and a blank body. A character has a nonempty key, as rows do.
- Name addressing (`isAddressed`, `mentionsAnother`, `matchCast`), display-name sync, the room and DM polls and the one retry of an empty answer.
- Citation.CheckCitation: the prose of `note` and `scope` and the document slug are not modelled; a scope that ends before it starts must not be reached, since cutting it out of the body panics.
- Normalize.NormIsIdempotent: Unicode's white-space and lower-case tables are functions with the stated assumptions, not the tables themselves.
- RobotsRules.BlankLineDeleted: states that the governing rules stay; the text must keep at least one line, as every Go string split does.
- robots.txt fetching, caching and expiry, redirects, and the sleep until a reserved slot.
- RateLedger.WindowBound: about reserved slots, not requests: redirect hops reserve none. Clocks are integers of any size; only the interval wraps.
- BridgeQueue.CalledAtMostOnce: assumes one bridge alive at a time and nothing outside that sets a row back to pending.
- Payload decoding, per-tool time-outs and the content of replies in the bridge; they only choose between the two terminal writes.
- SessionCache.Cache.Get: after `closeAll` the map is nil and storing a session would panic, so a call that opens one then is excluded.
- JsonExtract.ExtractUndoesPrint: texts are sequences of characters; multi-byte runes are single characters here, which no branch of the scan distinguishes.
- YamlQuote.QuotedIsInjectiveIff: a Go string is given as its runes and stray bytes; which bytes encode a rune is not modelled, beyond a stray one being at least 0x80 and 0xFF never being part of one.
- GlobMatch.DeepGlobIff: only the first `**` of a glob is recursive; what follows it, a second one included, is for `path.Match`. Paths have no empty segment.
- RobotsText.RobotsRoundTrip: a group has at least one line after its agents; a colon is not white space. Lower-casing maps rune by rune.
- GlobMatch.MatchIsBelowRoot: for allowed globs without a backslash and without empty, `.` and `..` segments, which `filepath.Join` would rewrite; the matching of one path by `path.Match` is a parameter.
- GlobWalk.WalkAllowedFiltered: unreadable directories and symbolic links are not modelled; the file system is a tree that does not change during a walk.
- `resolvePath` and the read, list and search tools of the file sandbox.
- OtelExport.ExportIsAtLeastOnceIff: assumes that rows change to times above the stored checkpoint, and a tick is one step.
- OtelExport.BuildSpans: an item's spans are abstracted to the item's version; `OtelSpans` has the spans themselves.
- OtelSpans.BuildWorkItemSpans: span attributes, cost aggregation and the decoding of tool calls are left out; the span-id hash is an uninterpreted function that is never empty; nanosecond times do not wrap around.
- Postgres, the extension's SQL, LISTEN/NOTIFY, WebSocket, HTTP and MCP transports; the statements used are atomic updates of the model's tables.
