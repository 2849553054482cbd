# Device telemetry router: a verified model

The router takes in telemetry lines, checks them, turns each new line into one event, matches the event against
routing rules and delivers it to the topics of those rules with retries. This project models that path in Dafny
and proves what it is relied on for. `dafny verify dfyconfig.toml` checks all of it.

## What is modelled

**Checksum and line protocol** (`Gf2`, `CrcRegister`, `Crc`, `CrcPeriod`, `Checksum`, `Text`, `Trimming`,
`Wire`, `Protocol`, `Dedup`). The nested shift-and-xor loop is proved to divide by x^16+x^12+x^5+1, the
generator of section 2 of ITU-T V.41, and what that detects is derived from the algebra: any burst within 16
bits, which is the bound for bursts, any odd number of flipped bits, and any two bits whose distance is no
multiple of 32767, so that up to three flipped bits of a line are never missed. `ParseMessage` accepts exactly
the lines the protocol describes; building a line and parsing it is the identity exactly on normal parts; the
text that is hashed for deduplication tells all accepted readings apart.

**Matcher expressions** (`Expr`, `ExprMachine`, `ExprGrammar`, `ExprRoundTrip`, `ExprSoundness`, `ExprPrinter`,
`ExprMeaning`, `ExprTrimming`, `ExprDecision`). The class `ExprParser` moves a cursor and evaluates while it
parses, as the code does; it is proved to agree with a parser to syntax trees followed by an evaluator. The
parser in turn is proved to accept exactly a written-down grammar, in both directions, and the grammar to be
unambiguous; printed expressions read back as themselves, except exactly where the trimming of the text cuts
into one; and what an expression decides is stated of the text itself.

**Rule matching** (`Ordering`, `Router`). Filter, then an in-place sort of which no stability is assumed; the
result is still the one canonical sequence, by descending priority and then by id.

**Tables, requests and the worker** (`Domain`, `Tables`, `Ingest`, `RuleEdits`, `RuleContents`, `Service`,
`Backoff`, `Worker`). `Store` is the database with its unique and foreign keys, `Service` the requests, `Worker`
the delivery pass; the sink answers as it likes. Each method is proved against a function of the tables; what
that function stores, answers and refuses is stated field by field, and the results below are about those
functions.

**Whole runs** (`DeliveryHistory`, `RuleLog`, `System`, `WorkerSteps`, `Deduplication`, `Drain`, `Fairness`).
After any run of ingest, replay, rule edits, device changes and worker passes, also where they fall between the
dispatches of a pass: each delivery row is determined by how the sink answered, each event shows the last
delivery that ended, at most one delivery per event and rule is open, raw rows and events correspond one to one
and hold what the line says, and the change log rebuilds the rule table. Work left bounds the calls of the sink,
no due delivery starves, and a line that made an event never makes another.

**Concurrent requests** (`Concurrent`, `Linearizability`). Any number of ingest requests as small steps, in any
interleaving, with errors at every point and other operations in between: one message and one event per key,
losers leave nothing, all successful answers for a key name one event. Rows and answers are those of a serial
run in the order of the last steps, other operations included, exactly as long as each request, when it takes
effect, has read what still holds; a rule or device change between the reads and the commit can break that.

**Histogram** (`Histogram`). Buckets against the plain sequence of observations, with the exact conditions on
the bounds under which they count what they say. The program itself uses the default bounds only
(cmd/server/main.go:60), which meet them.

## Conventions and assumptions

- A Go string is a sequence of bytes, written as characters below 256. A double is a sign and a magnitude, an
  infinity or NaN, so that -0 and 0 differ. A time is an instant in nanoseconds.
- Library code is a parameter, the datatype `GoLib.Lib`: number and time texts, rounded subtraction, glob
  matching, case folding, SHA-256. Where inverses are needed they are the laws `GoLib.Lib.Lawful`, which
  `GoLib.LawfulLibraryExists` shows to be free of contradiction. The clock, drawn event ids and the operator
  name are arguments; drawn ids need not be fresh, a repeated one is refused by the unique key.
- Delivery results assume one worker, whose options stay the same, and a store that does not fail during a pass.

## Where the code and its documentation disagree

- Deduplication is described with a window of 24 hours. The check inside the transaction ignores the window, so
  the window decides nothing (`Ingest.DuplicateExactly`): a line is a duplicate for ever
  (`Deduplication.RememberedForEver`, `Deduplication.SentTwice`).
- The service's documentation says that the unique index turns one of two concurrent equal lines into a
  duplicate, and that a double entry is possible in rare cases. A double entry is not possible
  (`Concurrent.OneStores`), and the request that commits second gets a database error
  (`Concurrent.SecondGetsTheError`, reached in `Linearizability.RaceEndsInAnError`).
- Backoff is described as capped at one minute. The first delay is BaseDelay, uncut (`Backoff.CeilingHolds`).
- The grammar above `matchExpr` lists three fields and three operators. The code also takes the field `unit`,
  the operators `>`, `>=`, `<`, `<=`, and `=` and `!` for `==` and `!=`; `ExprGrammar` has them all.

## Model

| member | source | states |
|---|---|---|
| CrcRegister.ShiftMultiplies | internal/parser/parser.go:147-153 | one step of the inner loop multiplies the register, read as a polynomial, by x modulo the generator |
| Crc.ShiftEightTimes | internal/parser/parser.go:147-154 | the inner loop does that eight times |
| Crc.ComputeSum | internal/parser/parser.go:144-154 | the nested loops leave the register that folding the bytes from the left gives |
| Crc.FoldDivides | internal/parser/parser.go:144-154 | the register is congruent to the dividend of the body times x^16 modulo x^16+x^12+x^5+1, byte by byte |
| Crc.ChecksumIsRemainder | internal/parser/parser.go:141-156 | a polynomial of degree below 16 is the checksum if and only if it is the remainder of that division |
| Crc.DividendOfLongBody | internal/parser/parser.go:144-146 | the initial value 0xFFFF is the body with its first 16 bits inverted |
| Crc.SameChecksum | internal/parser/parser.go:143-156 | two bodies, of whatever lengths, have one checksum if and only if the generator divides the sum of their dividends |
| Crc.SameChecksumOfOneLength | internal/parser/parser.go:143-156 | for bodies of one length, if and only if it divides the sum of the bodies themselves |
| Crc.BurstIsDetected | internal/parser/parser.go:143-156 | bodies of one length that differ only within 16 consecutive bits, and do differ, have different checksums |
| Crc.AdjacentBytesDetected | internal/parser/parser.go:143-156 | so do bodies that differ only in one byte or in two adjacent bytes |
| Crc.OddAlterationIsDetected | internal/parser/parser.go:143-156 | so do bodies that differ in an odd number of bits, wherever they lie |
| Crc.SeventeenBitsCanHide | internal/parser/parser.go:143-156 | for bursts the bound of 16 is tight: wherever 17 consecutive bits fit into a body, some other body differs from it within them only and has its checksum |
| CrcPeriod.PeriodExactly | internal/parser/parser.go:147-153 | x^d is 1 modulo the generator if and only if 32767 divides d |
| CrcPeriod.TwoBitsExactly | internal/parser/parser.go:143-156 | two flipped bits, wherever they lie, keep the checksum if and only if their distance is a multiple of 32767 |
| CrcPeriod.ThreeBitsAreDetected | internal/parser/parser.go:143-156 | in a body of at most 32767 bits, one, two or three flipped bits always change the checksum |
| Crc.ChecksumIsAffine | internal/parser/parser.go:143-156 | for bodies of one length, the checksums of a, b, c and of their bytewise xor add up to zero |
| Crc.HexIsInjective | internal/parser/parser.go:155 | different registers are written as different texts |
| Checksum.ComputeChecksumHex | internal/parser/parser.go:143-156 | the method on the bytes of a string gives ChecksumHex, four digits that read, the first as the most significant, as the number of the register |
| Checksum.ChecksumReadsRemainder | internal/parser/parser.go:143-156 | the checksum text reads as the number whose binary digits are the remainder of the division, with sixteen ones added in front of the body |
| Checksum.CheckValue | internal/parser/parser.go:143-156 | the checksum of 123456789 is 29B1, the usual check value of this checksum |
| Checksum.ChecksumText | internal/parser/parser.go:155 | a checksum is four upper-case hexadecimal digits |
| Checksum.ChecksumTells | internal/parser/parser.go:143-156 | two strings a burst of 16 bits apart have different checksum texts |
| Wire.SplitChecksum | internal/parser/parser.go:113-127 | a split line is its body, the last separator and a non-empty checksum without separator |
| Wire.AcceptsExactly | internal/parser/parser.go:48-109 | a line is accepted with some telemetry if and only if it is five well-formed fields joined by separators, carrying that telemetry, and their checksum in either letter case, within 4096 bytes |
| Wire.AcceptedLine | internal/parser/parser.go:48-109 | the fields and the checksum of an accepted line |
| Protocol.MatchesByReading | internal/parser/parser.go:102-106 | a checksum field matches the body if and only if it is four hexadecimal digits, in either case, that read as the remainder |
| Protocol.AcceptsByTheBook | internal/parser/parser.go:48-139 | a line is accepted, with some telemetry, if and only if it is five fields and a checksum that say so: device characters by code, ranges and times as numbers, the texts without white space at either end, the checksum as the remainder |
| Trimming.TrimsExactly | internal/parser/parser.go:68-71 | trimming leaves exactly what stands between the white-space runes at the two ends, the runes given by code point and UTF-8 |
| Wire.AcceptedFieldsArePlain | internal/parser/parser.go:61-71 | no field of an accepted line holds a separator |
| Wire.AcceptedChecksum | internal/parser/parser.go:102-106 | the checksum of an accepted message is the upper-case one of its body |
| Wire.AcceptedAgain | internal/parser/parser.go:81-86 | a line that was accepted once carries the same telemetry at every later or earlier time, and is accepted then if and only if its time stamp is within the window |
| Wire.AlteredLineIsRejected | internal/parser/parser.go:102-105 | an accepted line whose body is altered within 16 consecutive bits, its checksum kept, is not accepted, whenever it arrives |
| Wire.FewFlippedBitsAreRejected | internal/parser/parser.go:102-105 | so is one with one, two or three bits of its body flipped, wherever they lie: a line within the length limit is too short for such an error to go unnoticed |
| Wire.ChecksumCaseIsIrrelevant | internal/parser/parser.go:103 | checksums that differ in letter case only give the same outcome, error or not |
| Wire.BuildThenParse | internal/parser/parser.go:48-127 | a built line is accepted if and only if its parts are valid, hold no separator and fit; what is parsed is the parts with the time cut to seconds, the texts trimmed and the checksum in upper case |
| Wire.BuildThenParseIsIdentity | internal/parser/parser.go:158-164 | so for valid parts the round trip is the identity if and only if the time is in whole seconds and metric and unit are trimmed |
| Wire.AcceptedRebuilds | internal/parser/parser.go:48-164 | what was accepted, if its time is in whole seconds and it fits, can be built again and parses to itself |
| GoLib.LawfulLibraryExists | internal/parser/parser.go:160-164 | the laws assumed of number and time texts do not contradict one another |
| Dedup.PreimageIsInjective | internal/dedup/dedup.go:16-26 | of two accepted lines the hashed texts are equal if and only if device, metric, value and unit are, and the instants agree modulo 2^64 ns |
| Deduplication.KeyHashesText | internal/dedup/dedup.go:16-26 | the key is the digest of device|nanoseconds|metric|value|unit |
| Dedup.WindowMeans | internal/dedup/dedup.go:28-32 | a message is within the window if and only if no more time has gone by than it allows; the longest duration allows any |
| Dedup.SameInstant | internal/dedup/dedup.go:17-19 | instants less than 2^64 ns apart that agree modulo 2^64 ns are equal |
| Dedup.SignedZerosAreTold | internal/dedup/dedup.go:24-26 | 0 and -0 are equal numbers but get different hashed texts |
| Expr.ParseOp | internal/router/expr.go:160-189 | an operator that is read moves the cursor on, within the text |
| Expr.ParseLiteral | internal/router/expr.go:191-215 | so does a literal, even an empty quoted one |
| Expr.ParseCmp | internal/router/expr.go:130-146 | so does a comparison; one that is accepted has a known field, and a numeric literal for `value` |
| Expr.ParseAtom | internal/router/expr.go:109-128 | so does an atom; what it yields can be evaluated |
| Expr.ParseAnd | internal/router/expr.go:94-107 | so does a conjunction |
| Expr.ParseOr | internal/router/expr.go:79-92 | so does a disjunction; the recursion ends because the rest of the text, then the grammar level, shrinks |
| ExprMachine.ExprParser.SkipSpaces | internal/router/expr.go:48-52 | the loop stops at the first character that is not white space |
| ExprMachine.ExprParser.PeekKeyword | internal/router/expr.go:54-64 | skips white space; true when the keyword stands there in any letter case and no word character follows |
| ExprMachine.ExprParser.ConsumeKeyword | internal/router/expr.go:66-73 | moves over a keyword and the white space behind it, or only over the white space before it |
| ExprMachine.ExprParser.ReadIdent | internal/router/expr.go:148-158 | reads the longest word |
| ExprMachine.ExprParser.ReadOp | internal/router/expr.go:160-189 | reads the operator the pure parser reads |
| ExprMachine.ExprParser.ReadLiteral | internal/router/expr.go:191-215 | reads the literal the pure parser reads, quoted or bare |
| ExprMachine.ExprParser.RunCmp | internal/router/expr.go:130-146 | parses and decides a comparison as parsing and then evaluating does |
| ExprMachine.ExprParser.RunAtom | internal/router/expr.go:109-128 | likewise for an atom; the cursor never goes back or past the end |
| ExprMachine.ExprParser.RunAnd | internal/router/expr.go:94-107 | likewise for a conjunction: both sides are parsed whatever the left one yields |
| ExprMachine.ExprParser.RunOr | internal/router/expr.go:79-92 | likewise for a disjunction |
| ExprMachine.MatchExpr | internal/router/expr.go:25-40 | the fused parser and evaluator decides every text and event as parsing it to a tree and evaluating the tree does, and so accepts exactly the events of which the expression, read by the grammar, is true |
| ExprRoundTrip.RenderingParses | internal/router/expr.go:79-215 | every text the grammar derives, with any white space between its tokens, parses to the end and to the tree it was derived from |
| ExprSoundness.ParsesExactly | internal/router/expr.go:79-215 | a text parses to an expression if and only if the grammar derives the text with that meaning |
| ExprSoundness.Unambiguous | internal/router/expr.go:12-21 | the grammar is unambiguous: derivations of one text have one meaning |
| ExprSoundness.ExpressibleExactly | internal/router/expr.go:191-215 | some text parses to an expression if and only if each of its literals lacks a quote or can stand bare |
| ExprPrinter.PrintParse | internal/router/expr.go:79-215 | printing an expression with parentheses only where precedence needs them and parsing it gives the expression back |
| ExprPrinter.FewestParens | internal/router/expr.go:109-126 | no text for the same expression has fewer parentheses than the printed one |
| ExprMeaning.MatchesExactly | internal/router/expr.go:23-40 | an expression matches an event if and only if it is blank or the grammar gives its trimmed text a meaning that holds of the event |
| ExprDecision.MatchesTrue | internal/router/expr.go:217-277 | an expression matches exactly the events it is true of: each comparison relates its own field to its literal as the operator says, numbers with infinities and NaN in their order, ~ within a difference of 1e-9 or as a pattern; and joins all atoms, or some conjunction |
| ExprDecision.AlarmMatches | internal/router/expr.go:25-40 | the rule metric == "temperature" and value > 80 matches temperatures above eighty, +Inf included, and nothing else |
| ExprMeaning.PrintedMatches | internal/router/expr.go:25-40 | a printed expression decides every event as the expression does, if its text ends in no white-space rune |
| ExprMeaning.ParenthesizedMatches | internal/router/expr.go:25-40 | in parentheses it always does |
| ExprTrimming.TrimmedReadsExactly | internal/router/expr.go:25-40 | trimming leaves a printed expression readable as itself if and only if its text ends in no white-space rune |
| ExprTrimming.TrimmingCanCut | internal/router/expr.go:26 | where it does, the decision can change: a test for a unit that ends in U+2003, unquoted, matches the events whose unit lacks it |
| Router.RuleBeforeIsTotal | internal/router/router.go:40-45 | priority descending, then rule id, is a strict total order on rules with different ids |
| Router.SelectedIsWanted | internal/router/router.go:24-37 | the tests let pass exactly the rules in force whose pattern is empty or matches the device, whose list is empty or names the metric, and whose expression is true of the event |
| Router.MatchMetrics | internal/router/router.go:68-78 | true if and only if the list is empty or holds the metric up to case folding |
| Router.SortSlice | internal/router/router.go:40-45 | an in-place sort that may move equal elements: no rule ends up behind one that it precedes, and none is lost |
| Router.Match | internal/router/router.go:21-46 | the result holds exactly the rules that want the event, as often as they are listed, by descending priority and, among equal ones, with no id behind a later one in the alphabet |
| Router.MatchIsCanonical | internal/router/router.go:19-46 | for rules with different ids one result only keeps that promise: the selected rules in ascending order |
| Router.MatchIgnoresListing | internal/router/router.go:21-46 | any permutation of the rules gives the same result |
| Router.MatchContents | internal/router/router.go:21-46 | the result is the set of wanted rules, each strictly before the next by priority or alphabetically by id, with different ids |
| Router.DisablingRemovesOnlyThat | internal/router/router.go:24 | disabling a rule takes it out of the result and moves no other |
| Router.Topics | internal/router/router.go:49-55 | the topics of the rules, in their order |
| Tables.Constraints | internal/migrate/migrate.go:22-82 | what the database takes: rows of known devices, events and rules, under new ids and keys, priorities of 32 bits |
| Tables.Store.CreateEvent | internal/store/pg_event.go:20-28 | adds the event, or refuses a taken event id or an unknown device and changes nothing |
| Tables.Store.UpdateEventStatus | internal/store/pg_event.go:45-48 | changes the status of the one event |
| Tables.Store.InsertRaw | internal/store/pg_device_raw.go:165-177 | adds the raw row under its key, or refuses a taken key or an unknown device and changes nothing |
| Tables.Store.TouchSeen | internal/store/pg_device_raw.go:152-156 | stamps the one device |
| Tables.Store.CreateDelivery | internal/store/pg_delivery.go:17-24 | appends the row with the next id, or refuses an unknown event or rule |
| Tables.Store.ListDueDeliveries | internal/store/pg_delivery_retry.go:18-33 | lists the open rows stamped no later than now, by stamp and then id, up to the limit (100 if it is not positive) |
| Tables.Store.ListDeliveriesByEvent | internal/store/pg_delivery_retry.go:42-51 | lists the rows of the event by id |
| Tables.Store.MarkDelivered | internal/store/pg_delivery_retry.go:82-87 | settles the row as dispatched, with one attempt more |
| Tables.Store.MarkFailed | internal/store/pg_delivery_retry.go:96-101 | records the attempt, the error and the next time |
| Tables.Store.MarkDead | internal/store/pg_delivery_retry.go:110-115 | settles the row as dead, leaving its attempts |
| Tables.Store.ListRules | internal/store/pg_rule.go:96-126 | lists the rules that are not deleted, each once, by descending priority |
| Tables.Store.CreateRule | internal/store/pg_rule.go:20-28 | adds the rule with the next row id, or refuses a priority beyond 32 bits or a taken rule id |
| Tables.Store.UpdateRule | internal/store/pg_rule.go:67-74 | overwrites name, matcher, topic, priority, flag and time of the one rule, or refuses a priority beyond 32 bits |
| Tables.Store.SoftDelete | internal/store/pg_rule.go:83-87 | marks the one rule deleted and disabled |
| Tables.Store.AppendChange | internal/store/pg_rule.go:166-172 | appends the entry, or refuses an unknown rule id |
| Backoff.ComputeDelay | internal/worker/worker.go:185-195 | the loop computes the 64-bit doubling with its early exit |
| Backoff.DelayClosedForm | internal/worker/worker.go:185-195 | for a base below 2^62 ns the first delay is the base and the n-th is min(base * 2^(n-1), one minute), nothing wrapping on the way |
| Backoff.DelayIsPositive | internal/worker/worker.go:181-194 | every delay is positive if and only if the base is below 2^62 ns |
| Backoff.CeilingHolds | internal/worker/worker.go:186-194 | no delay exceeds one minute if and only if the base does not: the first delay is never cut |
| Backoff.DelayNeverShrinks | internal/worker/worker.go:185-195 | the delays never shrink from attempt to attempt if and only if the base is at most one minute |
| Worker.Normalized | internal/worker/worker.go:84-98 | options come out positive, and positive ones unchanged |
| Worker.BatchRows | internal/store/pg_delivery_retry.go:22-27 | a batch holds due rows as they stand, each once |
| Worker.BatchListsDue | internal/store/pg_delivery_retry.go:18-33 | a batch is the pending and failed rows whose time has come, by time and id, up to the limit or a hundred, and everything left out comes behind all of them |
| Worker.Worker.ProcessOnce | internal/worker/worker.go:122-134 | one pass dispatches its batch row by row, whatever the sink answers, and changes nothing else |
| Worker.Worker.DispatchOne | internal/worker/worker.go:136-170 | one dispatch: one call of the sink with the payload of the event and the row, the row settled by the answer, the event status with it; a row without its event is settled as dead |
| Worker.Worker.HandleFailure | internal/worker/worker.go:172-183 | the last allowed attempt ends the row and marks the event; an earlier one reschedules the row |
| DeliveryHistory.PassKeeps | internal/worker/worker.go:122-183 | every pass keeps the record: each row is determined by the answers its dispatches got (status, attempts, error, next time, end time; never more than MaxAttempt calls, none after a success), each call carried the topic of its row and the content of its event, and each event is `created` until one of its deliveries ends and then shows the last one to end |
| DeliveryHistory.CallsSay | internal/worker/worker.go:147-160 | each call told the sink the topic and rule of its delivery and the content of its event |
| DeliveryHistory.ExtensionKeeps | internal/service/service.go:180-195 | adding events and pending rows keeps that record |
| DeliveryHistory.RowStates | internal/store/pg_delivery_retry.go:82-115 | what the record says of each status: open if and only if the next time is set and if and only if the end time is not; pending 0 attempts, failed 1 to MaxAttempt-1, dead MaxAttempt-1, dispatched 1 to MaxAttempt; sink calls equal attempts, plus one for a dead row |
| DeliveryHistory.BatchSettles | internal/worker/worker.go:128-133 | every row of the batch is settled by its own answer |
| DeliveryHistory.PassOnlySettles | internal/worker/worker.go:136-183 | a pass moves, relabels and reopens no row, and changes events in status only |
| Drain.WorkBoundsCalls | internal/worker/worker.go:172-183 | the sum over open rows of MaxAttempt minus attempts falls by at least one for each call of the sink, so it bounds the calls and the passes with due work, however long the worker runs |
| Drain.Drains | internal/worker/worker.go:122-183 | with no new rows and a clock that keeps passing every stamp, as many passes as that sum end every delivery |
| Fairness.NoStarvation | internal/store/pg_delivery_retry.go:22-27 | for every BaseDelay, in every run of ingest, replay, edits and passes, none stamped before the waiting row, the row is taken, unchanged until then, before k / BatchSize + 1 passes have gone by, where k counts the open rows ahead of it, and each with its attempts left where the backoff wraps |
| Fairness.PassBringsForward | internal/worker/worker.go:122-183 | a pass that leaves a due row out takes a full batch from ahead of it, and takes as much off k |
| Fairness.TakenIsAnswered | internal/worker/worker.go:128-133 | a taken row gets its next answer |
| Ingest.IngestCommitsOrNot | internal/service/service.go:107-214 | ingest adds one event, one raw row and the deliveries under a new key and a new event id, or leaves all tables as they were |
| Ingest.IngestStores | internal/service/service.go:137-174 | what a new line stores, field by field: its event, its raw row and the times on its device |
| Ingest.IngestRefuses | internal/service/service.go:107-214 | every way to be turned away, in the order of the checks, and none changes anything |
| Ingest.IngestReportsItsRows | internal/service/service.go:176-201 | a new event gets one pending delivery, due at once and on the topic of its rule, per rule of the answer, in the order of the answer; the answer names exactly the rules that want the event, by descending priority and id, and their topics |
| Ingest.FastPathIsOnlyASpeedUp | internal/service/service.go:128-155 | for every window, answer and tables are those of ingest without the check before the transaction |
| Ingest.DuplicateExactly | internal/service/service.go:128-155 | an admitted line is answered as a duplicate if and only if a parsed message with its key is stored, whatever the window |
| Deduplication.DuplicateByReading | internal/service/service.go:126-155 | an admitted line is a duplicate if and only if some stored line, read when it came, agrees with it in device, metric, value, unit and instant, provided the digest tells them apart; the answer names the event of that line |
| Deduplication.ReachedDuplicates | internal/service/service.go:126-155 | so it is after every run from empty tables |
| Ingest.DuplicateReports | internal/service/service.go:220-236 | a duplicate is answered with the stored event id, the rules that want the event now, in order, and their topics |
| Deduplication.RememberedForEver | internal/service/service.go:128-155 | after every run that follows, at every time and for every window, an admitted line with the key of a stored message changes nothing and is answered as a duplicate of the first event |
| Deduplication.SentTwice | internal/service/service.go:107-214 | a line that made an event is, whenever it is sent and admitted again, a duplicate of that event |
| Ingest.OneEventPerKey | internal/migrate/migrate.go:34 | where raw rows and events are paired, no two events share a key |
| Ingest.ReplayReportsItsRows | internal/service/replay.go:13-65 | a replay adds one pending delivery, on the topic of its rule, per rule that wants the event and has no pending or failed delivery of it, in order, and nothing else |
| Ingest.ReplayTwice | internal/service/replay.go:9-12 | a replay right after a replay creates nothing |
| Service.Service.IngestTelemetry | internal/service/service.go:107-214 | the code does that, answer and tables |
| Service.Service.InTx | internal/store/pg_device_raw.go:25-36 | the transaction works on a copy that is adopted whole or dropped; a duplicate found inside turns into a duplicate answer |
| Service.Service.InsertAll | internal/service/service.go:150-203 | the body of the transaction: insert by insert, stopping at the first refusal |
| Service.Service.MatchLive | internal/service/service.go:176-180 | the live rules matched against an event |
| Service.Service.CreateDeliveries | internal/service/service.go:182-195 | one row per matched rule, in order |
| Service.Service.DuplicateResult | internal/service/service.go:220-236 | the answer to a duplicate: the stored event id and the rules that match now |
| Service.Service.ReplayEvent | internal/service/replay.go:13-65 | the code of replay does what its specification says, answer and tables |
| Service.Service.PendingRules | internal/service/replay.go:27-36 | the rules with a pending or failed delivery of the event |
| Service.Service.CreateLacking | internal/service/replay.go:38-54 | one row per matched rule that is not among them |
| Service.Service.CreateRule | internal/service/rules.go:23-70 | creating a rule: answer, row and log entry, or an error and no change; a deleted rule keeps its id taken, and a uniqueness error from the transaction is a conflict too |
| RuleContents.CreateStores | internal/service/rules.go:40-56 | a created rule is stored and answered field by field as the input says, and nothing else changes |
| RuleContents.CreateLogs | internal/service/rules.go:55-62 | and logged, with its content, operator and time |
| RuleContents.CreateRefuses | internal/service/rules.go:25-38 | the errors of creating, in the order of the checks, none changing anything |
| Service.Service.UpdateRule | internal/service/rules.go:73-123 | changing a rule: empty texts and the zero matcher keep the old value, priority and flag are always taken, and the entry is labelled by what happens to the flag |
| RuleContents.UpdateStores | internal/service/rules.go:83-118 | an update stores, answers and logs name and topic where given, the matcher unless it is all empty, priority and flag; id, creation time and every other rule stay |
| RuleContents.UpdateRefuses | internal/service/rules.go:75-81 | the errors of changing, none changing anything |
| Service.Service.DeleteRule | internal/service/rules.go:126-156 | deleting a rule: the row is disabled and marked, and the entry says so |
| RuleContents.DeleteStores | internal/service/rules.go:136-156 | a deleted rule is disabled and carries the time in the table and in the log; everything else about it stays |
| RuleContents.DeleteRefuses | internal/service/rules.go:128-134 | a rule that is unknown or deleted is not found |
| RuleLog.CreateKeepsLog | internal/service/rules.go:34-63 | creating keeps the log fitting the table |
| RuleLog.UpdateKeepsLog | internal/service/rules.go:75-118 | so does updating |
| RuleLog.DeleteKeepsLog | internal/service/rules.go:126-156 | so does deleting: each history opens with its only create, each entry goes on from the one before it, nothing follows a delete, the last entry is the stored row, and the labels give the flag of a live rule |
| RuleLog.LogRebuildsTable | internal/store/pg_rule.go:166-172 | replaying the log rebuilds the rule table, up to row ids and times |
| RuleLog.LabelsAlternate | internal/service/rules.go:99-104 | between two enable labels of a rule there is a disable label, and the reverse |
| System.StepKeeps | internal/service/service.go:107-214 | every operation keeps every invariant: the delivery record, one open delivery per event and rule, raw rows and events paired under equal keys and holding what the raw line says, the log fitting the rule table |
| System.ReachableIsFine | internal/worker/worker.go:100-134 | so they hold after every run of requests, edits, replays and passes from empty tables |
| System.PayloadsEncode | internal/worker/worker.go:147-160 | in every reachable state each delivery has its event, with a finite value, so that the payload can be encoded |
| WorkerSteps.ReachedIsFine | internal/worker/worker.go:122-134 | the invariants hold also after every run in which requests, edits and device changes fall between the dispatches of a pass, and passes end before time |
| WorkerSteps.RunAddsOnly | internal/worker/worker.go:122-134 | nor does such a run take anything back: rows, log entries and calls stay, an event changes in status only |
| WorkerSteps.DispatchUsesWork | internal/worker/worker.go:172-183 | each dispatch of such a run calls the sink once and takes at least one off the work left |
| WorkerSteps.StepsArePass | internal/worker/worker.go:122-134 | listing a batch and dispatching its rows one by one, with nothing in between, is the pass |
| System.StepOnlyAdds | internal/store/pg_device_raw.go:165-177 | raw rows, log entries and sink calls are only ever added; an event changes in status only, a rule id stays taken, a delivery keeps its id, event, rule and topic |
| Concurrent.NextKeepsSafe | internal/service/service.go:129-214 | every small step of every interleaving keeps the safety invariant: reads and commits of any number of requests, errors before the commit, a commit that goes through although its request gets an error, unreported errors while a duplicate is read, and other operations |
| Concurrent.ReachedIsSafe | internal/service/service.go:129-214 | so it holds wherever an interleaving of any number of requests leads |
| Concurrent.OneStores | internal/migrate/migrate.go:34 | of the requests for one key at most one commits, those included that were not told of their commit |
| Concurrent.OneWinner | internal/migrate/migrate.go:34 | all requests for one key that succeed, duplicates too, name the event of the one stored message, whose rows hold what its line says |
| Concurrent.LoserLeavesNothing | internal/store/pg_device_raw.go:25-36 | a request that did not commit leaves no event, raw row or delivery |
| Concurrent.LateLoserFails | internal/service/service.go:160-171 | at its commit a request gets the uniqueness error if and only if its drawn id is taken, or its device is known and its key is taken |
| Concurrent.SecondGetsTheError | internal/service/service.go:151-171 | with a drawn id of its own and a key that was new, it gets that error, and no duplicate answer, if and only if another request for the key has committed |
| Linearizability.CommitIsIngest | internal/service/service.go:150-203 | at the moment of its commit a request does and answers what it would alone, if what it has read still holds |
| Linearizability.DuplicateIsIngest | internal/service/service.go:220-236 | so does a duplicate at the moment of its answer |
| Linearizability.StepsAreIngest | internal/service/service.go:107-214 | the small steps of a request with nobody else about give the answer of the request as a whole |
| Linearizability.NextIsSerialExactly | internal/service/service.go:107-214 | a step goes on with a serial run if and only if, where a request takes effect by it, what the request has read still holds: line and device still admitted, still the same rules and topics |
| Linearizability.SuspensionComesTooLate | internal/service/service.go:116-125 | a device suspended between the reads and the commit of a request does not stop the commit, which is then no step of that serial run |
| Linearizability.InterleavingIsSerial | internal/service/service.go:107-214 | whatever the interleaving of requests, errors and other operations, as long as that holds, the rows are those of running the requests that took effect, each once, and the operations one after another; each answer is the one the request gets alone at its turn, but for the lists that a duplicate could not read and the answer of a commit that was lost |
| Linearizability.CalmRunIsTrue | internal/service/service.go:107-214 | it holds in every interleaving in which each other operation leaves true what the requests under way have read |
| Linearizability.CalmOperation | internal/service/service.go:107-214 | so does any operation while no request is under way, and anywhere one that leaves rules and the status of devices alone |
| Linearizability.RaceEndsInAnError | internal/service/service.go:151-171 | two requests for one new line can pass both checks, and then the second to commit ends in the uniqueness error |
| Linearizability.OtherOpsMayComeBetween | internal/worker/worker.go:122-134 | rule edits, replays, passes and device changes are steps that the interleavings allow in between |
| Linearizability.CalmOps | internal/service/replay.go:13-65 | replays and passes leave rules and the status of devices alone |
| Histogram.Histogram.constructor | internal/metrics/metrics.go:77-83 | a new histogram has one slot more than bounds, all empty; no bounds are possible too |
| Histogram.Histogram.Observe | internal/metrics/metrics.go:113-127 | one observation more: count, sum and slots are those of the longer sequence of observations |
| Histogram.Histogram.Render | internal/metrics/metrics.go:181-189 | the rendered buckets are the running totals of the slots, with the sum and the count |
| Histogram.OneSlotExactly | internal/metrics/metrics.go:117-125 | every number has a slot if and only if the last bound is no NaN or some bound is +Inf; no number has two if and only if no bound exceeds the last; a NaN never has one |
| Histogram.BucketsCountExactly | internal/metrics/metrics.go:182-184 | the i-th bucket is the number of observations at most the i-th bound, for all observations and all i, if and only if the bounds do not descend (equal ones are fine) |
| Histogram.InfCountsExactly | internal/metrics/metrics.go:185-188 | the +Inf bucket equals the count exactly when no NaN was observed, for all observations, if and only if every number has one slot |
| Histogram.DefaultBoundsCount | internal/metrics/metrics.go:192-195 | the default bounds, the only ones the program passes, have all these properties |

## Left out

- Tables.Store.ListRules: leaves the order of equal priorities open, which the collation of the database decides; Match sorts again.
- Tables.Store.CreateDelivery: ids are positions, from zero and without gaps; a real sequence skips the ids of transactions that are rolled back, which keeps their order.
- Tables.Store.CreateRule: does not refuse a text that the database cannot hold, such as one with a zero byte; the JSON text of a rule is taken to record it as it is, but for an empty metric list.
- Worker.Worker.ProcessOnce: times are kept to the nanosecond, where the database keeps microseconds; errors of the store do not occur, and none of the JSON encoder, which gets finite numbers only (`System.PayloadsEncode`).
- Worker.Worker.DispatchOne: the payload is a value, not its JSON text.
- Dedup.PreimageIsInjective: speaks of the hashed text; that 128 bits of SHA-256 do not collide is not claimed.
- Service.Service.DuplicateResult: reads that fail, after which the code answers with empty lists, do not occur in the serial service; `Concurrent` has them as steps.
- Histogram.Histogram.Observe: counts are natural numbers, where the code has doubles, equal up to 2^53; without bounds, where the code panics, it must not be called.
- Histogram.Histogram.Render: gives the numbers, not the lines of text around them.
- Concurrent replays and concurrent edits of one rule, which read outside a transaction: other operations are single steps.
- Several workers, store failures within a pass, and options that change between restarts.
- The polling loop `Run`, the log sink, and the metrics of dispatch.
- Registration and status changes of devices: the model lets the device table change in any way that keeps its devices.
- HTTP handlers, authentication and its audit, configuration, static files and the frontend.
- Event queries and their paging, the listing of the change log (ties in its order are open), counts and statistics, counters and gauges.
- Locks of the metrics registry.
