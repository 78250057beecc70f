# rex-hive-daemon, modelled in Dafny

This project models the decision logic of the rex-hive-daemon process swarm and of the small
"NotAGame" sleep-reporter programs it is exercised with.

- **Sleep reporters.** There are three variants:
  - the C++ `main` that streams the parsed value (`NotAGame/main.cpp`);
  - the C++ `main` that formats the raw argument text (`NotAGame/NotAGame/NotAGame.cpp`);
  - the Go `main` (`NotAGameGolang/main.go`).

  Each is a loop method proved against a trace function. A trace is a sequence of `Out`, `Err`,
  `Sleep` and `Abort` events. The shared shape (greeting, per-argument notices and sleep, farewell
  or abort) is defined once in `SleepReport` and instantiated by each variant.
- **Dynamic-argument allocator** (`getDynamicArgsOrPanic`). A `{unique-in-sequence:A-B}` argument
  is replaced by the least number of the swapped range that is not yet in the shared table. The
  table is a class, `UsedNumbers`, that is mutated in place. The call panics when the range is
  exhausted. This is proved minimal, distinct within and across calls, and length- and
  copy-preserving.
- **Restart loop** (`runCommandAndKeepAlive`, `runCommand`'s exit codes, `expBackoffSeconds`,
  `RestartPolicy`).
  - The loop method runs over a finite sequence of runs supplied by the environment, and is proved
    equal to a specification of the steps it takes.
  - The policy, the exit code and the back-off counter decide each step.
  - A run that stays up for 600 s or more resets the counter.
- **Swarm launch** (`runProcessSwarm`). Every replica of every spec is launched in order, with
  index `count`, and all of them share one allocation table. Launches are proved to be numbered
  0..N-1 in spec order, and no two placeholders get the same number.
- **Message buffer** (`message_handler.go`). There is a `Handler` class with these fields:
  - the held messages (a map);
  - the batch being written;
  - the flush request and the number of flush signals sent;
  - the start-up flag and the machine metadata.

  Each heartbeat stores at most 50 held messages. On success exactly those are dropped. A pending
  flush is signalled once nothing is held.
- **Utilities.**
  - `FindIndex`;
  - `RemoveAtIndex`, which works in place on an array;
  - the colour shuffle (a permutation for every sequence of random draws);
  - ANSI colouring, with a read-back function that inverts it;
  - `PrintLnColor`, including Go's truncating `%`.

## How the source is represented

- The environment's choices are all parameters:
  - the parse of an argument (`std::stoi`, `strconv.Atoi`) is a partial function, `string -> Option<int>`;
  - the outcome and duration of each process run is a `Run`;
  - the database's answer is a `bool`;
  - the message key is a `string`;
  - the random draws are a sequence in which draw i lies in [0, i].
- Placeholders arrive pre-parsed: `Arg(text, Some(Placeholder(from, to)))`.
- A panic is a value: `Replaced.Panic`, `SwarmRun.failure`, `KeepAlive.InvalidPolicy`, the
  `Abort` event, or `None` from `PrintLnColor`.
- Several parts of `main.go` duplicate the package files:
  - `getDynamicArgs` duplicates `parse_args.go`;
  - `expBackoffSeconds` duplicates `backoff/backoff.go`;
  - the `RestartPolicy` type and maps duplicate `restart_policy.go`.

  The duplicates are identical apart from the regexp helper, so each is modelled once, and the
  rows below cite both places.
- The handler sets `message.Time`, but `swarm_message/swarm_message.go` declares no `Time` field.
  The model follows the handler and gives `SwarmMessage` a `time` field.
- `Machine` is set through a pointer before the store. So when a store fails, the held messages
  keep their keys and their contents, except that the batched ones are now stamped with the
  machine metadata. The model states exactly that (`Stamped`).

## Model

| member | source | states |
|---|---|---|
| SleepReport.Notice | NotAGame/main.cpp:17 | a notice goes to stderr iff the value is negative, with the line unchanged |
| SleepReport.FirstUnparsable | NotAGame/main.cpp:13-14 | the first argument that does not parse: every earlier one parses and it does not, or it is the argument count |
| SleepReport.Iterations | NotAGame/main.cpp:13-27 | the events of the first n arguments: a multiple of three, at most 3n, and never an Abort |
| SleepReport.IterationsNext | NotAGame/main.cpp:13-27 | an argument that parses adds its will-notice, sleep and did-notice after those of earlier arguments |
| SleepReport.ReportCompletes | NotAGame/main.cpp:29 | when every argument parses, the trace is greeting, iterations, farewell |
| SleepReport.ReportAborts | NotAGame/main.cpp:14 | when argument n is the first that fails, the trace ends with Abort right after n iterations |
| SleepReport.IterationsLength | NotAGame/main.cpp:13-27 | n parsed arguments give exactly 3n events |
| SleepReport.IterationAt | NotAGame/main.cpp:20-26 | argument k's three events sit at 3k..3k+2: notice, sleep of abs(v), notice, on v's stream |
| SleepReport.IterationsAt | NotAGame/main.cpp:13-27 | the same for every k at once, with the length 3n |
| SleepReport.ReportEnds | NotAGame/main.cpp:10-29 | the length is 3f+2, the greeting is first, and the last event is the farewell iff all parse, otherwise Abort |
| SleepReport.ReportAt | NotAGame/main.cpp:20-26 | argument k before the first failure is reported at trace positions 3k+1..3k+3 |
| SleepReport.ReportLayout | NotAGame/main.cpp:10-29 | the full layout of a run: greeting, per-argument triples, farewell or abort |
| SleepReport.IterationsAvoid | NotAGame/main.cpp:20-26 | no iteration writes a line that no notice text can equal |
| SleepReport.ReportFarewell | NotAGame/main.cpp:29 | the farewell appears iff every argument parses, and then it is the last event |
| NotAGameCpp.ReportArgument | NotAGame/main.cpp:14-26 | one loop body: the triple for a parsed value, nothing on a stoi failure |
| NotAGameCpp.ReportArguments | NotAGame/main.cpp:12-27 | the loop from i = 1: aborted iff some argument fails, events up to the first failure |
| NotAGameCpp.RunMain | NotAGame/main.cpp:9-30 | the program's output equals MainTrace: greeting, loop, farewell or abort |
| NotAGameCpp.MainLayout | NotAGame/main.cpp:12-26 | argc-1 arguments reported as "k+1 of argc-1" with the signed value, stderr iff negative, a sleep of abs(v) |
| NotAGameCpp.NoticeIsNotFarewell | NotAGame/main.cpp:20-29 | no notice line equals the farewell |
| NotAGameCpp.FormatsAvoidFarewell | NotAGame/main.cpp:20-29 | no notice of any position and value equals the farewell |
| NotAGameCpp.FarewellIffAllParse | NotAGame/main.cpp:13-29 | the farewell is written iff every argv[1..] parses, and then it is last |
| NotAGameCpp.NoArguments | NotAGame/main.cpp:12-29 | with no arguments the output is exactly greeting then farewell |
| NotAGameCpp.Ending | NotAGame/main.cpp:20 | in p + d + n, the text before n ends with the last three characters of d |
| NotAGameCpp.NoticeReportsSignedValue | NotAGame/main.cpp:20-26 | "for" is followed immediately by the number, which reads back as the signed v |
| NotAGameCpp.WillSleep | NotAGame/main.cpp:20 | the will-notice starts with the position i and ends with the signed value |
| NotAGameCpp.DidSleep | NotAGame/main.cpp:26 | the did-notice starts with the position i and ends with the signed value |
| NotAGameFormat.ReportArgument | NotAGame/NotAGame/NotAGame.cpp:16-29 | one loop body: the message is built first, stoi runs once and its outcome is returned, nothing is written when it fails, and each write tests the sign |
| NotAGameFormat.ReportArguments | NotAGame/NotAGame/NotAGame.cpp:13-30 | aborted iff some argument fails, events up to the first failure |
| NotAGameFormat.RunMain | NotAGame/NotAGame/NotAGame.cpp:9-33 | the program's output equals MainTrace |
| NotAGameFormat.MainLayout | NotAGame/NotAGame/NotAGame.cpp:13-29 | position k+1 of argc-1 quoting argv[k+1], both notices on the stream of the value's sign, a sleep of abs(v) |
| NotAGameFormat.FormatsAvoidFarewell | NotAGame/NotAGame/NotAGame.cpp:16-32 | no notice equals the farewell |
| NotAGameFormat.FarewellIffAllParse | NotAGame/NotAGame/NotAGame.cpp:13-32 | the farewell is written iff every argument parses, and then it is last |
| NotAGameFormat.NoticeQuotesRawText | NotAGame/NotAGame/NotAGame.cpp:16-26 | notices differ iff the raw texts differ; the text stands between "for " and " seconds" |
| NotAGameFormat.WillSleep | NotAGame/NotAGame/NotAGame.cpp:16 | the will-notice starts with the position i and ends with the raw text followed by " seconds" |
| NotAGameFormat.DidSleep | NotAGame/NotAGame/NotAGame.cpp:26 | the did-notice starts with the position i and ends with the raw text followed by " seconds" |
| NotAGameGolang.ReportArgument | NotAGameGolang/main.go:18-45 | the loop body: Atoi once, with its outcome returned; abs computed first; panic before any notice; then the triple with signed n |
| NotAGameGolang.ReportArguments | NotAGameGolang/main.go:16-46 | the 0-based range loop: panicked iff some Atoi fails, events up to it |
| NotAGameGolang.RunMain | NotAGameGolang/main.go:11-49 | the program's output equals MainTrace |
| NotAGameGolang.MainLayout | NotAGameGolang/main.go:16-45 | argument k is reported as "k of len(args)" with signed n, stderr iff n < 0, a sleep of abs(n) |
| NotAGameGolang.FormatsAvoidFarewell | NotAGameGolang/main.go:30-48 | no notice equals the farewell |
| NotAGameGolang.FarewellIffAllParse | NotAGameGolang/main.go:17-48 | the farewell is written iff every Atoi succeeds, and then it is last |
| NotAGameGolang.Framed | NotAGameGolang/main.go:30 | where the prefix, the number and the "for " before it sit in a concatenated line |
| NotAGameGolang.WillReportsIndexAndSignedValue | NotAGameGolang/main.go:30 | the will-notice reads back as the 0-based index i and the signed n |
| NotAGameGolang.DidReportsIndexAndSignedValue | NotAGameGolang/main.go:40 | the did-notice reads back as the index i and the signed n |
| NotAGameGolang.WillSleep | NotAGameGolang/main.go:30 | the will-notice starts with the index i and ends with the signed n followed by " seconds..." |
| NotAGameGolang.DidSleep | NotAGameGolang/main.go:40 | the did-notice starts with the index i and ends with the signed n followed by " seconds" |
| NotAGameGolang.Affixes | NotAGameGolang/main.go:30 | a concatenated notice begins with its first part and ends with its last two |
| Decimal.DigitChar | parse_args.go:33 | the digit character of d has value d |
| Decimal.NatToString | parse_args.go:33 | the decimal text of a natural number is non-empty and all digits |
| Decimal.IntToString | NotAGameGolang/main.go:30 | the %d text: digits, with an optional leading '-' |
| Decimal.NatToStringValue | parse_args.go:33 | the digits of NatToString(n) are worth n |
| Decimal.IntToStringRoundTrip | parse_args.go:33 | reading back the text of n gives n |
| Decimal.IntToStringInjective | parse_args.go:33 | two integers have the same text iff they are equal |
| DynamicArgs.UsedNumbers.constructor | main.go:158 | the shared table starts empty |
| DynamicArgs.FirstFree | parse_args.go:31-37 | the least number in [lo, hi] not taken; None iff every number is taken |
| DynamicArgs.PanicMessage | parse_args.go:40 | the panic message names the argument as written, right after "dynamic argument " |
| DynamicArgs.Texts | parse_args.go:14-15 | the copy keeps the length and every argument's text |
| DynamicArgs.ReplaceOne | parse_args.go:19-41 | one argument: a plain one is copied with the table unchanged; a placeholder panics iff its whole range is taken, and otherwise becomes the text of a number that was free and is now taken |
| DynamicArgs.Prefix | parse_args.go:17-43 | a prefix that did not panic has n entries, and the table only grows |
| DynamicArgs.PanicPersists | parse_args.go:39-41 | once a prefix panics, every longer prefix is the same panic |
| DynamicArgs.Replace | parse_args.go:12-46 | the whole call: the table only grows, and a result that did not panic has one entry per argument |
| DynamicArgs.FindFree | parse_args.go:31-38 | the search loop finds exactly FirstFree |
| DynamicArgs.Allocate | parse_args.go:19-41 | the swapped search, then take the number into the table or panic, as ReplaceOne says |
| DynamicArgs.ReplaceAt | parse_args.go:17-42 | one turn of the outer loop extends the prefix by one, or panics |
| DynamicArgs.GetDynamicArgsOrPanic | parse_args.go:12-46 | the result and the new table are exactly Replace of the arguments and the old table |
| DynamicArgs.UsedGrows | parse_args.go:34 | entries are only ever added to the table |
| DynamicArgs.NoEarlierPanic | parse_args.go:39-41 | a prefix that did not panic has only non-panicking shorter prefixes |
| DynamicArgs.EntryStays | parse_args.go:33 | later arguments never rewrite an earlier entry |
| DynamicArgs.EntryOf | parse_args.go:19-37 | argument k's entry is its copy when plain, otherwise the text of Taken, which is now in the table |
| DynamicArgs.Shape | parse_args.go:14-37 | every entry of a prefix that did not panic is the copy or the taken number's text |
| DynamicArgs.CopiesPlainArguments | parse_args.go:14-19 | same length as the input, and plain arguments are copied unchanged |
| DynamicArgs.AssignsLeastFree | parse_args.go:24-37 | the whole argument becomes the least free number of [min, max], which was not taken before and is taken after |
| DynamicArgs.DistinctWithinCall | parse_args.go:32-34 | no two placeholders of one call get the same text |
| DynamicArgs.DistinctAcrossCalls | main.go:161-164 | two calls sharing the table never give the same number |
| DynamicArgs.PanicIffExhaustedPrefix | parse_args.go:31-41 | a prefix panics iff some reached placeholder finds its whole range taken; the message names it |
| DynamicArgs.PanicIffExhausted | main.go:129-139 | the call panics iff some reached placeholder's range is exhausted, with the message naming that argument |
| Backoff.Pow2 | backoff/backoff.go:21 | 2^n is at least 1 |
| Backoff.ExpBackoffSeconds | backoff/backoff.go:11-22 | attempt >= 6 gives 300, attempt < 0 gives 0, otherwise a value in [5, 300] |
| Backoff.PowBelowCap | backoff/backoff.go:13-21 | 2^n <= 32 for n <= 5, so 5·2^n stays within the cap |
| Backoff.Doubling | main.go:186 | below the cap, each attempt doubles the delay |
| Backoff.Table | backoff/backoff.go:13-21 | the delays are 5, 10, 20, 40, 80, 160, then 300 |
| Backoff.Pow2Monotone | backoff/backoff.go:21 | 2^n is monotone |
| Backoff.Monotone | main.go:176-187 | the delay never decreases with the attempt |
| RestartPolicies.Name | restart_policy.go:11-19 | String is "" iff the value is not one of the three policies |
| RestartPolicies.FromName | main.go:36-40 | the lookup gives OnFailure, Never, or (for any other text) Always |
| RestartPolicies.NameRoundTrip | restart_policy.go:11-25 | reading back the name of a known policy gives the policy |
| RestartPolicies.FromNameRoundTrip | restart_policy.go:21-25 | a recognised text is the name of the policy it reads as |
| RestartPolicies.TablesInverse | restart_policy.go:15-25 | the two maps are inverse to each other |
| KeepAlive.RunId | main.go:260-266 | the id begins with the index and a colon, and ends with a colon and the attempt |
| KeepAlive.RunCommand | main.go:259-296 | -1 when the start fails, the exit code when Wait fails, 0 on success; the id is "i:noPID:a" or "i:pid:a" |
| KeepAlive.Fields | main.go:260-266 | the three fields of "h:m:t" can be located by the lengths of h and t |
| KeepAlive.RunIdFields | main.go:260-266 | the id reads back as the index and the attempt, with "noPID" iff the start failed |
| KeepAlive.NextBackoffCount | main.go:212-216 | a run of 600 s or more resets the counter to 0; a shorter one increments it |
| KeepAlive.BackoffCountAfter | main.go:199-216 | the counter is -1 before any run, and in [0, n) after n runs |
| KeepAlive.Steps | main.go:201-244 | turn k is StepAt(k), for each of the first n runs |
| KeepAlive.FirstStop | main.go:220-243 | the first turn that does not re-run; every earlier turn re-runs |
| KeepAlive.FirstStopNext | main.go:220-243 | a re-running turn moves the first stop past it |
| KeepAlive.Decide | main.go:220-243 | the loop stops iff the policy is Never, or OnFailure with exit code 0; a re-run waits expBackoffSeconds of the counter |
| KeepAlive.Turn | main.go:202-243 | one turn: runCommand, the reset-or-increment of the counter, the decision |
| KeepAlive.InvalidPolicyMessage | main.go:195 | the panic reads "Invalid retry policy " followed by the policy's number, which reads back |
| KeepAlive.KeepAliveSpec | main.go:189-245 | a panic iff the policy is unknown; otherwise every turn but the last re-runs, a stopped loop ends with a turn that does not, and a loop still running has used every run |
| KeepAlive.RunCommandAndKeepAlive | main.go:189-245 | the loop, run over the given runs, gives exactly KeepAliveSpec, including the invalid-policy panic |
| KeepAlive.NeverRunsOnce | main.go:221-225 | under Never the loop stops after the first run |
| KeepAlive.AlwaysKeepsRunning | main.go:226-231 | under Always every run is followed by a back-off |
| KeepAlive.OnFailureStopsAtFirstSuccess | main.go:232-242 | under OnFailure the loop stops iff some run reports 0, right after the first such run |
| KeepAlive.StartFailureIsRetried | main.go:259-263 | a start failure reports -1 and is retried under OnFailure |
| KeepAlive.CountWithoutReset | main.go:199-216 | with no long run, the counter after n runs is n-1 |
| KeepAlive.CountSinceReset | main.go:212-216 | after the last run of 600 s or more, the counter is the number of runs since it |
| KeepAlive.DelayBounds | main.go:212-240 | every sleep lies in [5, 300], and is 5 after a run of 600 s or more |
| ProcessSwarmRun.FoundMessage | main.go:152 | "Found " then the spec count, which reads back, then " process specs" |
| ProcessSwarmRun.Replicas | main.go:162 | the number of inner-loop turns: the replica count, or 0 when it is negative |
| ProcessSwarmRun.LaunchOne | main.go:163-166 | after a panic nothing changes; otherwise one launch is appended, numbered by the launches so far and made from the spec, or the call panics and nothing is appended; the table only grows |
| ProcessSwarmRun.LaunchReplica | main.go:163-166 | one inner-loop body rewrites the arguments against the shared table and launches, as LaunchOne says |
| ProcessSwarmRun.LaunchOneShifts | main.go:163-166 | a launch depends on earlier launches only through their count |
| ProcessSwarmRun.RunProcessSwarm | main.go:146-171 | the nested loops give exactly SwarmSpec |
| ProcessSwarmRun.SwarmFailurePersists | main.go:164 | a launch that panics ends the swarm there |
| ProcessSwarmRun.ReplicaFailurePersists | main.go:162-167 | a panic in the replica loop persists |
| ProcessSwarmRun.SpecFailurePersists | main.go:161-168 | a panic in the spec loop persists |
| ProcessSwarmRun.SwarmSpec | main.go:146-171 | with no specs nothing is launched and the swarm says so; otherwise it reports their number |
| ProcessSwarmRun.LaunchOneKeepsGood | main.go:158-166 | a launch keeps the numbering, the table and the distinctness invariant |
| ProcessSwarmRun.OldAndNewDiffer | main.go:158-164 | a number taken before the table and one taken outside it differ |
| ProcessSwarmRun.ReplicasKeepGood | main.go:162-167 | the replica loop keeps the invariant |
| ProcessSwarmRun.SpecsKeepGood | main.go:161-168 | the spec loop keeps the invariant |
| ProcessSwarmRun.SwarmIndexedAndDistinct | main.go:158-168 | launch k has index k, and no two placeholders across all launches get the same number |
| ProcessSwarmRun.ReplicasLayout | main.go:162-167 | rep replicas add exactly rep launches of the spec |
| ProcessSwarmRun.SpecsCount | main.go:160-168 | a swarm prefix without a panic launches the sum of its replica counts |
| ProcessSwarmRun.SpecsLayoutAt | main.go:160-168 | launch k in spec j's slot is a replica of spec j |
| ProcessSwarmRun.TotalBefore | main.go:161-162 | spec j's slots come before those of any later spec |
| ProcessSwarmRun.SpecsLayout | main.go:160-168 | the launches are grouped spec by spec, in spec order |
| ProcessSwarmRun.SwarmLayout | main.go:148-168 | without a panic: Σ replicas launches, numbered 0..N-1, in spec order |
| SliceTools.FindIndex | slice_tools/slice_tools.go:4-11 | -1 iff no element satisfies fn; otherwise the first index that does |
| SliceTools.RemovedShape | slice_tools/slice_tools.go:15 | removal shortens by one, keeps the prefix, shifts the tail, and drops exactly one element |
| SliceTools.RemoveAtIndex | slice_tools/slice_tools.go:14-16 | in place: the first len-1 array cells become slice[:index] ++ slice[index+1:], and the last cell is unchanged |
| RexPrint.SwapAt | rexprint/rexprint.go:41 | a swap keeps the length |
| RexPrint.SwapPermutes | rexprint/rexprint.go:41 | a swap is a permutation |
| RexPrint.Shuffled | rexprint/rexprint.go:39-42 | the shuffle keeps the length |
| RexPrint.ShuffledPermutes | rexprint/rexprint.go:39-42 | for any draws j in [0, i], the shuffle is a permutation |
| RexPrint.StepPermutes | rexprint/rexprint.go:41 | one more swap keeps the multiset |
| RexPrint.Shuffle | rexprint/rexprint.go:39-42 | the in-place loop gives exactly Shuffled |
| RexPrint.GetRandomColors | rexprint/rexprint.go:16-44 | exactly the twelve listed codes, each once, in shuffled order |
| RexPrint.FindM | rexprint/rexprint.go:54 | the first 'm' at or after from |
| RexPrint.UncoloredRoundTrip | rexprint/rexprint.go:53-55 | the code and the text read back out of "\x1b[<c>m<t>\x1b[0m" |
| RexPrint.Colored | rexprint/rexprint.go:53-55 | the coloured text starts with the escape of the code and ends with the text and the reset |
| RexPrint.Dim | rexprint/rexprint.go:57-59 | reads back as code 37 and the text |
| RexPrint.ErrColor | rexprint/rexprint.go:61-63 | reads back as code 41 and the text |
| RexPrint.OutColor | rexprint/rexprint.go:65-67 | reads back as code 42 and the text |
| RexPrint.GoRem | rexprint/rexprint.go:47 | Go's %: the sign of the dividend, magnitude below the divisor |
| RexPrint.GoDivision | rexprint/rexprint.go:47 | the truncated quotient and remainder recompose the dividend |
| RexPrint.PrintLnColor | rexprint/rexprint.go:46-51 | the line is missing (a Go panic) iff the palette is empty or i mod len is negative |
| RexPrint.PrintedLine | rexprint/rexprint.go:47-50 | for i >= 0: coloured "[id]" in colors[i mod len], then the parts in order, each after a space |
| RexPrint.SpacedAppend | rexprint/rexprint.go:49-50 | the message parts keep their order |
| MessageHandler.Min | message_handler/message_handler.go:86-91 | the smaller of a and b |
| MessageHandler.Stamped | message_handler/message_handler.go:150-158 | stamping keeps every key |
| MessageHandler.StoresToEmpty | message_handler/message_handler.go:145-184 | with no new messages, n held messages are gone after k successful heartbeats iff 50k >= n |
| MessageHandler.StampNext | message_handler/message_handler.go:153 | stamping one more message extends Stamped by that key |
| MessageHandler.Without | message_handler/message_handler.go:182-184 | exactly the held keys not in the batch remain |
| MessageHandler.WithoutNext | message_handler/message_handler.go:183 | deleting one more key extends Without by that key |
| MessageHandler.WithoutSize | message_handler/message_handler.go:180-185 | removing distinct held keys removes exactly that many messages and leaves the others as they were |
| MessageHandler.PickKeys | message_handler/message_handler.go:148-158 | toWrite distinct held keys, each of their messages stamped with the machine metadata |
| MessageHandler.CollectDocs | message_handler/message_handler.go:161-165 | the document list is the held message of each batched key, in batch order |
| MessageHandler.DeleteKeys | message_handler/message_handler.go:182-184 | the delete loop removes exactly the batched keys |
| MessageHandler.StoreMessages | message_handler/message_handler.go:143-191 | min(held, 50) distinct held keys, stamped documents, and the held messages afterwards: the batch removed on success, only stamped on failure |
| MessageHandler.Handler.constructor | message_handler/message_handler.go:30-39 | empty buffer, no flush pending, not started, zero metadata |
| MessageHandler.Handler.Run | message_handler/message_handler.go:41-48 | only the first call starts and records the metadata; later calls change nothing |
| MessageHandler.Handler.Flush | message_handler/message_handler.go:62-64 | installs or removes the flush request, and nothing else |
| MessageHandler.Handler.ProcessSwarmMessage | message_handler/message_handler.go:246-252 | holds the time-stamped message under the key and leaves the other entries; a fresh key adds one entry |
| MessageHandler.Handler.BulkStoreMessagesInMongo | message_handler/message_handler.go:131-206 | empty buffer: nothing stored and a pending flush signalled; otherwise the batch is stored, removed on success (leaving HeldAfterStores(n, 1) messages), writing reset, and the flush signalled iff nothing is held |
| MessageHandler.Handler.Heartbeats | message_handler/message_handler.go:56-59 | k heartbeats with every store succeeding and nothing arriving leave HeldAfterStores(n, k) messages, none iff 50k >= n |
| MessageHandler.Handler.StoreBatch | message_handler/message_handler.go:143-191 | the non-empty path of a heartbeat, as StoreMessages says, with writing reset |
| MessageHandler.Handler.CompleteFlush | message_handler/message_handler.go:194-204 | a pending flush is signalled and cleared iff nothing is held, and stays pending otherwise |

## Left out

- Real sleeping, clocks and elapsed time. A sleep is a `Sleep(n)` event. A run's duration is a whole number of seconds supplied as input, which is exact for the `>= 600` comparison.
- Process spawning, pipes, the two output-scanner goroutines and the log lines `runCommand` prints. Only the id and the exit code it returns are modelled.
- Goroutines and `sync.WaitGroup`: the keep-alive loops of a swarm run concurrently, and each is modelled on its own.
- MessageHandler.Handler.BulkStoreMessagesInMongo: a whole heartbeat is one atomic step, so the two mutexes are not modelled. In the source a heartbeat spans three locked regions (message_handler.go:143-168, 180-186 and 195-197), the unlocked `insertMany` at line 171 and the unlocked emptiness check at line 133. A message that `ProcessSwarmMessage` adds while the insert is in flight stays held, is not deleted, and keeps a requested flush pending; the model cannot express that interleaving.
- MongoDB, godotenv and environment variables (`connectDb`, `insertOne`, `insertMany`, `testMongo`, remote-main.go). `insertMany` is the `insertOk` answer. The spec document `Run` inserts, and the lines printed about it, are not modelled.
- MessageHandler.Handler.Run: the endless heartbeat loop after start-up is the caller invoking `BulkStoreMessagesInMongo` once a second; the time.Sleep between beats is not modelled.
- The blocking send on the flush channel is modelled as a counter of signals sent, because the receiver's side is not part of the core.
- `uuid.NewRandom`, `rand.Seed` and `rand.Intn` are inputs: an arbitrary key, and draws with draw i in [0, i]. The concrete sequence produced by seed 3 is not modelled.
- Regexp matching (rexregexp/regregexp.go and the `MustCompile` lines). Arguments arrive with their placeholder bounds already parsed.
- The lexical rules of `std::stoi` and `strconv.Atoi` (leading whitespace, '+', partial parses, range errors). Each is a partial function given as a parameter.
- NotAGameGolang.RunMain: `flag.Parse` is not modelled, and the input is `flag.Args()`. The reporter defines no flags. So when the first argument starts with '-' and is longer than "-" (say "-1"), Go prints the greeting and the usage text and exits with status 2 before the loop: no notice, no farewell. "-h" and "-help" print the usage and exit with status 0. A first argument "--" is dropped. MainTrace, MainLayout and FarewellIffAllParse describe the run only from the first argument that `flag.Parse` leaves in place, so a negative value is reported on stderr only when it is not the first argument, or comes after "--".
- NotAGameGolang.ReportArgument: the sleep is `time.Duration(secondsToSleep) * time.Second`, an int64 count of nanoseconds. For |n| > 9223372036 that product wraps, and a wrapped non-positive duration means no sleep at all. Also `secondsToSleep * -1` leaves math.MinInt64 negative. The model sleeps exactly |n| seconds, so it holds only for |n| <= 9223372036. The same bound applies to NotAGameGolang.MainLayout's `Sleep(Abs(n))`.
- NotAGameCpp.ReportArgument: `int` is 32 bits wide, and `std::abs(INT_MIN)` is undefined behaviour. The model sleeps |v| seconds for any value the parser gives, so it assumes the parser gives values in (INT_MIN, INT_MAX]. The same holds for NotAGameFormat.ReportArgument.
- DynamicArgs.GetDynamicArgsOrPanic: the bounds are exact naturals, and Go's int64 arithmetic is not modelled. `strconv.Atoi` at parse_args.go:20-21 returns math.MaxInt64 for a bound too large for int64, and the error is dropped. When the range reaches math.MaxInt64, `seq++` at line 31 wraps to math.MinInt64 and `seq <= to` still holds. So such a range is never exhausted, and it can be given a negative number. For example, `[A, A]` with A = "{unique-in-sequence:9223372036854775807-9223372036854775807}" assigns "9223372036854775807" and then "-9223372036854775808", where the model panics. The model agrees with the source whenever both bounds are below 9223372036854775807.
- DynamicArgs.FindFree: same gap. The search stops at `hi`, and it does not wrap past math.MaxInt64 as `seq++` does. So it is faithful only for hi < 9223372036854775807.
- DynamicArgs.PanicIffExhausted: "panics iff exhausted" holds of the source only for placeholders whose bounds are both below 9223372036854775807. A range that reaches math.MaxInt64 never panics in Go.
- DynamicArgs.AssignsLeastFree: "Lo(p) <= n <= Hi(p)" holds of the source only for placeholders whose bounds are both below 9223372036854775807.
- The YAML spec types and `readConf`, machine_meta/machine_meta.go, and the contents of `MachineMeta`, which is opaque text here.
- Floating point in `math.Pow`. For the attempts that reach it (0..5) the result is an exact integer, and it is modelled as 5·2^attempt.
- SliceTools.RemoveAtIndex: it requires 0 <= index < len; for other indices Go panics on the slice bounds, and that panic is not modelled.
- `printAllColors`, a debugging helper.
- The log lines the message handler prints through `Dim`.
