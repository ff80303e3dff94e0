# Verified models of wgft

wgft forwards ports of a public server to agents behind NAT through WireGuard. This project models,
in Dafny 4.11, the parts of it whose correctness rests on more than one function, and proves what
they promise:

- **The agent's convergence** (`agent.dfy`, `agentruns.dfy`, `agentledger.dfy`, `connection.dfy`, `watchdog.dfy`). A
  running agent holds a tunnel, a processed generation and several states that wait for a retry. The
  runtime and its watchdog are classes with one method per operation, each proved equal to a function
  on a snapshot of the fields. The theorems are about all runs of those functions, with every answer
  of the dataplane an input of the event (`agenttiming.dfy` has those about time, `agentledger.dfy` what
  each event asks of the dataplane and what the answers so far leave behind).
- **Three concurrent pieces of the agent**, each a state machine over its atomic steps:
  the lock with a deadline (`timedlock.dfy`), the ping loop's verdict (`pingverdict.dfy`), and the mode
  gate with crashes and teardowns (`modegate.dfy`). The reconnect loop (`reconnect.dfy`) is a loop
  over what its attempts come to.
- **The DUT frame protocol** (`bytes.dfy`, `wire.dfy`, `messages.dfy`, `codec.dfy`, `frames.dfy`): 43
  message kinds, their encoder and decoder with a sticky error, frames on a stream, and recordings.
  `appendix.dfy` has the design's table of numbers and bodies, which the codec is proved to keep to.
- **The rule algebra** (`decimal.dfy`, `targets.dfy`, `rules.dfy`, `ruleset.dfy`, `splitmerge.dfy`,
  `importdiff.dfy`): targets as text with decimal ports, validation of rules and of every run of
  batches, splitting and merging, and the import diff.
- **WireGuard peer sets** (`peers.dfy`).

`wrappers.dfy` and `ruletypes.dfy` hold the shared types. `dafny verify dfyconfig.toml` checks everything.

## How the source is read

- What the program does not decide is an input: clocks, handshake readings, the network, whether a
  save succeeds, the dataplane's answers to CheckWG, Build and ApplyRules, `unicode.IsGraphic` beyond
  ASCII and whether `net.ParseIP` reads a host as IPv6 (`Targets.Tables`).
- Of the dataplane the model assumes that Built changes only in Build and Close, that a failed Build
  leaves no tunnel, and that a failure of ApplyRules is fatal only before its first success, as the
  kernel dataplane has it (internal/agent/kernelmode/dataplane_kernel_publish.go:46-55). That dataplane
  stops failing fatally earlier, once its link has converged, so the model allows it more answers than
  it gives. Everything holds for any answers, also those that neither of the two dataplanes gives.
- An operation of the agent is one atomic step per critical section of the runtime's mutex. Two have
  several: rotate-key closes the tunnel in one and applies the last state in another, and the receive
  loop compares a state's generation in one and applies the state in a later one. `GenerationKeptIff` and
  `GenerationNeverDecreases` assume that nothing comes in between; `RotateKeyRace` and `ReceiveRace` say
  exactly what happens when something does.
- Port ranges have their first port at most their last one wherever a lemma says `Ordered`:
  ParsePortRange makes no others.
- Integers are unbounded except where the width matters. The ping counter, the reconnect backoff,
  16-bit ports and all fields of a message have their Go width.
- Go strings in rules are sequences of Unicode characters with their UTF-8 length; in messages they
  are bytes with concrete UTF-8 validity.
- A message's straight-line encode and decode methods are given as two separate lists of its fields,
  in the order written and in the order read; `Codec` runs over those lists.

## Where the code does less than it seems to

Each of these is a concrete run or input, with the exact condition under which the promise holds:

- A byte string or list of 2^32 elements or more is encoded without an error and does not decode to
  itself; every shorter message does (`LongDataDoesNotRoundTrip`, `DecodeUndoesEncode`). `Frame` and
  `AppendFrame` do not look at the frame's length (`FrameReadsBack`). What `WriteMsg` accepts always
  reads back (`SentMessagesReadBack`).
- Teardown does not take the lock when there is no lock file. An agent that starts in kernel mode
  meanwhile can lose its record and later start in userspace mode beside its own leftovers
  (`RaceBreaksGate`, `GateHolds`).
- SplitFrames checks a frame's length in 64 bits and cuts it out in 32. A frame with a length field of
  2^32 - 4 or more makes it panic (`LongFramePanics`, `SplitPanicsIff`).
- The retry of a connection's first state can take the generation back
  (`UnsyncedConnectionCanLowerGeneration`, `GenerationKeptIff`). So can rotate-key and the receive loop,
  when a newer state is applied between their critical sections (`RotateKeyRaceHappens`,
  `RotateKeyRace`, `ReceiveRaceHappens`, `ReceiveRace`).
- The build retry and rotate-key only log a fatal error of ApplyRules and keep nothing pending. A tunnel
  can then be up with another wg config than the last state's, or with no last state at all
  (`RetrySwallowsFatalError`, `OnlySwallowingLosesConfig`). This needs a dataplane whose builds can be
  retried and whose first publication can fail fatally: the userspace one has only the former, the kernel
  one only the latter.
- A rebuild by the watchdog whose rules cannot be published is only logged, and the state then counts as
  applied without them (`RebuildForgetsRules`, `OnlyRebuildsForgetFailures`, `OnlyForgettingLosesRules`,
  `SkipIsExact`). So it does after a fatal error that is only logged. The rebuild needs a dataplane that
  is rebuilt and can fail to publish: the userspace one never fails to, and the kernel one is never
  rebuilt.
- The watchdog doubles int64 intervals. Its constants are small; with a threshold of 2^62 ns or more
  63 failed builds overflow (`FailuresOverflow`, `IntervalsFit`).
- The reconnect backoff doubles an int64. With a limit of 2^62 ns or more it wraps (`WaitRange`).
- The ping counter is a uint64. 2^63 applies during one ping bring it back (`WrapHidesApplies`).
- Splitting a valid rule can give a tail whose target is too long, also with a host of 253 bytes
  (`BracketedHostOverflows`, `SplitKeepsSet`).
- An import can show a rule as unchanged although one of the two targets is malformed
  (`BadTargetShownAlike`, `UnchangedForwardsAlike`).

## Model

| member | source | states |
|---|---|---|
| `Watchdog.RebuildState.Step` | internal/agent/watchdog.go:80-103 | one reading of the handshake gives exactly the new watchdog state, the idle time and the rebuild decision |
| `Watchdog.RebuildState.FailedBuild` | internal/agent/watchdog.go:45-52 | a failed build schedules the next try and widens the interval up to the ceiling |
| `Watchdog.RebuildState.ClearRetry` | internal/agent/watchdog.go:56 | the schedule of failed builds is dropped, and nothing else |
| `Watchdog.RebuildsBackOff` | internal/agent/watchdog.go:70-103 | in every run of checks without a new handshake, rebuild k comes at least min(2^k * after, max(backoffMax, after)) after the one before |
| `Watchdog.WaitCountsRebuilds` | internal/agent/watchdog.go:58-103 | without a new handshake the interval in force is exactly the one for the number of rebuilds so far |
| `Watchdog.RebuildsExactly` | internal/agent/watchdog.go:70-103 | in every run of checks, a check rebuilds if and only if the later of the tunnel's start and the last change is at least min(2^k * after, max(backoffMax, after)) ago, where k counts the rebuilds since the last new handshake |
| `Watchdog.HealthyTunnelIsNeverRebuilt` | internal/agent/watchdog.go:80-103 | a tunnel whose handshake is seen to change in every window shorter than `after` is never rebuilt |
| `Agent.AgentRuntime.constructor` | internal/agent/run.go:142-170 | a started process has no tunnel, no waiting state and the last state read from disk |
| `Agent.AgentRuntime.CheckWG` | internal/agent/apply.go:111-129 | refuses a wg config only while a tunnel is built, and keeps the newest refused generation |
| `Agent.AgentRuntime.Close` | internal/agent/agent.go:172-178 | closes the tunnel and drops the build retry and its state |
| `Agent.AgentRuntime.FinishApply` | internal/agent/apply.go:175-195 | success advances generation, last state and pending; failure only replaces an older pending state |
| `Agent.AgentRuntime.StartTunnel` | internal/agent/watchdog.go:111-120 | closes first, then builds; the config in use changes only when the build succeeds |
| `Agent.AgentRuntime.BuildLocked` | internal/agent/watchdog.go:192-219 | the outcome of a build, including the schedule kept across the close |
| `Agent.AgentRuntime.Apply` | internal/agent/apply.go:79-99 | checks, rebuilds when the tunnel is missing or its config differs, then publishes |
| `Agent.AgentRuntime.CheckTunnel` | internal/agent/watchdog.go:134-165 | retries a failed build, or observes the handshake and rebuilds when due |
| `Agent.AgentRuntime.RetryBuild` | internal/agent/watchdog.go:174-185 | builds again exactly when a state waits, a time is set and it has come; no error of it ends the run |
| `Agent.AgentRuntime.RetryPending` | internal/agent/apply.go:18-55 | applies the pending state again exactly when there is one and a tunnel |
| `Agent.AgentRuntime.CloseForKey` | internal/agent/rotatekey.go:15-31 | the first critical section of rotate-key closes the tunnel and gives the last state it found |
| `Agent.AgentRuntime.Reapply` | internal/agent/rotatekey.go:33-39 | the second applies that state again; no error of it ends the run |
| `Agent.AgentRuntime.RotateKey` | internal/agent/rotatekey.go:10-43 | without a saved key nothing changes; with one the tunnel is closed and the last state applied again |
| `Agent.AgentRuntime.IsAlreadyApplied` | internal/agent/apply.go:145-150 | true exactly when a tunnel is built, nothing is pending or refused, and generation and content match |
| `AgentRuns.StepKeepsInv` | internal/agent/apply.go:79-195 | every event keeps the invariant of tunnel, retry, pending, generation and last state |
| `AgentRuns.ReachableInv` | internal/agent/watchdog.go:111-219 | in every run: a built tunnel has no build retry; a scheduled retry has a state and no tunnel; once anything was published, a built tunnel runs the last state's config or a publish is pending; rules a tunnel has are the last state's; generation and last state are those of the latest application |
| `AgentRuns.OnlySwallowingLosesConfig` | internal/agent/apply.go:175-183 | every event keeps a built tunnel with nothing pending on the last state's wg config, except exactly a build retry or an overtaken rotate-key that swallows a fatal error for another config |
| `AgentRuns.ReachableRunsLast` | internal/agent/watchdog.go:174-219 | in every run without such an event, also before anything was published, a built tunnel runs the last state's config or a publish is pending |
| `AgentRuns.RetrySwallowsFatalError` | internal/agent/watchdog.go:182-184 | a run that ends with a built tunnel, nothing pending and no last state |
| `AgentRuns.RunExtends` | internal/agent/apply.go:175-195 | no run takes back a recorded application or changes the thresholds |
| `AgentRuns.ClosedTunnelStaysClosed` | internal/agent/agent.go:172-178 | no number of checks and publish retries revives a tunnel closed on purpose |
| `AgentRuns.SkipIsExact` | internal/agent/apply.go:140-150 | where the skip fires, applying again changes nothing, also not the rules the tunnel has, if and only if the tunnel has the state's rules |
| `AgentRuns.OnlyForgettingLosesRules` | internal/agent/watchdog.go:212-217 | every event keeps a built tunnel with nothing pending on the last state's rules, except exactly a failed ApplyRules in a new tunnel that is only logged |
| `AgentRuns.SkipRefinesReapply` | internal/agent/apply.go:140-150 | in every state reached without such a failure, skipping an already applied state equals applying it again, rules included |
| `AgentRuns.RebuildForgetsRules` | internal/agent/watchdog.go:212-217 | a run after which a state counts as applied, nothing is pending and the tunnel has no rules |
| `AgentRuns.FailedPublishIsPending` | internal/agent/apply.go:175-183 | a failed first application leaves its generation or a newer one pending |
| `AgentRuns.FailedPublishStaysPending` | internal/agent/apply.go:175-195 | in every run it stays pending until some state of at least that generation is applied |
| `AgentRuns.OnlyRebuildsForgetFailures` | internal/agent/watchdog.go:212-218 | after a failed ApplyRules the state is owed exactly when it was before or the event was not a watchdog rebuild |
| `AgentRuns.FailedBuildsBackOff` | internal/agent/watchdog.go:192-211 | in every run, the k-th consecutive retryable failure since the last close on purpose or other build schedules the next try exactly min(2^(k-2) * after, max(backoffMax, after)) later, though closing clears the schedule in between; otherwise nothing is scheduled |
| `AgentRuns.WallClockDoesNotMatter` | internal/agent/watchdog.go:20-33 | two runs whose handshake values differ by an injective renaming that fixes zero make the same builds and end in equal states up to the renaming |
| `AgentLedger.StepFollows` | internal/agent/apply.go:79-195 | what every event leaves in every field outside the watchdog, from what it asks of CheckWG, Build and ApplyRules and what they answer |
| `AgentLedger.ReportTells` | internal/agent/apply.go:79-195 | what applying a state reports, case by case from those answers |
| `AgentLedger.RefusedAndPending` | internal/agent/apply.go:111-195 | after every run, a generation is refused if and only if CheckWG refused it, has accepted none as new since and it is the newest such; and a state is pending if and only if ApplyRules failed for it, has published none as new since and it is the newest such |
| `Backlog.KeepsIsUnique` | internal/agent/apply.go:118-127 | the log of answers determines what is kept |
| `AgentTiming.RunRebuildsBackOff` | internal/agent/watchdog.go:134-219 | in every run of the agent without a new handshake, also with applies, retries and rotate-keys in between, the k-th watchdog rebuild comes at least min(2^k * after, max(backoffMax, after)) after the one before |
| `AgentTiming.RunRebuildsExactly` | internal/agent/watchdog.go:134-165 | the same in every run of the agent, whatever else builds tunnels in it: a check that reads a tunnel's handshake rebuilds it if and only if that time has passed |
| `AgentTiming.StepSeen` | internal/agent/watchdog.go:84-88 | only a reading moves the handshake the next one is compared with |
| `AgentTiming.HealthyRunIsNeverRebuilt` | internal/agent/watchdog.go:134-165 | in every run of the agent a tunnel whose handshake is seen to change in every window shorter than `after`, from its start on, is never rebuilt |
| `AgentTiming.StepObserved` | internal/agent/watchdog.go:80-88 | only a reading that sees a change moves the time of the last change |
| `AgentTiming.StepWait` | internal/agent/watchdog.go:111-165 | only readings move the interval in force, and only builds move the tunnel's start |
| `AgentTiming.FailuresOverflow` | internal/agent/watchdog.go:50-51 | with a threshold of 2^62 or more, 63 failed builds reach an interval whose double is no int64 |
| `AgentTiming.IntervalsFit` | internal/agent/watchdog.go:45-103 | in all runs the doubled intervals are int64 if and only if rebuilds are off or the larger threshold is below 2^62 ns |
| `Connection.StreamReader.Check` | internal/agent/stream.go:334-351 | a first state of a foreign protocol version ends the connection; older states are dropped and applied ones skipped except the first, the others pass |
| `Connection.StreamReader.Receive` | internal/agent/stream.go:319-354 | with nothing between the comparisons and the application, the states that pass are applied |
| `Connection.AppliesIff` | internal/agent/stream.go:334-352 | a state is applied if and only if it is the first and of a known version, newer than the processed generation, or of that generation and not what a tunnel with nothing pending or refused already has; otherwise nothing changes |
| `Connection.NextKeepsSynced` | internal/agent/stream.go:319-354 | once a state of the connection was applied, everything that waits is at least as new as the processed generation |
| `Connection.GenerationKeptIff` | internal/agent/stream.go:342-353 | in every reachable state of a connection, no later atomic events on it take the generation back if and only if the run is over, nothing was processed, or the connection is past its first state and nothing older waits where a retry can reach it |
| `Connection.GenerationNeverDecreases` | internal/agent/stream.go:319-354 | once a state of the connection was applied, the generation never decreases on it, through states, retries, rebuilds and rotate-key, with nothing between the critical sections of each |
| `Connection.ReceiveRace` | internal/agent/stream.go:342-352 | for every state that passed the comparison and all events before its application, on a connection that keeps its generation, some answer lets it take the generation back if and only if a state newer than it was logged in between |
| `Connection.ReceiveRaceHappens` | internal/agent/stream.go:342-352 | such a run exists on a connection that is past its first success |
| `Connection.UnsyncedConnectionCanLowerGeneration` | internal/agent/apply.go:175-195 | the retry of a first state that failed to publish takes the generation back |
| `Connection.RotateKeyRace` | internal/agent/rotatekey.go:28-39 | for all events between its two critical sections, on a connection that keeps its generation, some answer lets rotate-key take the generation back if and only if a state newer than the one it found was logged in between |
| `Connection.RotateKeyRaceHappens` | internal/agent/rotatekey.go:28-39 | such a run exists |
| `TimedLock.RunKeepsInv` | internal/agent/doctor.go:138-157 | in every interleaving of any number of calls at most one part of one call owes an unlock, and exactly when that call holds the mutex |
| `TimedLock.TrueMeansAlone` | internal/agent/doctor.go:138-157 | a caller that was told true holds the mutex, and no other part of any call does or will unlock it |
| `TimedLock.ReleasedExactlyOnce` | internal/agent/doctor.go:138-157 | each call takes the mutex at most once, what is taken is unlocked once or still owed, and after false never by the caller |
| `TimedLock.CallStepsDecrease` | internal/agent/doctor.go:138-157 | every step of a call uses up a bounded number of steps |
| `TimedLock.NoDeadlock` | internal/agent/doctor.go:138-157 | while a call is not settled, some call can step or the other holder can unlock |
| `TimedLock.HandoverHolds` | internal/agent/doctor.go:143-153 | once its helper has the mutex, a waiting caller is told true by the handover and holds it |
| `TimedLock.WaitsOnlyForMutex` | internal/agent/doctor.go:143-153 | a waiting call can do nothing but time out if and only if its helper waits for a mutex that is taken |
| `TimedLock.NothingLeaks` | internal/agent/doctor.go:138-157 | when all calls are settled, none has left the mutex locked |
| `PingVerdict.VerdictIsExact` | internal/agent/stream.go:388-423 | a ping's verdict is dead exactly when the counter was bumped a multiple of 2^64 times; with fewer bumps, exactly when no apply was in progress from the ping to the verdict; a cancelled round gives no verdict |
| `PingVerdict.CounterCountsBumps` | internal/agent/apply.go:155-165 | the counter is the number of entries and exits of applies, modulo 2^64 |
| `PingVerdict.WrapHidesApplies` | internal/agent/stream.go:415-422 | with 2^63 applies during one ping the verdict is dead all the same |
| `ModeGate.StartsWhenAllowed` | internal/agent/mode.go:33-68 | exactly when a start ends in kernel mode, exactly when in userspace mode, and exactly when it is refused for which reason |
| `ModeGate.Credentials.Enter` | internal/agent/mode.go:74-99 | a kernel start has the record in the file first, a userspace start finds none, a refused start writes nothing |
| `ModeGate.RunStaysSafe` | internal/agent/teardown/teardown.go:114-217 | with a lock file, over every sequence of starts, crashes and teardowns, leftovers are recorded and no agent runs in userspace mode beside them |
| `ModeGate.TeardownCleans` | internal/agent/teardown/teardown.go:114-217 | from any host at rest with a lock file and something to clear, an uninterrupted teardown leaves nothing in the kernel and no mode recorded |
| `ModeGate.RaceBreaksGate` | internal/agent/teardown/teardown.go:116-136 | without a lock file a teardown beside a start leaves the kernel's resources unrecorded, and a userspace start then passes the gate |
| `ModeGate.GateHolds` | internal/agent/run.go:22-78 | from a host at rest all runs are safe if and only if the lock file exists or the record is of an unknown mode |
| `Reconnect.Effective` | internal/agent/stream.go:135-145 | the limits in use are positive and the lower is at most the upper; usable limits are kept, others become 1 s, 5 min and 10 s |
| `Reconnect.StreamObs.NoteAttempt` | internal/agent/streamobs.go:76-80 | an attempt clears the published retry time and keeps the interval |
| `Reconnect.StreamObs.NoteWaiting` | internal/agent/streamobs.go:118-122 | a wait publishes its interval and its entry time plus the interval |
| `Reconnect.StreamLoop` | internal/agent/stream.go:134-243 | the loop enters exactly the waits its outcomes call for, and publishes each |
| `Reconnect.WaitRange` | internal/agent/stream.go:135-146 | for every configuration: all waits of all outcome sequences lie between min(backoffMin, freshMax) and backoffMax if and only if backoffMax is below 2^62 ns |
| `Reconnect.EachWait` | internal/agent/stream.go:177-187 | wait by wait, the published time is entry plus wait, and a capped failure with a fresh handshake waits at most freshMax |
| `Reconnect.WaitIsExact` | internal/agent/stream.go:146-243 | with backoffMax below 2^62 ns, for all outcome sequences: each wait is the least of backoffMax, backoffMin doubled per wait since the last reset (long-lived connection, reconnect request, recovery, handshake), and freshMax doubled per wait since each cap after it |
| `Reconnect.TurnOfWait` | internal/agent/stream.go:146-243 | every wait is the wait of some turn the loop reaches |
| `Reconnect.DoublingWraps` | internal/agent/stream.go:239-241 | with a limit of 2^62 or more some sequence of outcomes gives a negative wait |
| `Bytes.LEReadsBack` | internal/dutproto/codec.go:43-45 | a little-endian integer that fits its width reads back |
| `Bytes.LEWritesBack` | internal/dutproto/codec.go:129-148 | the bytes an integer is read from are the ones it is written as |
| `Bytes.LEDigits` | internal/dutproto/codec.go:43-45 | byte i of an integer is its digit i to the base 256 |
| `Bytes.FromLEIsDigitSum` | internal/dutproto/codec.go:129-148 | an integer is read as the sum of its bytes, byte i times 256^i |
| `Bytes.ValidUTF8Iff` | internal/dutproto/codec.go:65-67 | bytes are valid UTF-8 if and only if they are the text of some Unicode scalar values |
| `Wire.ParseUndoesWriteScalar` | internal/dutproto/codec.go:42-94 | every field value the encoder takes and whose length fits is read back, whatever follows it |
| `Wire.WriteUndoesParseScalar` | internal/dutproto/codec.go:109-212 | every field the decoder accepts is written back as the same bytes |
| `Wire.ParseUndoesWriteAll` | internal/dutproto/codec.go:26-30 | the same for whole bodies with lists |
| `Wire.WriteUndoesParseAll` | internal/dutproto/codec.go:103-107 | every body the parser accepts is the one encoding of its fields |
| `Wire.ScalarAt` | internal/dutproto/codec.go:26-30 | every scalar of a body stands, byte by byte, after the bytes those before it take |
| `Wire.PutAllMeaning` | internal/dutproto/codec.go:36-40 | the sticky error is the first one any field has, and every field is written all the same |
| `Messages.FieldsOfFilled` | internal/dutproto/msg.go:253-296 | for every kind the fields encode writes are those decode filled in, in the same order |
| `Messages.FillGivesMessage` | internal/dutproto/msg.go:220-243 | the maker of a message's kind, filled with its fields, is the message |
| `Messages.MakersMatchKinds` | internal/dutproto/msg.go:220-243 | each maker makes a message of its own kind |
| `Messages.KindsAreDistinct` | internal/dutproto/msg.go:14-63 | no two groups of messages share a kind byte |
| `Messages.LayoutsAreSound` | internal/dutproto/msg.go:284-296 | every list's least element size is one its elements keep |
| `Messages.DecodeUndoesEncode` | internal/dutproto/msg.go:192-218 | a message Encode accepts decodes to itself if and only if its lengths fit 32 bits |
| `Messages.EncodeUndoesDecode` | internal/dutproto/msg.go:192-218 | every body Decode accepts, of every kind, is re-encoded to the same bytes |
| `Messages.EncodedAt` | internal/dutproto/msg.go:192-203 | the same for every message: where each integer, length, text and address is in its body |
| `Appendix.EncodesAsListed` | docs/design/v2/test-tooling.md:1588-1647 | every message has the number of the design's table, and its body is the one the table gives, byte by byte |
| `Appendix.DecodesAsListed` | docs/design/v2/test-tooling.md:1588-1647 | a kind and a body decode to a message if and only if the table gives it that number and body, and it is encoded with lengths that fit |
| `Messages.EncodingIsInjective` | internal/dutproto/msg.go:192-203 | two messages of one kind with the same body are the same message |
| `Messages.ShortBodiesFit` | internal/dutproto/codec.go:55-58 | a body shorter than 2^32 bytes has no length that was cut |
| `Messages.LongDataDoesNotRoundTrip` | internal/dutproto/codec.go:55-58 | a byte string of 2^32 bytes is encoded and not decoded to itself |
| `Codec.Enc.Str` | internal/dutproto/codec.go:60-70 | a string is written with its length, or as empty with an error when it is too long; a string that is not UTF-8 is an error |
| `Codec.Enc.Dur` | internal/dutproto/codec.go:48-53 | a duration is written as 64 bits, a negative one with an error |
| `Codec.Enc.Address` | internal/dutproto/codec.go:72-79 | an IPv4 address is written as 4 bytes, another as zeros with an error |
| `Codec.Enc.Enum` | internal/dutproto/codec.go:89-94 | a value out of range is written with an error |
| `Codec.Enc.Fixed` | internal/dutproto/msg.go:270-275 | the seed is copied into its fixed length, another length is an error |
| `Codec.Enc.Field` | internal/dutproto/msg.go:265-283 | a list writes its length and its rows in order |
| `Codec.Encode` | internal/dutproto/msg.go:193-203 | the encoder object computes the encoding the theorems are about |
| `Codec.Dec.Take` | internal/dutproto/codec.go:109-120 | bytes are taken only before the first error and when enough are left |
| `Codec.Dec.Uint` | internal/dutproto/codec.go:122-148 | an integer as the pure parser reads it, 0 after an error |
| `Codec.Dec.Bool` | internal/dutproto/codec.go:150-162 | exactly 0 and 1 are read |
| `Codec.Dec.Dur` | internal/dutproto/codec.go:166-172 | a duration over 63 bits is an error |
| `Codec.Dec.Enum` | internal/dutproto/codec.go:193-199 | exactly the values below the count are read |
| `Codec.Dec.ByteString` | internal/dutproto/codec.go:174-181 | a byte string beyond the body's end is refused before it is copied |
| `Codec.Dec.Str` | internal/dutproto/codec.go:183-190 | a string is copied and has to be UTF-8 |
| `Codec.Dec.Address` | internal/dutproto/codec.go:201-207 | four bytes in network order |
| `Codec.Dec.List` | internal/dutproto/codec.go:216-223 | a list's length is refused when its elements cannot all be left |
| `Codec.Dec.Rows` | internal/dutproto/msg.go:290-293 | the loop over a list reads what the pure parser reads and stays within the allocation bound, also after an error |
| `Codec.Dec.Field` | internal/dutproto/msg.go:284-296 | one field as the pure parser reads it |
| `Codec.Dec.Done` | internal/dutproto/codec.go:225-230 | the sticky error, or trailing bytes |
| `Codec.Decode` | internal/dutproto/msg.go:206-218 | the sticky decoder computes the pure parser's result with its first error, and for every body copies at most its length and makes at most a quarter as many list elements |
| `Frames.Stream.ReadFull` | internal/dutproto/frame.go:52-67 | io.ReadFull: EOF when nothing was left, UnexpectedEOF when too little was |
| `Frames.Stream.ReadFrame` | internal/dutproto/frame.go:52-76 | one frame or the first thing wrong with the stream |
| `Frames.Sink.Write` | internal/dutproto/frame.go:43-47 | a writer that may fail has taken a prefix |
| `Frames.WriteFrame` | internal/dutproto/frame.go:36-48 | refuses a frame that is too long before writing; otherwise writes the frame, or the prefix of it the writer takes before it fails |
| `Frames.FrameAt` | internal/dutproto/frame.go:34-48 | a frame byte by byte: four length bytes, the least significant first, the kind and the body |
| `Frames.LengthRead` | internal/dutproto/frame.go:52-60 | the length is read from four bytes, the least significant first |
| `Frames.ReadOneTells` | internal/dutproto/frame.go:50-69 | exactly when a read ends with EOF, with a length out of range, or with a frame |
| `Frames.CutStream` | internal/dutproto/frame.go:50-69 | for all frames and every cut: repeated reading gives the whole frames before the cut, then EOF on a boundary and UnexpectedEOF inside a frame |
| `Frames.SentMessagesReadBack` | internal/dutproto/frame.go:78-94 | for all messages WriteMsg accepts and every cut, the reader gets exactly the messages that are whole |
| `Frames.FrameReadsBack` | internal/dutproto/frame.go:96-117 | what Frame and AppendFrame build reads back if and only if it is not over the limit |
| `Frames.SplitFrames` | internal/dutproto/rec.go:138-159 | the splitting loop, with its 32-bit slice bounds, computes the cut, the error it stops at or its panic |
| `Frames.SplitAcceptsExchanges` | internal/dutproto/rec.go:137-159 | it accepts exactly the concatenations of whole exchanges of frames that end within 32 bits, and gives their frames |
| `Frames.AlternateAt` | internal/dutproto/rec.go:148-151 | frames alternate exactly when those at even places are requests and the others responses |
| `Frames.SplitPanicsIff` | internal/dutproto/rec.go:144-148 | it panics if and only if, after frames that alternate, a whole frame has a length field of 2^32 - 4 or more |
| `Frames.ShortInputReturns` | internal/dutproto/rec.go:144-148 | on less than 2^32 bytes it always returns |
| `Frames.LongFramePanics` | internal/dutproto/rec.go:144-148 | a frame with a body of 2^32 - 5 bytes makes it panic |
| `Frames.ReadAllSound` | internal/dutproto/frame.go:50-69 | frames read to the end of a stream are all there is in it, each of allowed length |
| `Frames.SplitAgreesWithReader` | internal/dutproto/rec.go:138-159 | frames of allowed length are what it gives if and only if they are whole exchanges and what a stream reader gives up to the end |
| `Decimal.ParseUndoesItoa` | proto/rule.go:361-364 | printing and parsing a number are inverse, with an error exactly when it does not fit |
| `Targets.SplitIsNames` | proto/rule.go:350-354 | SplitHostPort accepts exactly host:port and [host]:port, with one reading each |
| `Rules.TargetIsNamed` | proto/rule.go:350-367 | a target is exactly a host that is not empty and not IPv6 and a decimal port from 1 to 65535 |
| `Targets.TargetOfJoined` | proto/state.go:59-72 | a target's host joined with a number is a target exactly when the number is a port |
| `Targets.TargetAtShift` | proto/state.go:53-72 | going on from an effective target is going on from the target, also where there is none |
| `Targets.NextOfJoined` | proto/splitmerge.go:170-178 | nextPort on a printed target is the target with the next number |
| `Targets.RangeTextInjective` | proto/port.go:43-48 | different port ranges print differently |
| `Targets.DisplayInjective` | proto/rule.go:370-380 | on one range, targets displayed alike are the same host and port |
| `Rules.ContainsPrefix` | proto/source.go:79-86 | finds a prefix exactly when it is in the list |
| `Rules.DedupPrefixes` | proto/splitmerge.go:199-207 | each element once |
| `Rules.EqualPrefixSet` | proto/splitmerge.go:185-196 | true exactly when the lists are equal as sets, whatever their order and duplicates |
| `RuleSets.FindReserved` | proto/rule.go:334-338 | finds a reserved port in a range exactly when there is one |
| `RuleSets.FindOverlap` | proto/rule.go:339-344 | finds an earlier overlapping rule of the protocol exactly when there is one |
| `RuleSets.ValidateRuleSet` | proto/rule.go:321-347 | no error exactly when every row passes; an error names the first row that does not and explains it |
| `Rules.ValidIff` | proto/rule.go:90-195 | a rule is valid if and only if its ID, agent, protocol, ports, target, mode, proxy header, group, note and sources each meet their constraint, stated without the code's functions |
| `Rules.ErrorTells` | proto/rule.go:129-195 | the error of a refused rule names a constraint it breaks |
| `RuleSets.UnchangedIDs` | proto/rule.go:296-308 | the IDs whose row equals the last earlier row with that ID, up to empty source lists |
| `RuleSets.LastWithIsLast` | proto/rule.go:296-302 | of a repeated ID the last row counts |
| `RuleSets.RuleCountsByAgent` | proto/rule.go:238-244 | the number of rules of each agent |
| `RuleSets.CheckAgentRuleCounts` | proto/rule.go:264-278 | no error exactly when no agent is over the limit and over its earlier count; an error names the first such agent by name |
| `RuleSets.ValidateUpsert` | proto/rule.go:222-227 | no error exactly when the set passes with unchanged rows skipped and the counts pass; an error is explained, one of the set first |
| `RuleSets.AcceptsIff` | proto/rule.go:208-227 | a batch is accepted if and only if IDs are unique, no port has two rules or is reserved, every row is valid or was stored before, and the counts pass |
| `RuleSets.NormalKeepsValid` | proto/rule.go:311-319 | empty and missing source lists are validated alike |
| `RuleSets.RunKeeps` | proto/rule.go:208-227 | after any run of accepted batches IDs are unique, each port has at most one rule, none is reserved, each row meets every constraint on a rule or is an initial one, and no agent exceeds max(512, its initial count) |
| `SplitMerge.SplitKeepsForwards` | proto/splitmerge.go:33-52 | replacing any rule by its pieces keeps, for every protocol and port, agent, mode, effective target, source sets, rates and enabled flag |
| `SplitMerge.MergeKeepsForwards` | proto/splitmerge.go:85-166 | so does replacing two mergeable rules by their merge |
| `SplitMerge.SplitsIff` | proto/splitmerge.go:33-52 | exactly when a rule splits, and that the pieces have its other fields and its ports |
| `SplitMerge.MergesIff` | proto/splitmerge.go:85-166 | two rules merge, in either order, if and only if they treat what arrives alike, are no proxies, and the ports and targets of one go on where the other's end; the merge is the first one given with the ports of both |
| `SplitMerge.BlockerTells` | proto/splitmerge.go:85-118 | the reason two rules do not merge is true of them, whichever is given first |
| `SplitMerge.MergedAreAdjacent` | proto/splitmerge.go:97-102 | the 16-bit wrap at port 65535 never makes two rules mergeable |
| `SplitMerge.MergeUndoesSplit` | proto/splitmerge.go:154-166 | merging the pieces gives the original rule if and only if it is not a proxy and its tail has a target |
| `SplitMerge.SplitUndoesMerge` | proto/splitmerge.go:33-52 | splitting a merge at the boundary restores both ranges and the lower target, and the higher target if and only if that is well formed |
| `SplitMerge.SplitKeepsSet` | proto/splitmerge.go:33-52 | the pieces keep a valid set valid if and only if the tail's ID is valid and new and its target has at most 259 bytes |
| `SplitMerge.PiecesValid` | proto/rule.go:129-195 | the head is always valid, the tail under that condition |
| `SplitMerge.ShortHostFits` | proto/rule.go:104-107 | a host of at most 253 bytes without a colon always leaves room |
| `SplitMerge.BracketedHostOverflows` | proto/rule.go:113-116 | with a colon it may not |
| `SplitMerge.MergeKeepsSet` | proto/splitmerge.go:154-166 | a merge keeps a valid set valid |
| `ImportDiff.FieldChanges` | proto/importdiff.go:108-137 | the fields that are shown differently, in order |
| `ImportDiff.FieldsListed` | proto/importdiff.go:108-137 | a field is listed if and only if the two rules differ in it, and the fields come in order |
| `ImportDiff.RateTextInjective` | proto/rate.go:46 | different rates print differently |
| `ImportDiff.AlikeMeansSame` | proto/importdiff.go:108-137 | rules shown alike agree in every field up to ID, source list order and the target's spelling |
| `ImportDiff.UnchangedForwardsAlike` | proto/importdiff.go:56-61 | such rules forward every port alike if and only if both targets are well formed or neither is |
| `ImportDiff.UnchangedRowsForwardAlike` | proto/importdiff.go:54-65 | between valid sets every unchanged row stands for a current rule that forwards every port like the imported one |
| `ImportDiff.BadTargetShownAlike` | proto/rule.go:374-377 | a malformed target can be shown like a good one |
| `ImportDiff.DiffRules` | proto/importdiff.go:47-72 | the loops compute the diff the theorems are about |
| `ImportDiff.RowKinds` | proto/importdiff.go:54-65 | an imported rule is added if and only if no current rule has its ID, unchanged if and only if that one is shown alike, and otherwise changed from that one in the fields listed |
| `ImportDiff.DeletedIDs` | proto/importdiff.go:76-84 | the IDs of the deleted rows, in order |
| `ImportDiff.DeletedExactly` | proto/importdiff.go:66-84 | an ID is deleted exactly when the current rules have it and the imported ones do not |
| `ImportDiff.ImportGivesDesired` | proto/importdiff.go:41-84 | deleting the deleted IDs and upserting the imported rules leaves exactly the imported ones |
| `ImportDiff.OneRowPerID` | proto/importdiff.go:41-72 | every ID of either set is in exactly one row |
| `Peers.PeersEqual` | internal/dataplane/dataplane.go:217-235 | true exactly when the key-to-address maps are equal |
| `Peers.KeyMapIsLast` | internal/dataplane/dataplane.go:217-228 | of a repeated key the last peer's address counts |
| `Peers.SameMapSamePeers` | internal/dataplane/dataplane.go:215-216 | for unique keys that is having the same peers in any order |
| `Peers.PeerUnion` | internal/dataplane/dataplane.go:244-259 | the loops compute the union the theorems are about |
| `Peers.UnionMembers` | internal/dataplane/dataplane.go:237-259 | the union has every wanted peer, and an old one exactly when its key is not redeclared, its address not given away and valid |
| `Peers.UnionUnique` | internal/dataplane/dataplane.go:237-259 | with unique keys and addresses wanted, and unique valid addresses among the old peers, the union has unique keys and addresses |
| `Peers.SharedPeersStay` | internal/dataplane/dataplane.go:237-243 | a peer of both sets is in the union |

## Left out

- Agent.AgentRuntime.Apply: the preparation outside the mutex (name resolution) and the texts of pending and refused errors are not modelled.
- Targets.NextOfJoined: nextPort is modelled for port texts that begin with a digit or have no number; the only texts it meets are printed ports.
- ImportDiff.FieldChanges: gives the names of the changed fields without their old and new texts.
- ModeGate.RunStaysSafe: interfaces are the agent's by assumption; which key an interface holds, and the previous-key bookkeeping of rotate-key, are not modelled.
- ModeGate.GateHolds: an operator who removes the lock file during a run (internal/agent/credentials/lock.go:50-53) is not modelled; the host is then one without a lock file.
- TimedLock.NoDeadlock: that a waiting Lock is served is the runtime's fairness and not modelled.
- Rule texts that are not valid UTF-8, which Validate rejects.
- The difference between nil and empty byte strings and lists in messages.
- SplitFrames' companions: the gzip and JSON layers of a recording, and the tags of its requests.
- The control socket, registration and join strings, TLS pinning, WebSocket and JSON transport, netlink, nftables and WireGuard themselves.
- ParsePortRange, ParseRate, ParseSource and the editing of source lists, InheritedEndpoint, RulesDigest: would only add easy members.
- The doctor, status and help texts of the command line, log lines and their rate gate, and the lab scripts.
