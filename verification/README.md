# SmokeSig: a verified model

SmokeSig runs smoke tests described in a configuration file. This project models the parts of it that
carry hard logic and proves what they promise. Each module follows one component of the Go program.

* `Tests`, `Chains`, `Runner`, `Parallel` — tests with extracted and referenced variables, the chain
  detection over the dependency graph, the sequential run with retries and fail-fast, and the parallel run
  as a step model in which goroutines interleave on one shared variable store. The central theorem says
  exactly when every interleaving gives what the sequential run gives.
* `Stress` — the stress scheduler: a main loop, a counting semaphore, one goroutine per run, as a
  transition system with its safety invariant, its deadlock condition and its termination bound.
* `Leb128`, `WasmBinary`, `Fixture`, `PluginAbi` — the LEB128 encoders, a decoder for the Wasm binary format
  (chapter 5 of the WebAssembly Core Specification), the generator of the memory-ABI plugin, a small
  interpreter for it, and the host side of the shared-memory protocol. The end-to-end theorem says exactly
  for which text and input the host reads back the text the plugin was generated for.
* `Mqtt`, `WebSocket`, `Ldap` — the packet encoders and readers of three assertions, each against a
  decoder or encoder written from the protocol's standard (MQTT 3.1.1, RFC 6455, RFC 4511).
* `Masking` — the in-place rewriting loop that redacts credentials, and its token-wise meaning.
* `Includes`, `RemoteCache` — bounded-depth loading of includes, and the conditional-request cache.
* `WaitForPort` — the polling loop with capped backoff and a deadline.
* `Bits`, `Options`, `Sequences` — Go's bitwise operators on two's-complement integers, defined bit by bit, an option
  type, and facts about sequences.

Loops of the source are methods with loops, proved equal to a specification function or to a property;
objects the source updates in place are classes (`Runner.Runner`, `PluginAbi.Guest`, `WebSocket.Conn`,
`RemoteCache.RemoteResolver`). Goroutines are nondeterministic steps over an explicit state. Go's
integer widths are written out where they matter (shifts, `int64` conversions, wrapped lengths, retry backoff).

Where a promise fails, the project shows the failure and proves the exact condition under which it holds:

* No chain found does not by itself make a parallel run safe: only the last extractor of a variable
  is remembered and a test's references to its own variables are ignored (`Parallel.MaskedExtractorRaces`), and a variable
  set by a hook that a test also extracts races (`Parallel.HookVariableRaces`). `Parallel.IndependentIff` is the exact condition,
  over all results that commands, JSON paths and patterns may have; a test whose command is empty extracts nothing.
* The retry backoff doubles in 64 bits and wraps; the total pause is exact up to the condition in `Runner.RetryTime`.
* A cache file is truncated before it is written, so a write that fails halfway can leave an empty
  entry that a later fallback hands out (`RemoteCache.TruncatedWriteIsHarmful`), or the new tag with part of the body, which
  the server then confirms as current (`RemoteCache.CutWriteIsConfirmed`); `RemoteCache.GoodIffHarmless` is the exact condition.
* A server without ETags that returns to an older version is told apart by date only, and an earlier date counts as
  unmodified (`RemoteCache.RollbackIsMissed`); a body longer than 10 MB is cut silently. `RemoteCache.GoodIffSound` is the
  exact condition on the versions a server goes through.
* An MQTT client identifier of more than 65535 bytes gets a wrapped length (`Mqtt.ConnectRoundTrip`).
* A successful LDAP response whose message length takes more than one byte is reported as unexpected
  (`Ldap.UnderstoodIffShort`), unless a padded length happens to put the right byte in the right place
  (`Ldap.UnderstoodIfPadded`); `Ldap.UnderstoodIff` is the exact condition over all definite-length encodings.
* The WebSocket check looks at one frame where RFC 6455 has messages of several (`WebSocket.SplitTextIsMissed`), and at
  frames on which a client must fail the connection (`WebSocket.MaskedTextIsMisread`); `WebSocket.AgreesIff` is the exact
  condition for the two to agree. A claimed length no slice can hold makes it panic.
* A stress test with runs and no workers never ends (`Stress.DeadlockIff`), and under fail-fast one run
  more than `workers` fails in some run exactly when there is a worker and there are more runs than workers
  (`Stress.FailureBoundIsTight`).
* The plugin fixture keeps its text at 1024 and allocates from 4096: a text longer than 3072 bytes is overwritten
  by the input (`PluginAbi.ReturnsTextIff`). It also writes the operands of `i32.const` with the unsigned encoder, which
  is right only when the last byte leaves the sign bit clear (`Leb128.UnsignedReadAsSigned`).
* Of a credential that starts with "ASIA" and goes on with "KIA" the letters "ASI" stay in the masked text, because
  "AKIA" is looked for first (`Masking.TokenMasked`).
* The comment above the WebSocket reader lists text, binary, close and ping; the code reports the payload of every
  other opcode too. The model follows the code.

## Model

| member | source | states |
|---|---|---|
| Tests.FindVarReferences | internal/runner/varstore.go:211-233 | a variable is returned if and only if the command, one of the four expected output texts, the URL or a header refers to it |
| Tests.ResolveParts | internal/runner/varstore.go:39-54 | a text resolves if and only if both its parts do, to one result after the other |
| Tests.ResolvePart | internal/runner/varstore.go:39-54 | a literal stands for itself; a variable for its value, if it has one and its name is an identifier |
| Chains.FindExtractors | internal/runner/varstore.go:127-136 | maps each extracted variable to the last test that extracts it, and nothing else |
| Chains.FindDeps | internal/runner/varstore.go:138-150 | builds exactly the graph "test i refers to a variable whose last extractor is another test j" |
| Chains.Explore | internal/runner/varstore.go:162-183 | the search terminates although tests are queued repeatedly, and collects exactly the undirected connected component of its start |
| Chains.SortIndices | internal/runner/varstore.go:190-197 | the swap loop leaves the same indices strictly ascending |
| Chains.DetectChains | internal/runner/varstore.go:126-205 | two tests are in one group if and only if a path of tests joins them in which each names, in its command, expected outputs, URL or headers, a variable its neighbour is the last to extract, or the other way round; groups are ascending, pairwise disjoint, of at least two tests, and ordered by first waiting test |
| Chains.NoGroupsIff | internal/runner/varstore.go:126-205 | a list of groups of that kind is empty if and only if no test names a variable that another test is the last to extract |
| Parallel.StepKeepsInv | internal/runner/runner.go:368-380 | every atomic step of every goroutine keeps the invariant that ties the shared store to what each goroutine has stored so far |
| Parallel.FinishedAgree | internal/runner/runner.go:368-380 | for independent tests any two finished interleavings have the same results and the same variable store |
| Parallel.OrderIsASchedule | internal/runner/runner.go:339-366 | running the tests one after the other is one of the interleavings |
| Parallel.IndependentIff | internal/runner/runner.go:250-257 | every interleaving agrees with the run in order, for all results of commands, paths and patterns, if and only if the tests are independent: no variable that two tests can extract, no read of another test's variable in a command that can resolve, no hook variable that a test can extract; a test with an empty command can extract nothing |
| Parallel.RunsEnd | internal/runner/runner.go:368-380 | no interleaving is longer than a bound fixed by the tests and the number of hook variables |
| Parallel.UnfinishedCanStep | internal/runner/runner.go:368-380 | as long as a goroutine is not done some step is possible, so every run can be finished |
| Parallel.NoChainsIff | internal/runner/runner.go:250-257 | with no chain and one extractor per variable, the parallel run is schedule-independent exactly when no variable set by a hook is extracted by a test among several |
| Parallel.RunsInParallel | internal/runner/runner.go:250-257 | the run goes parallel if and only if it is asked for, fail-fast is off and no test names a variable that another test is the last to extract |
| Parallel.ParallelRunIsSequential | internal/runner/runner.go:250-257 | when no test waits for another, each variable has one extractor and hooks set none of them, each interleaving ends with the results and store of the sequential run |
| Parallel.SharedVariableRaces | internal/runner/runner.go:1023-1026 | two tests with commands that extract the same variable make the outcome depend on the schedule, for some results of the commands and patterns |
| Parallel.ReadVariableRaces | internal/runner/runner.go:539-546 | a command that can resolve with a variable another test extracts makes the outcome depend on the schedule, for some results |
| Parallel.HookVariableRaces | internal/runner/runner.go:443-446 | a hook variable that one test can extract and another cannot makes the outcome depend on the schedule, for some results |
| Parallel.MaskedExtractorRaces | internal/runner/varstore.go:128-149 | two concrete tests in which no chain is found and the outcome still depends on the schedule |
| Parallel.CollectResults | internal/runner/runner.go:381-392 | the parallel run reports all results in test order, and its counts are the numbers of passed, skipped, allowed and other tests |
| Runner.Runner.RunTestOnce | internal/runner/runner.go:536-572 | an attempt runs the command as the variables resolve it at that moment; if and only if all its assertions hold, a found JSON value and a matched text are stored under their names, the text last, and nothing else changes |
| Runner.Runner.RunTest | internal/runner/runner.go:395-422 | passed, skipped, allowed failure, error and assertions tell how the execution of the last attempt went; that attempt is the first whose assertions all hold or, when asked for, whose trace was confirmed, otherwise the last allowed; the pause is the sum of the doubled backoffs, never after the last attempt |
| Runner.LastHappened | internal/runner/runner.go:395-422 | the specification of a test says the same, so the theorems on interleavings speak of these results |
| Runner.RetryTime | internal/runner/runner.go:404-419 | n attempts pause b(2^(n-1) - 1) in total if and only if the last backoff fits 63 bits; otherwise less |
| Runner.Runner.RunTestWithHooks | internal/runner/runner.go:424-463 | stores the hook variables, and the test's result and stored values are those of its executions on them |
| Runner.Runner.RunSequential | internal/runner/runner.go:339-366 | each test runs on the variables the one before it left, with a result told from its executions; each count is the number of tests of its kind; under fail-fast everything up to the first failure is as in such a run, and the rest is reported skipped |
| Runner.Conservation | internal/runner/runner.go:339-366 | passed, failed, skipped and allowed failures add up to the total, which is the number of results |
| Runner.RunMonorepo | internal/runner/runner.go:281-325 | the totals over any list of sub-suites count the tests of each kind, and each sub-suite's tests stand in place and in order; one that cannot be loaded or run fails the whole |
| Stress.Safety | internal/runner/stress.go:93-125 | in every reachable state runs in flight are at most the workers, every launched run is in flight or counted once, and under fail-fast at most one run starts after the first failure and at most workers + 1 fail |
| Stress.FinalCounts | internal/runner/stress.go:93-125 | at the end passes and failures add up to the launched runs, one duration is stored per run, and the errors are the non-empty messages of the failed runs |
| Stress.StuckIff | internal/runner/stress.go:94-103 | a reachable unfinished state has no next step exactly when there are no workers and the main loop waits for a slot |
| Stress.DeadlockIff | internal/runner/stress.go:94-103 | a deadlock is reachable if and only if there are runs and no workers |
| Stress.RunsEnd | internal/runner/stress.go:93-125 | every run of the scheduler ends within seven steps per requested run and two more |
| Stress.FailureBoundIsTight | internal/runner/stress.go:98-103 | under fail-fast some run has workers + 1 failures if and only if there is at least one worker and there are more runs than workers |
| Stress.DedupErrors | internal/runner/stress.go:35-48 | one group per distinct message with its number of occurrences, most frequent first, adding up to the number of messages |
| Stress.TestErrorMessage | internal/runner/stress.go:147-157 | "kind: expected x, got y" of the first failed assertion, or the error when none failed |
| Leb128.Uleb128 | internal/plugin/testdata/generate.go:64-78 | the shift-and-mask loop writes the groups of seven bits |
| Leb128.Sleb128 | internal/plugin/testdata/generate.go:80-97 | the signed loop terminates and writes at most 5 bytes, from which the decoder of section 5.2.2 reads the value back |
| Leb128.Sleb128Wide | internal/plugin/testdata/generate.go:271-288 | the same for 64-bit values and at most 10 bytes |
| Leb128.UnsignedRoundTrip | internal/plugin/testdata/generate.go:64-78 | the decoder of section 5.2.2 of the core specification reads every n-bit value back and consumes exactly its bytes |
| Leb128.SignedRoundTrip | internal/plugin/testdata/generate.go:80-97 | the same for signed values of any width |
| Leb128.UnsignedShortest | internal/plugin/testdata/generate.go:64-78 | nothing the decoder accepts for a value is shorter than what the encoder writes |
| Leb128.SignedShortest | internal/plugin/testdata/generate.go:271-288 | the same for signed values |
| Leb128.UnsignedLength | internal/plugin/testdata/generate.go:64-78 | k bytes are enough exactly for the values below 2^(7k) |
| Leb128.SignedLength | internal/plugin/testdata/generate.go:80-97 | k bytes are enough exactly for the values of 7k signed bits |
| Leb128.EncodedSizes | internal/plugin/testdata/generate.go:64-97 | at most 5 bytes for 32-bit values and 10 for 64-bit values |
| Leb128.UnsignedReadAsSigned | internal/plugin/testdata/generate.go:178-181 | an operand written unsigned reads the same as a signed number if and only if it fits and its last byte leaves the sign bit clear |
| Leb128.PackedPointerRoundTrip | internal/plugin/abi.go:88-91 | packing any two 32-bit values, writing them as a signed constant, decoding and unpacking gives both back |
| WasmBinary.SplitAfter | internal/plugin/testdata/generate.go:57-62 | splitting framed sections returns them in order and goes on with whatever follows |
| WasmBinary.SplitIff | internal/plugin/testdata/generate.go:57-62 | any list of framed sections comes back whole if and only if every content is shorter than 2^32 bytes |
| WasmBinary.DecodeEncode | internal/plugin/testdata/generate.go:130-269 | every module of the subset whose numbers fit decodes from its written bytes to itself, each size prefix covering exactly its body |
| Fixture.MakeSection | internal/plugin/testdata/generate.go:57-62 | writes the id, the length cut to 32 bits, and the content |
| Fixture.BuildMemoryABIModule | internal/plugin/testdata/generate.go:130-269 | the repeated appends write exactly the layout of the intended module |
| Fixture.ModuleBytes | internal/plugin/testdata/generate.go:130-269 | the layout of the intended module is, byte by byte as the source writes it, the header and seven sections with their type codes, indices, names, instructions and offsets |
| Fixture.SectionsComeBack | internal/plugin/testdata/generate.go:130-269 | after the 8-byte header the bytes split into the seven sections, increasing ids and no byte left, if and only if the text is at most 2^32 - 12 bytes |
| Fixture.FixtureDecodes | internal/plugin/testdata/generate.go:130-269 | a decoder that follows the standard reads the generated bytes as the intended module, text included |
| Fixture.AlwaysOnePage | internal/plugin/testdata/generate.go:168-172 | whatever the length of the text, bytes that decode at all declare one page of memory |
| PluginAbi.Guest.InvokeMemoryABI | internal/plugin/abi.go:54-115 | outcome and new guest state are those of the protocol, which the next three rows tell call by call |
| PluginAbi.PlacedProtocol | internal/plugin/abi.go:54-115 | for every module and state: with alloc(length) = ptr and room there, the input is written at ptr and nothing else changes; evaluate(ptr, length) gives the range at its upper half of the length in its lower half; then (ptr, length) and that range are freed, and only (ptr, length) when the call fails or the range is outside |
| PluginAbi.NotPlacedProtocol | internal/plugin/abi.go:63-79 | an allocator that fails, that returns nothing, or whose pointer leaves no room ends the call with its error, nothing written and nothing freed |
| PluginAbi.MissingProtocol | internal/plugin/abi.go:54-61 | when one of the three functions is not exported nothing is called |
| PluginAbi.CrashFails | internal/plugin/testdata/generate.go:291-373 | the crashing plugin fails in evaluate after the input was written, or in writing it, whatever the input |
| PluginAbi.Guest.WriteHostResponse | internal/plugin/host.go:201-223 | a non-zero result unpacks to exactly the data in guest memory if and only if the data is shorter than 2^32 bytes; nothing else in memory changes; without a placement the result is 0 |
| PluginAbi.AllocCalled | internal/plugin/testdata/generate.go:207-226 | calling the generated allocator returns the bump pointer and advances it by the 32-bit size, modulo 2^32 |
| PluginAbi.EvaluateCalled | internal/plugin/testdata/generate.go:238-251 | interpreting the generated `evaluate` returns 1024 in the upper and the text's length in the lower half |
| PluginAbi.FixtureInvoked | internal/plugin/abi.go:54-115 | from any bump pointer the outcome is the text's memory range after the input was written there, or a failed write when the input does not fit |
| PluginAbi.FixtureInstantiated | internal/plugin/testdata/generate.go:257-266 | the module starts with the text at 1024 and the bump pointer at 4096 exactly when the text fits the page |
| PluginAbi.StartsWithText | internal/plugin/testdata/generate.go:257-266 | that memory is one page holding the text at 1024 and zeros elsewhere |
| PluginAbi.ReturnsTextIff | internal/plugin/abi.go:54-115 | generated, decoded, instantiated and invoked, the plugin gives back exactly its text if and only if text and input fit the page and agree where they overlap |
| PluginAbi.LengthsSufficeIff | internal/plugin/abi.go:54-115 | lengths alone guarantee this for all contents exactly when the text has at most 64512 and the input at most 61440 bytes and the text ends below 4096 or the input is empty |
| Mqtt.EncodeRemainingLength | internal/runner/assertion_mqtt.go:110-124 | dividing writes the base-128 groups of the length |
| Mqtt.RemainingLengthRoundTrip | internal/runner/assertion_mqtt.go:110-124 | the reader of section 2.2.3 of MQTT 3.1.1 gets a length back if and only if it is at most 268435455, which is when it has at most 4 bytes |
| Mqtt.SameBytes | internal/runner/assertion_mqtt.go:110-124 | division here and shifting in the Wasm generator write the same bytes for every 32-bit value |
| Mqtt.EncodeMqttString | internal/runner/assertion_mqtt.go:102-108 | a big-endian 16-bit length, wrapped for longer strings, and the string |
| Mqtt.ConnectPacket | internal/runner/assertion_mqtt.go:41-63 | the packet is 0x10, the encoded length, 0 4 "MQTT" 4 2 0 60, and the identifier behind its length |
| Mqtt.ConnectRoundTrip | internal/runner/assertion_mqtt.go:41-63 | the broker reads protocol level, flags, keep-alive and identifier as intended if and only if the identifier has at most 65535 bytes |
| WebSocket.WsReadFrame | internal/runner/assertion_ws.go:65-132 | consumes and reports one frame, fails, or panics on a length no slice can hold, as the specification of a reader with all three length forms does |
| WebSocket.ReadBack | internal/runner/assertion_ws.go:65-132 | every well-formed frame of RFC 6455 section 5.2 that fits a slice is consumed exactly and its payload reported, and any other panics |
| WebSocket.ReadStream | internal/runner/assertion_ws.go:65-132 | repeated reads return any sequence of frames in order and leave what follows untouched |
| WebSocket.ReadStreamPanics | internal/runner/assertion_ws.go:65-132 | the first frame that does not fit a slice ends the reading in a panic |
| WebSocket.BrokenOffFails | internal/runner/assertion_ws.go:65-132 | of a frame that breaks off anywhere nothing is reported |
| WebSocket.NegativeLengthIsEmpty | internal/runner/assertion_ws.go:83-113 | a 64-bit length with the top bit set is negative and read as an empty payload |
| WebSocket.WsSendMessage | internal/runner/assertion_ws.go:135-162 | writes 0x81, the length with the mask bit in the shortest of three forms, the key, and each byte of the message combined with the byte of the key whose turn it is |
| WebSocket.MaskedTwice | internal/runner/assertion_ws.go:153-158 | masking with the same key twice restores the data |
| WebSocket.ClientFrameRoundTrip | internal/runner/assertion_ws.go:135-162 | no other length form is shorter, a reader stops exactly at the frame's end, and unmasking what it finds gives the message |
| WebSocket.Receive | internal/runner/assertion_ws.go:245-304 | the receive loop terminates and gives the verdict of the stream |
| WebSocket.PassesOnFirstDecisive | internal/runner/assertion_ws.go:245-304 | the check passes if and only if the first close frame or non-empty message is a message that satisfies the expectation |
| WebSocket.PassesIffFound | internal/runner/assertion_ws.go:245-304 | if this is a message, the check passes if and only if the payload is the text with something before and behind it, or, without a text, the pattern matches |
| WebSocket.NotPassedOnClose | internal/runner/assertion_ws.go:245-304 | if it is a close, or the stream ends before, the check does not pass; if no slice can hold it, it panics |
| WebSocket.NoiseIsIgnored | internal/runner/assertion_ws.go:245-304 | removing pings and empty frames never changes the verdict |
| WebSocket.NothingExpected | internal/runner/assertion_ws.go:245-304 | with nothing expected no stream makes the loop pass |
| WebSocket.AgreesIff | internal/runner/assertion_ws.go:245-304 | the check agrees with a client of RFC 6455, which reassembles messages (section 5.4) and fails on masked, reserved, out-of-sequence or invalid frames and text, on every text to find if and only if the first frame that says something is the whole first message |
| WebSocket.FragmentsAreHeard | internal/runner/assertion_ws.go:245-304 | that client hears a message in any number of fragments, with pings and pongs in between, as their payloads one after the other, whatever follows; invalid text it does not |
| WebSocket.ConnectionFails | internal/runner/assertion_ws.go:65-132 | of masked, reserved, fragmented or long control frames, close frames and data out of sequence it hears nothing, and nothing after them |
| WebSocket.FinalFrameIsMessage | internal/runner/assertion_ws.go:245-304 | that is so when this frame is a close, or is final text or binary data in a stream such a client accepts |
| WebSocket.SplitTextIsMissed | internal/runner/assertion_ws.go:245-304 | a text sent in two frames is seen only in its first part |
| WebSocket.MaskedTextIsMisread | internal/runner/assertion_ws.go:90-96 | of a masked text the check compares the masked bytes, where a client of the standard fails the connection |
| Masking.Pass | internal/auth/masking.go:15-27 | the rewriting loop for one prefix terminates although the text may grow, and replaces exactly the credentials with that prefix |
| Masking.MaskCredentials | internal/auth/masking.go:14-30 | all passes in order |
| Masking.NoPrefixSurvives | internal/auth/masking.go:6-30 | no known prefix occurs in the output, masking again changes nothing, and only texts free of prefixes stay as they are |
| Masking.MaskingIsTokenwise | internal/auth/masking.go:14-34 | masking is masking each boundary-delimited token by itself and keeping the boundaries |
| Masking.MaskSplits | internal/auth/masking.go:14-34 | what stands on either side of a space, quote, line end, tab, comma, brace or bracket is masked by itself |
| Masking.CleanTokenStays | internal/auth/masking.go:6-30 | a text in which none of "AKIA", "ASIA", "ya29." and "eyJ" occurs stays as it is |
| Masking.TokenMasked | internal/auth/masking.go:6-30 | in a run without separators everything from its first such prefix on becomes "\*\*\*redacted\*\*\*", except that "ASI" stays when "ASIA" is followed by "KIA" |
| Ldap.BindRequest | internal/runner/assertion_ldap.go:50-92 | the buffers filled by index are the nested BER elements, written out byte by byte, refused when too long |
| Ldap.BindRoundTrip | internal/runner/assertion_ldap.go:50-92 | sent if and only if name and password have at most 115 bytes together, and then it decodes per sections 4.2 and 5.1 of RFC 4511 to message 1, version 3, that name and that password |
| Ldap.JudgeResponse | internal/runner/assertion_ldap.go:98-133 | fewer than eight bytes are a read error, a first byte other than 0x30 a wrong tag; with 0x61 at byte five and more than eight bytes, the code is the byte behind the first 0x0A 0x01 from byte six on, or -1; the check passes if and only if that code is 0 |
| Ldap.ResponseCodeFound | internal/runner/assertion_ldap.go:98-133 | for every short-form BindResponse the scan finds its result code |
| Ldap.ResponseDecodes | internal/runner/assertion_ldap.go:105-131 | every modelled response, with any definite length octets, decodes to its result code for a reader of RFC 4511 |
| Ldap.JudgedAs | internal/runner/assertion_ldap.go:98-133 | the check's answer to every such response: unexpected, or what the scan reports |
| Ldap.UnderstoodIff | internal/runner/assertion_ldap.go:98-133 | the server's code is reported if and only if the response's tag is in place and the scan from there hits the code |
| Ldap.UnderstoodIffNoFalseStart | internal/runner/assertion_ldap.go:105-131 | with the code in three bytes and a message of any length: if and only if the tag is in place and no length octets from there on look like the start of a code, or the byte after the first that do equals the code |
| Ldap.UnderstoodIffInPlace | internal/runner/assertion_ldap.go:98-133 | with the code in three bytes and at most 2560 bytes: if and only if message and id lengths take one byte each, or the fourth byte of a padded message length equals the tag |
| Ldap.UnderstoodIffShort | internal/runner/assertion_ldap.go:98-133 | from a server that writes the shortest message length, if and only if the message length fits one byte |
| Ldap.UnderstoodIfPadded | internal/runner/assertion_ldap.go:98-133 | a short message with a length padded to four bytes is understood only when it has exactly 97 bytes |
| Includes.LoadWithDepth | internal/schema/remote.go:275-339 | the recursive loader returns what the specification of loading says; beyond depth ten, without a readable file, template or syntax it returns that error |
| Includes.LoadSucceedsIff | internal/schema/remote.go:275-310 | loading succeeds if and only if every include chain from the root ends in a loadable file and has at most ten edges |
| Includes.CycleNeverLoads | internal/schema/remote.go:275-310 | a file on an include cycle never loads |
| Includes.ReachingACycleFails | internal/schema/remote.go:275-310 | nor does a file from which a cycle can be reached |
| Includes.LoadFlattens | internal/schema/remote.go:301-336 | the loaded tests and prerequisites are the recursive flattening: remote base, later includes first, own entries last; too deep a tree fails |
| Includes.FirstFailingInclude | internal/schema/remote.go:301-310 | the first include that fails to load ends the load with its error |
| Includes.BrokenBaseFails | internal/schema/remote.go:311-324 | when all includes load and the remote base does not, the load fails with the error of the base |
| Includes.TwoIncludesInOrder | internal/schema/remote.go:301-336 | with two includes and a base the lists are base, second include, first include, own entries |
| Includes.LoadedHasTree | internal/schema/remote.go:301-336 | every successful load has such a tree |
| RemoteCache.RemoteResolver.FetchHttp | internal/schema/remote.go:59-125 | with an entry a network error, an error status or a broken body returns that entry's body as a fallback, without one an error; a 304 returns the entry; a full answer is cut to 10 MB, and returned and stored if and only if it is valid; the headers are those of the entry |
| RemoteCache.StepKeepsInv | internal/schema/remote.go:59-125 | every fetch or publication keeps the cache an entry the server had with these validators and that passed validation, and gives a good result: delivered bodies as the server has them, a fallback whenever there is an entry and no delivery, an error only when the cache is inaccessible, a full answer is invalid, or neither entry nor delivery is there |
| RemoteCache.EveryRunIsGood | internal/schema/remote.go:59-125 | over any run through sound versions with harmless write failures all results are good in that sense: 200 and 304 results are the server's current body and a fallback is the last stored one |
| RemoteCache.GoodIffSound | internal/schema/remote.go:59-125 | all runs through a sequence of versions are good if and only if no valid body exceeds 10 MB and no version is followed by one with a different body that the conditional request takes for it: same ETag, or without ETag a date no later |
| RemoteCache.GoodIffHarmless | internal/schema/remote.go:174-191 | all runs through sound versions are good if and only if each failing cache write leaves the old file, the complete new one, or none; every failing write of a run may leave something else |
| RemoteCache.RollbackIsMissed | internal/schema/remote.go:75-95 | a server without ETags that returns to an earlier version answers 304, and the cached later body is handed out |
| RemoteCache.TruncatedWriteIsHarmful | internal/schema/remote.go:174-191 | a write that fails after truncating the file makes a later fallback return an empty body |
| RemoteCache.CutWriteIsConfirmed | internal/schema/remote.go:174-191 | a write that fails inside the body leaves the new tag with a cut body, which a later 304 hands out |
| WaitForPort.WaitFor | internal/runner/lifecycle.go:159-190 | the result is that of the first dial that connects or the first look that finds the context ended; it never sleeps past the deadline and returns at most one dial after it |
| WaitForPort.DialBound | internal/runner/lifecycle.go:159-190 | at most six dials and one more per two seconds of the timeout |

## Left out

- Sockets, HTTP, TLS, subprocesses, containers and file contents: given byte streams or oracles.
- Regular expressions, JSON paths, YAML, JSON and Go templates: oracles; templates only in the form `{{ .Vars.X }}`.
- Commands: a command's outcome is a function of the test, the attempt and the resolved text. Effects of one command on another outside the variable store, and the process environment set by authentication profiles, are not modelled.
- before_each and after_each hooks: they share one environment map across goroutines; only before_all variables are modelled.
- Runner.Runner.RunTestWithHooks: without the before_each and after_each hooks.
- Parallel.IndependentIff: ranges over arbitrary results of regular expressions and JSON paths, so a pattern that can match only one text counts as one that can match any; so do Parallel.NoChainsIff and the three lemmas on races.
- The mutex of the variable store: each read and each write of a store is one atomic step.
- Stress.Safety: run counts are natural numbers; a negative number of workers, on which the source panics, is not modelled. A skipped run counts as a failure, as in the source.
- Stress.DedupErrors: the library sort is represented by picking a most frequent remaining message; the order among equals is open, as in the source.
- Pass rates, health percentages and NTP timestamps: floating point.
- WebSocket.WsReadFrame: does not unmask, because the source skips the mask key without applying it; unmasking is outside, in `WebSocket.ClientFrameRoundTrip`.
- Masking.MaskCredentials: a character stands for one byte.
- Ldap.JudgeResponse: the response arrives in one read of at most the buffer's size.
- Includes.LoadWithDepth: the outcome of resolving and parsing an `extends` URL is given with the file; of the merged configuration only tests and prerequisites are kept, so the other fields of the merge and the plugin map are left out.
- RemoteCache.RemoteResolver.FetchHttp: a complete cache write is taken to read back as the entry written, which is a promise of the YAML library for the body as a string; one URL; entity tags and dates are values, their header syntax is left out; an ill-behaved server that answers 304 without a condition is not among the runs.
- PluginAbi.Guest.InvokeMemoryABI: marshalling the input and parsing the output are outside; the texts are given as bytes. Error kinds are told apart by the step that failed, not by the message.
- PluginAbi.Guest.WriteHostResponse: a guest without memory is one with an empty memory, and an allocator without a result makes the source panic, which is reported as a flag.
- WasmBinary.DecodeEncode: covers the sections and instructions of the memory-ABI fixture and `unreachable`; custom sections, locals, tables, imports, maximum memory sizes and validation are not part of the decoder.
- Fixture.BuildMemoryABIModule: the source is one function; here each section's appends are a method.
- WASI plugins, the sandbox and the other host functions, ABI detection: only easy members.
- Filtering of tests by tag and name, selection of lifecycle hooks, reporters, dashboards, authentication exchange, the Goss translator, the terminal interface: only easy members or library calls.
