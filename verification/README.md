# gno-watchtower: verified models

gno-watchtower watches gno.land validators: a *sentinel* beside each node collects RPC answers and
logs, a *watchtower* authenticates sentinels and forwards what they send, and both talk over a Noise
transport. This project models the parts of it that hold an algorithm or a state machine and proves
what each is for. Code that updates state is modelled by classes and loops, each proved against a
specification function; the properties are then lemmas about those functions, over every input, every
interleaving or every run.

- **Validator keys** (`Bits`, `ConvertBits`, `Polymod`, `Field32`, `Field1024`, `ThreeErrors`, `Bech32`, `Gpub`,
  `Walk`, `Bip173`, `KeyVector`): the Bech32 encoder of `pkg/gpub`, against BIP-173, section "Bech32", and
  anchored in published strings.
- **Noise transport** (`NoiseTransport`, `NoiseRuns`, `NoiseConfig`, `Handshake`, `NoiseListener`): frames and
  reads, the two-party handshake, the concurrent listener of `pkg/noise`, against sections 3, 5.1, 5.2
  and 7.5 of the Noise Protocol Framework.
- **Authentication** (`WatchtowerConfig`, `BanTable`, `BanRequests`, `Auth`): tokens, reloads and the IP-ban table.
- **Delivery** (`DeltaFilter`, `RpcCollector`, `RpcRuns`, `DropOldest`, `Pipeline`, `PipelineRuns`, `Retry`, `Stats`,
  `Delivery`): from an RPC answer to what the receiver knows about the node.
- **Logs and text** (`LogCollector`, `LokiPush`, `ByteSize`): batching, the Loki push, configured sizes.
- `Wrappers`, `GoTime` and `Counting` hold what several modules share.

`dafny verify dfyconfig.toml` checks everything.

## Where the code is not what one would expect

Each of these is a lemma below, usually with the exact condition under which the expected property
holds.

- `Close` of the listener is documented to make handshakes in flight drop their results
  (pkg/noise/listen.go:145-146). The `select` that decides may also publish, and `Accept` still hands out
  what was published: after `Close` the result of a handshake in flight can be dropped and can be
  delivered (`NoiseListener.AfterClose`). Nothing more can be published exactly when no handshake is in
  flight and the accept loop cannot start another (`NoiseListener.NoMorePublishedIff`).
- A handshake can be over with one side connected and the other not, exactly when both configurations are
  valid and just one of the two keys is accepted (`Handshake.OneSidedIff`): always the initiator when
  only the responder rejects, possibly the responder when only the initiator does, since the initiator
  sends its last message before it looks at the responder's key.
- Key strings have 99 characters where BIP-173 allows 90: a decoder that keeps to the standard refuses
  all of them (`Gpub.KeyStringTooLong`). The encoder checks neither the length nor the prefix
  (`Bech32.StandardIff`).
- A `Read` cut off by a deadline inside a frame loses what it has read; the stream stays usable exactly
  when that was nothing (`NoiseTransport.CutRead`, `NoiseRuns.CutKeepsIff`).
- A stream that ends right after the two length bytes of a frame is reported as a clean end, like one that ends
  between frames: reading no byte of the payload is no partial read (`NoiseTransport.PartialFrame`).
- `rpc_reachable` is documented to be 0 only if every call of the tick failed
  (internal/sentinel/rpc/collector.go:195-198). Only the three polls count: with all of them failed it is 0
  although a dump or the genesis document was fetched (`RpcRuns.OtherKeys`).
- The buffer zeroes an evicted slot so that nothing but what is queued stays reachable, but `Drain`
  reslices to `[:0:0]`, which keeps the array: what was drained stays reachable until the next push,
  unless it was all zero values (`DropOldest.Buffer.Drain`).
- A ban is final only when requests are handled one at a time. The ban check and the success that clears
  a record take the lock separately: a ban is final exactly when no request from its IP that had passed
  its check by then has a known token (`BanRequests.BanFinalIff`, `BanRequests.BanLost`).
- The gauge of active bans and the ban check disagree at the instant a ban runs out
  (`BanTable.GaugeAgainstChecks`).
- The periodic re-emission of the validator set bypasses the change filter without updating its digest.
  The receiver has the set fetched last exactly when that one was emitted or the re-emissions since the
  last filtered emission, if any, ended with the set the filter remembers
  (`RpcRuns.ValidatorsRebuiltIff`, `RpcRuns.ValidatorsDrift`).
- A log flush cut by cancellation keeps the whole batch, and the loop may go on before it returns. A line
  goes out once for every flush that reaches it while it is held
  (`LogCollector.AfterCancellation`, `LogCollector.LineSentTwice`).
- Log payloads dropped by a full buffer are counted under "log", all else about logs under "logs"
  (`PipelineRuns.DropsUnderOneName`).
- The retry loop waits for a Retry-After even after its last attempt (`Retry.Run`).
- The first retry wait is not clamped to 30 seconds (`Retry.DelayBounded`). The nanoseconds of a large
  Retry-After wrap: the header is kept to exactly when they fit an int64 or wrap to 30 seconds or more
  (`Retry.WaitHonouredIff`, `Retry.NoWaitIff`). A configured size wraps exactly when number times unit
  does not fit an int64 (`ByteSize.ReadExactIff`).
- The prefix expansion cuts code points to a byte, so that prefixes outside ASCII can collide
  (`Bech32.ExpandedAlike`, `Bech32.ExpandedCollides`); the code only uses "gpub".

## Model

| member | source | states |
|---|---|---|
| `Polymod.Polymod` | pkg/gpub/gpub.go:84-96 | the loop over values and generators computes the linear recurrence `Run` from state 1, on wrapping 32-bit words |
| `Polymod.StepXor` | pkg/gpub/gpub.go:87-93 | one step is linear over GF(2) in state and symbol together |
| `Polymod.RunXor` | pkg/gpub/gpub.go:84-96 | superposition: the run over a difference of inputs is the difference of the runs, at any length |
| `Polymod.RunBound` | pkg/gpub/gpub.go:84-96 | however long the input, the state stays below 2^30 |
| `Polymod.ZeroRunInjective` | pkg/gpub/gpub.go:84-96 | no number of trailing zero symbols turns a nonzero state into zero |
| `Polymod.ShortRun` | pkg/gpub/gpub.go:84-96 | from state 0 up to six symbols stay fully recorded: the state is zero exactly when they all are |
| `Polymod.BurstDetected` | pkg/gpub/gpub.go:49-96 | two inputs of any one length that differ only within six consecutive symbols never reach the same state |
| `Polymod.BurstOfSevenCanPass` | pkg/gpub/gpub.go:49-96 | six is the exact reach: the seven coefficients of the generator polynomial are an invisible difference |
| `Field32.AlphaFeedback` | pkg/gpub/gpub.go:49-93 | the five generator words are successive multiples, in GF(32), of one word |
| `Field32.RunTimes` | pkg/gpub/gpub.go:84-96 | the checksum is linear over GF(32): scaling state and symbols by a power of alpha scales the outcome |
| `Field32.ScaledDifference` | pkg/gpub/gpub.go:84-96 | a difference goes unseen if and only if each of its alpha-power multiples does |
| `Field1024.Period` | pkg/gpub/gpub.go:49 | in the field where the generator polynomial has its roots, zeta^1023 is one |
| `Field1024.Order` | pkg/gpub/gpub.go:49 | and no smaller positive power of zeta leaves a nonzero element alone |
| `ThreeErrors.EveryWord` | pkg/gpub/gpub.go:49 | each generator word, evaluated at each of three roots that differ by a factor zeta, is the word's symbol times the sixth power of the root |
| `ThreeErrors.StepValue` | pkg/gpub/gpub.go:87-93 | evaluated at a root, a step of the recurrence is one step of Horner's rule |
| `ThreeErrors.Vandermonde` | pkg/gpub/gpub.go:84-96 | three elements whose sums vanish under three successive powers of two different weights are all zero |
| `ThreeErrors.ThreeErrorsDetected` | pkg/gpub/gpub.go:49-96 | inputs of any one length that differ, but in at most three symbols less than 1023 apart, never reach the same state |
| `ConvertBits.Convert` | pkg/gpub/gpub.go:66-82 | the loop with its accumulator wrapping at 32 or 64 bits gives the exact regrouping of the input's bit string, for every length and group sizes up to 8 |
| `ConvertBits.RegroupRoundTrip` | pkg/gpub/gpub.go:64-82 | regrouping with padding is undone by regrouping back without, for every length |
| `ConvertBits.RegroupValue` | pkg/gpub/gpub.go:66-82 | the output has ceil(from*n/to) digits and denotes the input's big-endian number shifted by the padding |
| `ConvertBits.RegroupBack` | pkg/gpub/gpub.go:64-82 | exactly the digit sequences whose leftover bits could be padding come back from regrouping without padding and then with |
| `ConvertBits.SpreadGroup` | pkg/gpub/gpub.go:66-82 | cutting a bit string into padded groups loses no bit and adds only the padding zeros |
| `ConvertBits.GroupSpread` | pkg/gpub/gpub.go:66-82 | cutting the bits of digits of the same width gives the digits back |
| `Bech32.HrpExpand` | pkg/gpub/gpub.go:98-105 | for every valid string, filling the slice at byte offsets gives the high bits of each character's last byte, a zero, the low bits, and zeros at continuation bytes |
| `Bech32.ExpandedAlike` | pkg/gpub/gpub.go:98-105 | two prefixes expand alike if and only if their characters, cut to a byte, are laid out alike |
| `Bech32.ExpandedInjective` | pkg/gpub/gpub.go:98-105 | so the expansion pins an ASCII prefix down |
| `Bech32.ExpandedCollides` | pkg/gpub/gpub.go:98-105 | and need not pin another one down: a pair that collides |
| `Bech32.CreateChecksum` | pkg/gpub/gpub.go:107-116 | gives the six 5-bit pieces of the run over six zero symbols, with the last bit flipped |
| `Bech32.ChecksumVerifies` | pkg/gpub/gpub.go:84-116 | for every prefix and data, the recurrence over prefix, data and checksum ends at exactly 1 |
| `Bech32.ChecksumUnique` | pkg/gpub/gpub.go:107-116 | six symbols verify if and only if they are the computed ones |
| `Bech32.CorruptionFails` | pkg/gpub/gpub.go:84-116 | a verified sequence corrupted within six consecutive symbols never verifies, at any length |
| `Bech32.Encode` | pkg/gpub/gpub.go:51-62 | writes prefix, separator and the charset image of data and checksum symbols |
| `Bech32.DecodeEncode` | pkg/gpub/gpub.go:51-62 | a decoder of BIP-173 without its length and prefix limits accepts every encoded string and gives the data back |
| `Bech32.DecodedIff` | pkg/gpub/gpub.go:51-62 | and accepts a string as some data if and only if it is the encoder's string for that data |
| `Bech32.StandardIff` | pkg/gpub/gpub.go:51-62 | with the limits, it accepts the encoder's string if and only if the prefix is a standard one and prefix and data fit in 90 characters |
| `Bech32.EncodedInjective` | pkg/gpub/gpub.go:51-62 | different data never have the same string |
| `Bech32.CorruptionRejected` | pkg/gpub/gpub.go:47-96 | an accepted string with up to six consecutive characters changed is never accepted |
| `Bech32.CorruptedEncodingRejected` | pkg/gpub/gpub.go:51-62 | the same for every string the encoder writes |
| `Bech32.ThreeErrorsRejected` | pkg/gpub/gpub.go:47-96 | an accepted string with up to three characters changed, less than 1023 apart, is never accepted |
| `Bip173.StandardString` | pkg/gpub/gpub.go:47-116 | `a12uel5l`, listed as valid by BIP-173, is accepted and carries no data |
| `Bip173.StandardStringEncoded` | pkg/gpub/gpub.go:47-116 | and it is what the encoder writes for prefix "a" and no data |
| `Bip173.AlphabetString` | pkg/gpub/gpub.go:47-116 | for the prefix "abcdef" and twenty bytes the encoder writes the string BIP-173 lists, in which the 32 symbols appear in order |
| `KeyVector.TestKeyString` | pkg/gpub/gpub_test.go:14-27 | the key of the repository's own test has exactly the published string, all 99 characters: envelope, prefix expansion, regrouping, checksum and alphabet together |
| `Gpub.EncodeEd25519` | pkg/gpub/gpub.go:35-43 | appends the protobuf envelope around the key and encodes it under "gpub" |
| `Gpub.EncodeEd25519FromBase64` | pkg/gpub/gpub.go:24-33 | fails exactly on bad base64 or a length other than 32, else a 99-character "gpub1" string that decodes to the wrapped key |
| `Gpub.KeyStringShape` | pkg/gpub/gpub.go:35-62 | every key string has 99 characters and starts with "gpub1" |
| `Gpub.KeyStringInjective` | pkg/gpub/gpub.go:35-62 | two keys with the same string are the same key |
| `Gpub.KeyStringTooLong` | pkg/gpub/gpub.go:35-62 | a decoder that keeps to BIP-173's length limit refuses every key string, one that does not accepts it |
| `Gpub.KeyStringThreeErrors` | pkg/gpub/gpub.go:35-62 | a key string with up to three characters changed anywhere after "gpub1" is never accepted |
| `NoiseTransport.ReadWriteFrame` | pkg/noise/conn.go:134-164 | reading a written frame off a stream gives its payload and leaves exactly the rest |
| `NoiseTransport.PartialFrame` | pkg/noise/conn.go:134-148 | no proper prefix of a frame is taken for a frame: it reads as a clean end of the stream exactly if it is empty or just the length, else as a cut frame |
| `NoiseTransport.WriteRound` | pkg/noise/conn.go:102-123 | one round of a write: at most 65503 bytes, sealed under the next nonce behind their length; none is left past nonce 2^64-2; a raw failure counts nothing |
| `NoiseTransport.ReadRound` | pkg/noise/conn.go:73-98 | a whole frame on the stream: nonce exhaustion, failed opening, an empty plaintext, or the plaintext, and what each does to nonce, spill buffer and stream |
| `NoiseTransport.ReadNothing` | pkg/noise/conn.go:134-148 | no whole frame to come: clean end or cut frame, and an error of its own for a frame of length zero |
| `NoiseTransport.Conn.Write` | pkg/noise/conn.go:102-123 | the chunk loop puts on the wire, counts and reports what the recursive specification of a write says, for any size, nonce exhaustion and raw failures in mid-frame included |
| `NoiseTransport.Conn.Read` | pkg/noise/conn.go:59-98 | serves the spill buffer first, else exactly one frame, with every error case, a raw connection that fails in mid-frame included; new nonce, buffer and stream are given |
| `NoiseTransport.CutRead` | pkg/noise/conn.go:134-148 | a read cut off inside a frame fails, and leaves the stream at the start of that frame if and only if it had read nothing |
| `NoiseRuns.FrameLength` | pkg/noise/conn.go:23-28 | between honest peers every frame length is 17 to 65519, so neither size error can occur |
| `NoiseRuns.CutKeepsIff` | pkg/noise/conn.go:59-98 | after a read that fails on the raw connection what is left of the stream is still frames under the next nonces if and only if the read took nothing |
| `NoiseRuns.NothingLost` | pkg/noise/conn.go:59-123 | in every interleaving of writes, transport and reads of any sizes, reads that fail on the raw connection having taken nothing included: delivered bytes, spill buffer and plaintext in flight are the bytes sealed, in order; nonces differ by the frames in flight; the reader fails in no other way |
| `NoiseRuns.DeliveredInOrder` | pkg/noise/conn.go:59-123 | delivered bytes are always a prefix of the sealed ones |
| `NoiseRuns.ReaderProgresses` | pkg/noise/conn.go:59-98 | once everything is handed over, a reader that has not seen it all is not blocked and gains at least a byte per call |
| `NoiseRuns.WriteIsRun` | pkg/noise/conn.go:102-123 | a whole write call is such a run, ending in the state the method's specification gives |
| `NoiseRuns.WriteTotal` | pkg/noise/conn.go:102-123 | a write accepts a prefix of its input, and all of it exactly when it reports no error, whatever the raw connection does |
| `NoiseRuns.SoundCipherExists` | pkg/noise/conn.go:23-28 | the assumptions made of the cipher can be met |
| `NoiseConfig.Validate` | pkg/noise/config.go:63-76 | accepts exactly the configurations whose keys all have 32 bytes |
| `NoiseConfig.FirstFault` | pkg/noise/config.go:63-76 | a refusal names the first wrong key, in the order private, public, authorized, and its length |
| `Handshake.Finish` | pkg/noise/handshake.go:71-89 | a connection exists only if the peer key is authorized |
| `Handshake.RunHandshake` | pkg/noise/handshake.go:21-66 | over any incoming messages and with the raw connection failing in any turn: a connection if and only if all configured keys have 32 bytes, no turn fails, the messages needed are there in the shape of pattern XX and the peer key is non-empty and authorized; then the peer key is the one received, the endpoint's own messages are what was sent, and both keys are those of the three messages, crossed by role |
| `Handshake.InitiatorOutcome` | pkg/noise/handshake.go:21-89 | what the initiator ends with and has sent, turn by turn, with the error of each way to fail |
| `Handshake.ResponderOutcome` | pkg/noise/handshake.go:21-89 | the same for the responder |
| `Handshake.MessageKeeps` | pkg/noise/handshake.go:37-65 | an endpoint that processes the next message of pattern XX writes or accepts exactly that message and stays within the protocol invariant |
| `Handshake.Agreement` | pkg/noise/handshake.go:21-89 | in every interleaving: the peer key of a connection is the other endpoint's and authorized; each side sends under the key the other receives under, the initiator under the first Split key, the two keys being different |
| `Handshake.NoDeadlock` | pkg/noise/handshake.go:37-65 | in every reachable state with a running endpoint some endpoint can take a turn |
| `Handshake.RunsAreShort` | pkg/noise/handshake.go:37-65 | every run ends within six turns |
| `Handshake.CompleteRun` | pkg/noise/handshake.go:21-89 | a run that can go no further has both sides connected on the same three messages if and only if both configurations are valid and each authorizes the other's key |
| `Handshake.OrderedRun` | pkg/noise/handshake.go:37-65 | with valid configurations the six turns in order are possible and no side fails but for authorization |
| `Handshake.ResponderAlone` | pkg/noise/handshake.go:37-89 | when only the initiator rejects the other key, some finished run leaves the responder connected alone |
| `Handshake.InitiatorAlone` | pkg/noise/handshake.go:37-89 | when only the responder rejects the other key, every finished run leaves the initiator connected alone |
| `Handshake.OneSidedIff` | pkg/noise/handshake.go:37-89 | a one-sided outcome is possible if and only if both configurations are valid and exactly one of the two keys is accepted |
| `NoiseListener.ExactlyOnePlace` | pkg/noise/listen.go:84-153 | in every interleaving each accepted connection is in exactly one place: handshaking, finished, queued, delivered, rejected or dropped |
| `NoiseListener.Deliveries` | pkg/noise/listen.go:84-143 | at most 16 results wait; deliveries follow publication order, never repeat, and had a successful handshake; at most one accept error surfaces |
| `NoiseListener.RawClosedOnce` | pkg/noise/listen.go:147-153 | the raw listener is closed at most once, and exactly once when the winning `Close` is through |
| `NoiseListener.AfterClose` | pkg/noise/listen.go:107-153 | after `Close`, the result of a handshake in flight can still be dropped and can still be delivered |
| `NoiseListener.NoMorePublishedIff` | pkg/noise/listen.go:84-153 | no continuation publishes anything more if and only if no handshake is in flight and the accept loop has ended or its raw listener is closed |
| `NoiseListener.DeliveredAfterClose` | pkg/noise/listen.go:107-153 | a run in which a handshake that ends after `Close` returned is still delivered |
| `NoiseListener.ErrorSurfacesIff` | pkg/noise/listen.go:84-101 | after the raw listener fails, some continuation hands `Accept` the error if and only if `Close` had not been called |
| `NoiseListener.ErrorQueued` | pkg/noise/listen.go:91-101 | an error surfaces once, queued behind the results before it |
| `NoiseListener.ErrorGivenUp` | pkg/noise/listen.go:91-101 | a failed accept loop ends without surfacing the error only when the stop channel is closed |
| `NoiseListener.PublishBlockedIff` | pkg/noise/listen.go:15-21 | a finished handshake waits exactly while sixteen results are queued |
| `NoiseListener.ClosedIff` | pkg/noise/listen.go:119-153 | results can be dropped and `Accept` be turned away exactly once the stop channel is closed, which comes before the raw close |
| `WatchtowerConfig.Validate` | internal/watchtower/config/config.go:151-171 | whatever the map order: accepts exactly when limits are positive, tokens non-empty and distinct and permissions known; an error names something really wrong, the ban limits first |
| `WatchtowerConfig.KnownPermissionsAre` | internal/watchtower/config/config.go:125-133 | the permissions are rpc, metrics, logs and otlp, and no others |
| `WatchtowerConfig.BuildIndex` | internal/watchtower/auth/auth.go:92-102 | filling the index in any order covers every token and maps each to a validator that has it |
| `WatchtowerConfig.TokenStandsFor` | internal/watchtower/auth/auth.go:92-102 | with distinct tokens, a token maps to v if and only if it is v's |
| `WatchtowerConfig.IndexDeterminism` | internal/watchtower/auth/auth.go:92-102 | the index is independent of the map order if and only if no token is shared |
| `BanTable.RecordInvariant` | internal/watchtower/auth/auth.go:156-233 | in every interleaving of locked sections: threshold reached iff ban set iff it ends one ban duration after the last failure |
| `BanTable.CountHistory` | internal/watchtower/auth/auth.go:156-233 | a record's count is the number of failures since the IP last had no record |
| `BanTable.RecordHistory` | internal/watchtower/auth/auth.go:156-233 | both, together with the time of the last failure |
| `BanTable.SweepBound` | internal/watchtower/auth/auth.go:156-210 | right after any ban check every record left was touched less than two ban durations ago |
| `BanTable.CheckForgetsIff` | internal/watchtower/auth/auth.go:156-210 | for every check and every IP: a banned record is forgotten if and only if its ban has run out and it is the one asked for or a sweep is due, an unbanned one if and only if a sweep is due and its last failure is more than a ban duration ago; all else stays untouched |
| `BanTable.FailuresBan` | internal/watchtower/auth/auth.go:156-225 | in every interleaving, from any state with a sound record or none for the IP: as many of its failures as the threshold, each at most a ban duration after the one before, with no success between, leave it banned for a ban duration from the last, and its next check is refused |
| `BanTable.RefusedExactly` | internal/watchtower/auth/auth.go:156-210 | a check refuses exactly the bans not yet past their expiry, the expiry instant included, whether or not it sweeps first |
| `BanTable.GaugeAgainstChecks` | internal/watchtower/auth/auth.go:156-189 | the gauge counts the refused IPs less those whose ban runs out at this instant, so they agree if and only if there are none |
| `BanTable.BanIntact` | internal/watchtower/auth/auth.go:156-225 | without a success, no interleaving shortens a ban |
| `BanTable.BanLastsIff` | internal/watchtower/auth/auth.go:106-233 | section by section, a ban stays in force until its expiry if and only if no success is recorded for its IP meanwhile |
| `BanRequests.RunSound` | internal/watchtower/auth/auth.go:106-233 | every record stays sound in every run of concurrent requests |
| `BanRequests.BanKept` | internal/watchtower/auth/auth.go:106-233 | with no good request on its way, no arrivals and outcomes shorten a ban |
| `BanRequests.BanFinalIff` | internal/watchtower/auth/auth.go:106-233 | in every run of concurrent requests, a ban is final until its expiry, whatever arrives or finishes meanwhile, if and only if no request from its IP that has passed its check has a known token |
| `BanRequests.BanLost` | internal/watchtower/auth/auth.go:106-154 | for every threshold, a run from the start in which such a request wipes a ban |
| `Auth.Authenticator.constructor` | internal/watchtower/auth/auth.go:63-75 | starts with an empty ban table and an index of the validators |
| `Auth.Authenticator.Reload` | internal/watchtower/auth/auth.go:92-102 | replaces the token index and leaves every ban record untouched |
| `Auth.Authenticator.SweepIfDue` | internal/watchtower/auth/auth.go:195-210 | at most once per ban duration removes exactly expired bans and stale unbanned records |
| `Auth.Authenticator.CheckBan` | internal/watchtower/auth/auth.go:156-173 | refuses as specified, removing the record of a ban that ran out |
| `Auth.Authenticator.CountFailure` | internal/watchtower/auth/auth.go:212-225 | one more failure, now; from the threshold on the ban is set anew |
| `Auth.Authenticator.ClearFailures` | internal/watchtower/auth/auth.go:229-233 | forgets the IP |
| `Auth.Authenticator.Middleware` | internal/watchtower/auth/auth.go:106-154 | verdict and new ban table of a request are those of the atomic request the theorems below are about |
| `Auth.Authenticator.BannedCount` | internal/watchtower/auth/auth.go:178-189 | the loop counts exactly the bans that end strictly later |
| `Auth.BanHolds` | internal/watchtower/auth/auth.go:106-233 | with atomic requests, until its expiry a ban refuses every request from its IP and its record does not change, whatever tokens, other IPs and reloads |
| `Auth.BanEnds` | internal/watchtower/auth/auth.go:106-225 | the first request after the expiry is judged by its token alone, and a bad one counts as the first failure |
| `Auth.BanStarts` | internal/watchtower/auth/auth.go:106-225 | a request sets a ban if and only if its token is unknown and brings the count to the threshold; it then lasts one ban duration |
| `Auth.VerdictIs` | internal/watchtower/auth/auth.go:106-154 | forbidden if and only if the IP is banned up to now, else unauthorized if and only if the token is unknown, else the token's entry |
| `Auth.ServeIsSteps` | internal/watchtower/auth/auth.go:106-154 | an atomic request is a run of locked sections, so the interleaving theorems cover it |
| `Auth.AuthenticatedAs` | internal/watchtower/auth/auth.go:92-154 | after any requests and reloads of accepted configurations, a request not refused authenticates as v if and only if its token is v's in the last one; the empty token never does |
| `DropOldest.HoldsLast` | internal/sentinel/sender/buffer.go:25-38 | any pushes leave exactly the last maxSize items, in order, and drops plus items held account for all of them |
| `DropOldest.Buffer.constructor` | internal/sentinel/sender/buffer.go:14-22 | an empty buffer |
| `DropOldest.Buffer.Push` | internal/sentinel/sender/buffer.go:25-38 | over the backing array and the slice's capacity: drops the oldest exactly when full, appends, and leaves nothing reachable but what is queued |
| `DropOldest.Buffer.Append` | internal/sentinel/sender/buffer.go:37 | `append`, in place while the capacity lasts or into a larger array: the queue grows by the item, nothing else stays reachable |
| `DropOldest.Buffer.Drain` | internal/sentinel/sender/buffer.go:42-52 | hands over all items in order and leaves the queue empty, on the same array; the items stay reachable there if and only if one of them is not the zero value |
| `DropOldest.Buffer.Len` | internal/sentinel/sender/buffer.go:54-58 | the number of items held |
| `Stats.Stats.Record` | internal/sentinel/stats/stats.go:73-80 | adds to the three byte counters of one type, wrapping, and to nothing else |
| `Stats.Stats.RecordDrop` | internal/sentinel/stats/stats.go:85-91 | adds one to both drop counters of one type and reason |
| `Stats.Stats.Snapshot` | internal/sentinel/stats/stats.go:96-112 | copies every entry, resets exactly the per-snapshot counters and answers the uptime |
| `Stats.BytesConserved` | internal/sentinel/stats/stats.go:73-112 | over any run: bytes reported by all snapshots plus those pending equal the total, which is what was recorded, modulo 2^64 |
| `Stats.DropsConserved` | internal/sentinel/stats/stats.go:85-112 | the same for drops of every type and reason |
| `Stats.WireConserved` | internal/sentinel/stats/stats.go:73-80 | over any run the wire counter is what was ever put on the wire, modulo 2^64 |
| `Stats.SnapshotReports` | internal/sentinel/stats/stats.go:96-112 | a snapshot has exactly the types recorded, and for each the absolute counters of bytes, wire bytes and drops and what is pending since the last one |
| `Retry.RequestedWait` | internal/sentinel/sender/sender.go:120-131 | never above 30 seconds, and min(header, 30s) whenever the header's nanoseconds fit an int64 |
| `Retry.WaitHonouredIff` | internal/sentinel/sender/sender.go:120-131 | the wait is min(header, 30s) if and only if the header's nanoseconds fit an int64 or, too large, come out at 30s or more modulo 2^64 |
| `Retry.NoWaitIff` | internal/sentinel/sender/sender.go:120-131 | there is no wait if and only if the nanoseconds, modulo 2^64, are zero or have their top bit set |
| `Retry.RequestedWaitWraps` | internal/sentinel/sender/sender.go:120-131 | witnesses: a header of 585 years is taken as 0.29 seconds, one of 292 years as no wait |
| `Retry.Post` | internal/sentinel/sender/sender.go:105-139 | success exactly on a 2xx status; a wait exactly on 429 with a readable Retry-After, of min(header, 30s) when its nanoseconds fit an int64 |
| `Retry.Run` | internal/sentinel/sender/sender.go:143-182 | at most maxAttempts calls, none after a success; success if and only if the last call succeeded; exactly one gap between calls, of the kind and length the failed call asks for; exhausted only after all attempts; cancelled only inside a gap; a zero wait cannot be cancelled, any other is not outlived by a cancellation; the last failed call is waited for exactly if it asked to |
| `Retry.DelayClosed` | internal/sentinel/sender/sender.go:144-160 | the k-th exponential wait is min(initial * 2^k, 30s) |
| `Retry.DelayBounded` | internal/sentinel/sender/sender.go:144-160 | no exponential wait exceeds 30s if and only if the initial one does not |
| `Retry.WaitBound` | internal/sentinel/sender/sender.go:143-182 | whatever the server asks, n gaps take at most n * 30s |
| `Retry.RunBounded` | internal/sentinel/sender/sender.go:105-182 | the loop against arbitrary answers: at most maxAttempts * 30s in all; success exactly when the last answer was 2xx; after a 429 with a header of 0 to 30 seconds exactly that wait, after any answer without one the exponential wait |
| `DeltaFilter.Delta.Changed` | internal/sentinel/delta/delta.go:20-29 | true exactly when the text differs from the last one under the key; remembers it and touches no other key |
| `RpcCollector.Collector.constructor` | internal/sentinel/rpc/collector.go:54-73 | fresh state; a non-positive refresh interval becomes 12 hours |
| `RpcCollector.Collector.Filter` | internal/sentinel/rpc/collector.go:118-123 | adds an answer to the payload exactly when the filter reports a change |
| `RpcCollector.Collector.Poll` | internal/sentinel/rpc/collector.go:97-126 | polled answers through the filter, unconfirmed transactions always, and the current height |
| `RpcCollector.Collector.DumpConsensus` | internal/sentinel/rpc/collector.go:128-138 | a due and answered dump goes through the filter and restarts its interval |
| `RpcCollector.Collector.VisitHeight` | internal/sentinel/rpc/collector.go:140-159 | at a new height: validators through the filter, the block always |
| `RpcCollector.Collector.RefreshValidators` | internal/sentinel/rpc/collector.go:164-173 | re-emits validators past the filter when due and not already in the payload |
| `RpcCollector.Collector.RefreshGenesis` | internal/sentinel/rpc/collector.go:178-193 | emits the genesis document when never sent or due; a failure only counts |
| `RpcCollector.Collector.Collect` | internal/sentinel/rpc/collector.go:91-215 | a tick is its stages in order; state and payload are those of the specification the run theorems are about |
| `RpcRuns.HeightStep` | internal/sentinel/rpc/collector.go:140-159 | a block is emitted exactly at a new height with an answer; the height never falls |
| `RpcRuns.HeightMonotone` | internal/sentinel/rpc/collector.go:140-142 | over any run the last height never decreases |
| `RpcRuns.BlocksIncrease` | internal/sentinel/rpc/collector.go:140-159 | over any run emitted blocks have strictly increasing heights |
| `RpcRuns.DumpStep` | internal/sentinel/rpc/collector.go:128-138 | a dump interval restarts exactly when a due dump is answered; two restarts are at least the interval apart |
| `RpcRuns.SampleAlways` | internal/sentinel/rpc/collector.go:116-122 | the mempool sample is in every payload it was fetched for, changed or not |
| `RpcRuns.FilteredKeys` | internal/sentinel/rpc/collector.go:109-138 | `status`, `net_info` and a due dump are in the payload if and only if they were answered with a text other than the last |
| `RpcRuns.OtherKeys` | internal/sentinel/rpc/collector.go:175-203 | `rpc_reachable` is 1 if and only if one of the three polls was answered; `genesis` is the document exactly when due and answered, and failures in a row are counted; there are no keys but the nine |
| `RpcRuns.HeightKeys` | internal/sentinel/rpc/collector.go:140-173 | block, validator set and height of a tick, spelled out over status answer, filter and clock |
| `RpcRuns.ValidatorsStep` | internal/sentinel/rpc/collector.go:144-173 | the time of the last validators emission is exactly that of the call whose answer was emitted |
| `RpcRuns.GenesisStep` | internal/sentinel/rpc/collector.go:178-193 | a genesis emission comes at least an interval after the last one and alone moves its time |
| `RpcRuns.GenesisSpacing` | internal/sentinel/rpc/collector.go:178-193 | over any run any two genesis emissions are at least the refresh interval apart |
| `RpcRuns.FreshAfterGoodTick` | internal/sentinel/rpc/collector.go:164-193 | after a tick whose calls all succeed genesis and, once a height is known, validators were sent in this tick or less than their interval ago |
| `RpcRuns.GenesisDeadline` | internal/sentinel/rpc/collector.go:178-193 | over any run, while its calls succeed, the genesis document's age stays below the refresh interval plus one pace, up to and with the tick that sends it again |
| `RpcRuns.ValidatorsDeadline` | internal/sentinel/rpc/collector.go:144-173 | the same for the validator set |
| `RpcRuns.Rebuilt` | internal/sentinel/rpc/collector.go:109-138 | for `status`, `net_info` and `dump_consensus_state`, folding the payloads of any run gives exactly the last answer fetched |
| `RpcRuns.FilterSoundIff` | internal/sentinel/delta/delta.go:20-29 | a receiver is right after every possible next answer if and only if the filter's digest, if any, is that of the value it holds |
| `RpcRuns.ValidatorsTick` | internal/sentinel/rpc/collector.go:140-173 | what one tick emits for validators, by which way, and what that does to digest, height and emission time |
| `RpcRuns.ValidatorsHistory` | internal/sentinel/rpc/collector.go:140-173 | over any run the receiver holds the last re-emission since the last filtered emission, else that one, and the filter the digest of that one |
| `RpcRuns.ValidatorsRebuiltIff` | internal/sentinel/rpc/collector.go:140-173 | over any run the receiver's set is the one fetched last if and only if that was emitted, or there was no re-emission since the last filtered emission, or the last one brought the set the filter remembers |
| `RpcRuns.ForcedEmission` | internal/sentinel/rpc/collector.go:164-173 | after a re-emission the receiver will be right after the next filtered fetch, whatever it brings, if and only if the re-emitted set is the one the filter remembers, if any |
| `RpcRuns.ValidatorsDrift` | internal/sentinel/rpc/collector.go:140-173 | a run from the start, for any two sets, that leaves the receiver with a set the node no longer has |
| `Pipeline.Path.Wire` | internal/sentinel/app/run.go:53-67 | pushes into the buffer and counts a drop, under the wiring name, exactly when it was full |
| `Pipeline.Path.Flush` | internal/sentinel/app/run.go:287-349 | drains everything, sends in order, counts bytes and exhausted retries under the flush name, stops at cancellation |
| `Pipeline.FlushDelivers` | internal/sentinel/app/run.go:287-349 | a flush delivers what can be delivered up to the first item whose send is cut off, nothing after, and ends early exactly if there is one |
| `PipelineRuns.Conservation` | internal/sentinel/app/run.go:53-67 | in every interleaving each payload taken from the channel is sent, dropped for one of four reasons, being sent or buffered: exactly one |
| `PipelineRuns.SentInOrder` | internal/sentinel/app/run.go:287-306 | deliveries follow production order, and without losses are the first payloads produced |
| `PipelineRuns.DropsUnderOneName` | internal/sentinel/app/run.go:53-67 | the drops counted under the flush name are all of them if and only if both goroutines use one name or nothing overflowed |
| `PipelineRuns.BytesCounted` | internal/sentinel/app/run.go:287-349 | over any run the byte and wire counters of the flush name grow by the payloads delivered, modulo 2^64 |
| `PipelineRuns.FlushIsRun` | internal/sentinel/app/run.go:287-349 | a flush call is such a run and leaves what the method's contract says |
| `Delivery.ReceiverExact` | internal/sentinel/app/run.go:287-306 | in every interleaving without losses, at every moment, the receiver holds for delta-only keys the last answer within the ticks it has received |
| `Delivery.AfterCompleteFlush` | internal/sentinel/app/run.go:287-306 | after a complete flush that is the last answer ever fetched |
| `Delivery.ExactDespiteLossIff` | internal/sentinel/app/run.go:287-306 | whatever was lost, at every moment the receiver holds the last answer ever fetched for such a key if and only if the last payload that carried the key was delivered, or the last delivered one carried the same, or none ever did |
| `Delivery.LostForGood` | internal/sentinel/delta/delta.go:20-29 | while the node keeps answering the same, a lost value is never sent again |
| `LogCollector.LineBalanced` | internal/sentinel/logs/collector.go:104-109 | taking a line keeps, for every level, flushed plus held equal to the accepted lines in order |
| `LogCollector.EmptiedBalanced` | internal/sentinel/logs/collector.go:81-94 | so does a complete flush, whatever order it visits the levels in |
| `LogCollector.MinimumKeeps` | pkg/logger/logger.go:95-108 | which levels each minimum keeps; an unknown name stands for info |
| `LogCollector.Collector.constructor` | internal/sentinel/logs/collector.go:77-79 | starts empty, below the threshold |
| `LogCollector.Collector.SendLevels` | internal/sentinel/logs/collector.go:81-92 | the loop emits, in any order, the whole batches of the levels before the first refused send |
| `LogCollector.Collector.Flush` | internal/sentinel/logs/collector.go:81-94 | complete: everything held is emitted and reset; interrupted: the batch stays and exactly the levels reached are emitted, whole; no payload is empty |
| `LogCollector.Collector.OnLine` | internal/sentinel/logs/collector.go:103-114 | a line below the minimum changes nothing; the batch is flushed exactly when the wrapping byte sum reaches the threshold; before and after cancellation the history stays right |
| `LogCollector.Collector.Accumulate` | internal/sentinel/logs/collector.go:108-109 | the byte sum stays the sum over all held lines, modulo 2^64 |
| `LogCollector.Collector.OnTimer` | internal/sentinel/logs/collector.go:115-116 | completes if and only if none of its sends is refused; then nothing is held, else the batch stays |
| `LogCollector.Collector.Handle` | internal/sentinel/logs/collector.go:98-117 | one event: with no flush cut, byte sum and number of flushes are those due |
| `LogCollector.Collector.Run` | internal/sentinel/logs/collector.go:56-118 | any lines and ticks before and after cancellation, and the last flush: every line is emitted once for each flush that reached it while held; with no flush cut, flushed plus held lines are, per level, the accepted ones in order, and the byte sum is below a positive threshold at every loop head; with none cut there is a flush at every tick and whenever the sum reaches the threshold, no other, and after the last one nothing is held |
| `LogCollector.ReachesSplit` | internal/sentinel/logs/collector.go:81-117 | the flushes that reached a line are the cut ones and at most one complete one |
| `LogCollector.AfterCancellation` | internal/sentinel/logs/collector.go:81-117 | a line has gone out exactly once if and only if no cut flush reached it before a complete one or, with none complete since it came, exactly one cut flush did |
| `LogCollector.LineSentTwice` | internal/sentinel/logs/collector.go:81-117 | a run of the collector in which a line goes out twice |
| `LokiPush.StripBodyFields` | internal/watchtower/forwarder/forwarder.go:285-298 | deletes the given keys of an object, passes anything else through |
| `LokiPush.StripKeepsOthers` | internal/watchtower/forwarder/forwarder.go:285-298 | no other field is touched, and stripping twice is stripping once |
| `LokiPush.SortByNano` | internal/watchtower/forwarder/forwarder.go:223 | an ascending permutation |
| `LokiPush.ToLokiPush` | internal/watchtower/forwarder/forwarder.go:200-242 | however skewed the stamps: a permutation of the processed lines, ascending, inside the accepted window, in one stream if and only if the batch is non-empty |
| `LokiPush.InWindow` | internal/watchtower/forwarder/forwarder.go:179-212 | a stamp within 168 hours back and 10 minutes ahead is kept; any other, or none, becomes the time of the push |
| `LokiPush.EntryOf` | internal/watchtower/forwarder/forwarder.go:209-215 | for every line and time of push: the entry's stamp is the line's if inside the window, else the push's, in wrapping Unix nanoseconds; its module is the line's, or "unknown" for none; its body lacks `ts` and `level` and nothing else |
| `LokiPush.EpochIs` | internal/watchtower/forwarder/forwarder.go:215 | entry stamps count from 1970, 719162 days after the zero time |
| `ByteSize.ParseInt` | internal/sentinel/config/config.go:47-72 | whatever is accepted is an int64 |
| `ByteSize.ParseFormat` | internal/sentinel/config/config.go:47-86 | decimal printing is undone by parsing, for every int64 |
| `ByteSize.UnmarshalText` | internal/sentinel/config/config.go:47-72 | the suffix loop reads the number before the one suffix that fits, times its unit, wrapping |
| `ByteSize.OutsideAsciiRefused` | internal/sentinel/config/config.go:47-72 | text with anything outside ASCII left after trimming white space is refused |
| `ByteSize.RoundTrip` | internal/sentinel/config/config.go:47-86 | for every int64 what was marshalled is read back exactly, with no overflow |
| `ByteSize.ReadExactIff` | internal/sentinel/config/config.go:47-72 | reading is exact if and only if number times unit fits an int64 |
| `ByteSize.UnitsMean` | internal/sentinel/config/config.go:47-72 | any int64 before KB, MB or GB means that many times 2^10, 2^20 or 2^30 bytes, wrapped |
| `ByteSize.UnitWritten` | internal/sentinel/config/config.go:74-86 | a positive value is written in the largest unit that divides it, any other in bytes |
| `ByteSize.BlanksAndCase` | internal/sentinel/config/config.go:48 | blanks around a text and lower case make no difference |
| `ByteSize.Decimal` | internal/sentinel/config/config.go:74-86 | numbers are decimal |
| `ByteSize.Unsigned` | internal/sentinel/config/config.go:47-72 | text without a sign is a number if and only if it is digits, at least one, that an int64 can hold |
| `ByteSize.Signed` | internal/sentinel/config/config.go:47-72 | and so with a sign in front, down to the least int64 |
| `ByteSize.ReadWraps` | internal/sentinel/config/config.go:47-72 | 2^53 kilobytes are read as a negative size |

## Left out

- Cryptography: the AEAD is any pair of functions that adds 16 bytes and opens what it sealed; Diffie-Hellman and the handshake hash are replaced by the transcript; secrecy and forgery are not modelled.
- SHA-256 in the change filter is a symbolic digest: distinct texts have distinct digests, none all-zero.
- zstd, gzip, JSON, TOML and protobuf text: payloads are maps, a log line carries what it would parse to, the height is any function of the status answer.
- HTTP servers and clients, Docker, journald, file watching, shell commands; their answers are parameters.
- Real timers and scheduling: clocks are explicit nondecreasing readings, interleavings are arbitrary; mutexes appear as atomic steps.
- The token bucket of the rate limiter, metric extractors, `doctor`, `detect`, `generate` and the command lines: flat mappings or foreign arithmetic.
- The OTLP path, the tickers and goroutine wiring of the sentinel's `Run` beyond the buffered paths.
- The other scalar checks of the watchtower configuration (URLs, rate limits, log levels).
- The detection of four errors, which BIP-173 promises within 89 symbols: key strings have 94 after the separator; bursts of six and any three errors are what is proved.
- Bech32.HrpExpand: strings that are not valid UTF-8.
- ConvertBits.Convert: the or with the shifted accumulator is an addition, their bits being disjoint.
- NoiseRuns.NothingLost: the runs assume a raw connection whose writes succeed; the method `Conn.Write` also covers one that fails. What a reader makes of a stream it has spoilt depends on authenticity, which is not modelled.
- Handshake.CompleteRun: in the two-party runs a raw connection fails only when its other end has; timeouts are covered by the one-sided loop.
- BanTable.RecordHistory: the failure count is unbounded, where the source's int would wrap; the clock is read once per locked section.
- BanRequests.BanFinalIff: whether a token is known is fixed per request; a reload between check and lookup is not modelled there.
- BanTable.SweepBound: stated for ban durations below the largest int64, where subtraction of instants saturates.
- Auth.Authenticator.Middleware: one call is atomic here; the interleaved case is covered by the theorems over locked sections.
- DropOldest.Buffer.Append: the size Go gives a regrown array is not fixed by the language; one of the possible growths is used.
- Retry.Run: the error values are reduced to which of the three outcomes occurred; a call of `fn` that itself fails by cancellation is an ordinary failure.
- RpcCollector.Collector.Collect: a payload whose send is cut by cancellation is the caller's to drop.
- RpcRuns.FreshAfterGoodTick: ages are measured at the instants the tick tests them, not at its end.
- Pipeline.Path.Flush: the result of sending a payload, retries included, is a parameter of the flush.
- Delivery.ExactDespiteLossIff: delivered means acknowledged; a payload the watchtower handled while the sentinel timed out counts as lost.
- LogCollector.Collector.Run: reconnecting to the log source.
- LokiPush.ToLokiPush: the window is stated for push times whose window fits Unix nanoseconds in an int64; the library sort is represented by an insertion sort with the same contract, equal stamps in any order.
- ByteSize.UnmarshalText: returns the value instead of writing through its receiver.
