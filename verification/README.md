# Verification of the protocol, buffer and codec core

This project models the parts of the remote-desktop client and service that carry real
state: the wire framing and its counted encryption, the key handshake, the registration
loop and its rounds, the playback buffer, the licence hidden in a file name, key tracking,
password provenance, the frame hand-off to the UI, and a few smaller codecs and loops. It
states what they promise over all inputs, all runs and all interleavings, and proves it.

How it is laid out, one component a module:

| files | component |
|---|---|
| `Common` | options and bytes |
| `Base64Url`, `LicenceJson`, `Text`, `FileName`, `FileNameProofs`, `HostForm` | the licence in the executable's name: printer, parser and their round trips |
| `Framing`, `BytesCodec`, `SecureStream` | length-prefixed frames, the codec object, counted encryption |
| `Ring`, `Playback`, `PlaybackProofs`, `PlaybackFrames`, `PlaybackClock` | the playback jitter buffer |
| `Registration`, `RegistrationProofs`, `Rounds` | registration with a rendezvous server, and the rounds of mediators |
| `Handshake` | the two-party key handshake |
| `Keyboard`, `KeyboardProofs`, `KeyboardThreads` | pressed keys, sent events, release of everything, also between two threads |
| `LoginPassword`, `LoginPasswordProofs` | which password is used and which is remembered |
| `FrameSlot` | single-slot frame hand-off |
| `Punch`, `Clipboard`, `Subscriptions`, `Online` | packet pacing, clipboard wire codec, service subscriptions, online bitmap |

Code that updates objects in place is a class whose methods are proved against functions
on values; the theorems over runs are about those functions. Threads and message
exchanges are state machines whose steps are the atomic actions of the code.

Where the code does not do what one would expect, the lemmas named here say exactly when
it does, and give an input for which it does not:

- The name that naming.rs prints (prefix `rustdesk-custom_serverd-`) is not read back by
  the parser, which knows only the `-licensed-` markers and `--`
  (`FileNameProofs.PrintedNameNotParsed`).
- The `host=` form returns the given values exactly when none contains a comma
  (`HostForm.HostFormExact`).
- The comment that the playback buffer is never thinned below 600 ms holds of a histogram
  exactly when nothing is dropped, or the fullest bucket of levels is at 800 ms or more and
  no level was below 300 ms, with a correction where rounding matters; for rates of at least 54 samples a
  second (`PlaybackProofs.SixHundredMillis`, `PlaybackProofs.ThinnedBelow600`).
- The playback buffer never cuts a frame apart exactly in the formats with at most two
  channels or a sample rate that is a multiple of 40, of 80 for an odd number of channels
  (`PlaybackFrames.NeverCutsFramesExactly`, `PlaybackFrames.SurroundSlips`).
- An announced frame can always be fetched, and the bytes being read stay in the slot,
  exactly when one window at most shows the display and nobody but its UI and the video
  thread frees the slot (`FrameSlot.AlwaysFetchedExactly`, `FrameSlot.AlwaysHoldsExactly`;
  `FrameSlot.ResetBeforeFetch`, `FrameSlot.ReadInVideosHands` for a switch of displays).
- Pressed keys stay in step, and a release leaves nothing held, exactly when no key is
  pressed while a release is under way (`KeyboardThreads.ModifiersInStepExactly`,
  `KeyboardThreads.ReleasesAllExactly`, `KeyboardThreads.PressLost`).
- A client that knows the key of a server that does not sign takes the first message of
  its traffic for the answer of the handshake (`Handshake.NoTrafficLostExactly`).
- A punch sends at most 104 packets exactly when what the first sleep gains by ending
  early, and what the last check of the limit misses, are less than 12 ms together: always
  so with sleeps that do not end early (`Punch.AtMost104`, `Punch.Sends105`).
- Connection ids repeat after 2^32 calls (`Subscriptions.IdsAreUnique`).
- A restart between reading the server list and clearing SHOULD_EXIT is lost
  (`Rounds.RestartCanBeLost`, `Rounds.RoundUpToDate`); while the service is stopped the
  manual flag is never cleared (`Rounds.StoppedLoopStaysManual`).
- A response slower than a second does not lift the mark that a host is gone
  (`RegistrationProofs.ComesBack`, `RegistrationProofs.SlowResponseKeepsMark`).
- A shared password is remembered after all when the peer's salt changed or a switch of
  sides dropped its mark (`LoginPasswordProofs.SavedExactly`, `LoginPasswordProofs.NewSaltSaves`,
  `LoginPasswordProofs.SwitchSaves`).
- Special clipboard data that compression does not shorten is replaced by the bytes of its
  name, and failing compression loses data (`Clipboard.ListRoundTrip`,
  `Clipboard.SpecialLosesData`).

What is not shown in the repository enters as parameters with stated laws: serde's reader
and the signature check (`FileName.Lawful`), secretbox (`SecureStream.Lawful`), UTF-8
conversion (`Clipboard.Lawful`), the digest (`LoginPassword.Proper`). Clocks, random
values and the surroundings of a step are arguments. A host's status is what the loop of
its server published last; the test of all servers also writes latencies and is left out. Signatures and boxes of the handshake
are symbolic terms.

## Model

| member | source | states |
|---|---|---|
| Base64Url.DecodeInvertsEncode | myrd/src/custom_server.rs:28 | the strict unpadded decoder accepts a text for some bytes exactly when it is their encoding (section 5 of RFC 4648) |
| Base64Url.TextRoundTrip | myrd/src/naming.rs:6 | the same at the level of characters |
| Base64Url.SameBits | myrd/src/naming.rs:6 | each three bytes are the same 24 bits as their four sextets, highest first, zero bits filling up |
| Base64Url.Alphabet | myrd/src/naming.rs:6 | the url-safe alphabet |
| Base64Url.DashPlaces | myrd/src/naming.rs:6 | in the encoding of ASCII bytes the sextet of `-` occurs only at positions 3 mod 4 |
| Base64Url.TextExtended | myrd/src/custom_server.rs:28 | an encoding with further characters behind it decodes, if at all, to the bytes and at least one more |
| LicenceJson.NothingBehindRecord | myrd/src/custom_server.rs:29 | no continuation of a record's text is a record's text |
| LicenceJson.ReadPrinted | myrd/src/naming.rs:6 | the compact JSON text of a record with ASCII fields reads back to it, escapes included |
| LicenceJson.PrintedIsJson | myrd/src/custom_server.rs:10-19 | the bytes printed are those of the JSON text, with the field names as literals, in order |
| Text.JoinSplit | myrd/src/custom_server.rs:93 | splitting loses nothing: joining the pieces gives the string back |
| Text.SplitJoin | myrd/src/custom_server.rs:61 | and splitting what was joined gives the pieces back |
| Text.TrimMeaning | myrd/src/custom_server.rs:95 | trimming takes all blanks at both ends and nothing else |
| Text.IndexOfMeaning | myrd/src/custom_server.rs:60 | the index found is that of the first match, and none is found only when there is none |
| FileName.GetCustomServerFromString | myrd/src/custom_server.rs:39-108 | the parser with its loops and early returns computes `ParseName` |
| FileName.ReadTokens | myrd/src/custom_server.rs:62-87 | the token loop keeps, for each tag, the value of the last token that carries it |
| HostForm.TokensMeaning | myrd/src/custom_server.rs:62-87 | for every list of tokens each field is what stands behind the last token that carries its tag in any letter case, and empty when none does |
| FileName.ReadFragments | myrd/src/custom_server.rs:94-105 | the fragment loop returns the licence of the first fragment, or bracket part of one, that holds one |
| FileNameProofs.FragmentsMeaning | myrd/src/custom_server.rs:94-105 | for every list of fragments: the first candidate that holds a licence wins, the candidates being each fragment as a whole and then its parts between brackets |
| FileNameProofs.LawsCanBeMet | myrd/src/custom_server.rs:28-36 | the laws asked of serde and the signature check are consistent |
| FileNameProofs.GenNameIsPayload | myrd/src/naming.rs:5-8 | a generated name has dashes only multiples of four apart, does not begin with one, and ends in `ye` |
| FileNameProofs.PayloadHidesMarker | myrd/src/custom_server.rs:89-93 | no `--` and no licence marker begins inside a generated name, whatever follows it |
| FileNameProofs.NameRoundTrip | myrd/src/custom_server.rs:88-105 | for every ASCII licence, every infix the parser knows, every tail that cuts cleanly and every extension, parsing the name returns the licence |
| FileNameProofs.DownloadRoundTrip | myrd/src/custom_server.rs:88-105 | in particular for a plain download |
| FileNameProofs.CopyRoundTrip | myrd/src/custom_server.rs:97-104 | and for a copy the system marked with blanks and a bracket, such as ` (1)` or ` (1) (2)` |
| FileNameProofs.PrintedNameNotParsed | myrd/src/naming.rs:21 | the name printed with the program's own prefix is parsed if and only if its decoded bytes carry a valid signature over a record |
| HostForm.HostFormExact | myrd/src/custom_server.rs:59-87 | a name that lists the four values parses to them if and only if no value contains a comma |
| HostForm.ListedTokens | myrd/src/custom_server.rs:59-87 | a name that lists tokens in any order and letter case, with or without a closing comma, parses to what they say |
| HostForm.HostAlone | myrd/src/custom_server.rs:115-139 | in particular for a host alone |
| Framing.HeadRoundTrip | myrd/libs/hbb_common/src/bytes_codec.rs:40-66 | a head tells its own length and the length it announces, whatever follows |
| Framing.HeadFormat | myrd/libs/hbb_common/src/bytes_codec.rs:113-134 | the bytes of a head: four times the length plus the number of further bytes, lowest first, as short as can be; for lengths below 2^30 exactly |
| Framing.TooBigRefused | myrd/libs/hbb_common/src/bytes_codec.rs:59-61 | a head that announces more than the limit ends the reading |
| Framing.ItemsFit | myrd/libs/hbb_common/src/bytes_codec.rs:80-107 | nothing longer than the limit is delivered |
| Framing.DrainSplit | myrd/libs/hbb_common/src/bytes_codec.rs:80-107 | decoding a buffer in two instalments is decoding it at once |
| Framing.ChunkingIrrelevant | myrd/libs/hbb_common/src/bytes_codec.rs:80-107 | for every byte stream, what is delivered depends on the bytes and not on how they were cut into chunks, errors included |
| Framing.FramesSurviveChunking | myrd/libs/hbb_common/src/bytes_codec.rs:113-134 | for every list of messages and every cutting of its frames, exactly the list is delivered and nothing is left over |
| BytesCodec.Codec.DecodeHead | myrd/libs/hbb_common/src/bytes_codec.rs:40-66 | the head decoder waits, refuses or consumes exactly the head |
| BytesCodec.Codec.Decode | myrd/libs/hbb_common/src/bytes_codec.rs:80-107 | one call takes one item off what draining the buffer yields, or leaves it drained |
| BytesCodec.Codec.Feed | myrd/libs/hbb_common/src/bytes_codec.rs:80-107 | a chunk yields what draining the buffer with the chunk yields |
| BytesCodec.Codec.Encode | myrd/libs/hbb_common/src/bytes_codec.rs:113-134 | the encoder writes a frame, or refuses what no head can announce |
| SecureStream.LawsCanBeMet | myrd/libs/hbb_common/src/tcp.rs:301-321 | the laws asked of the box are consistent |
| SecureStream.Encrypt.Enc | myrd/libs/hbb_common/src/tcp.rs:317-321 | a message is sealed under the counter after the last one used |
| SecureStream.Encrypt.Dec | myrd/libs/hbb_common/src/tcp.rs:301-315 | opening uses the next counter and leaves frames of at most one byte alone |
| SecureStream.InStep | myrd/libs/hbb_common/src/tcp.rs:158-189 | while only frames of at most one byte go in the clear, the two counters stay in step and every message is received |
| SecureStream.SecureDelivery | myrd/libs/hbb_common/src/tcp.rs:158-189 | from the sender's calls through any chunking to the receiver: the messages arrive, in order, if and only if no clear frame is longer than one byte |
| Ring.RingBuffer.PushSliceOverwrite | myrd/src/client.rs:1330 | appending keeps the last samples that fit |
| Ring.RingBuffer.PopSlice | myrd/src/client.rs:1542-1545 | reading takes samples off the front in order |
| Playback.ModeMeaning | myrd/src/client.rs:1278-1291 | the mode of the histogram is the lowest of the fullest buckets from 1 up, or 0 when these are empty |
| Playback.ScanBuckets | myrd/src/client.rs:1276-1298 | the single clearing pass finds the length of the empty prefix and the mode of the original counters and leaves all counters zero |
| Playback.AudioBuffer.constructor | myrd/src/client.rs:1228-1240 | the first buffer holds three seconds of stereo at 48000 Hz, empty, with no level counted |
| Playback.AudioBuffer.Resize | myrd/src/client.rs:1243-1251 | capacity stays three times the rate; what is buffered is dropped only when it changes, the counters never |
| Playback.AudioBuffer.AppendPcm2 | myrd/src/client.rs:1318-1332 | after an append the ring holds the last samples pushed that fit, and their number is returned |
| Playback.AudioBuffer.TryShrink | myrd/src/client.rs:1253-1313 | the level is counted; when twelve seconds have passed since any buffer's last evaluation the histogram is evaluated, cleared, and what it says is dropped |
| Playback.AudioBuffer.AppendPcm | myrd/src/client.rs:1337-1340 | an append followed by its evaluation is a step of the append and one of the thinning in the model of runs |
| Playback.AudioBuffer.Play | myrd/src/client.rs:1513-1554 | the callback gets the oldest samples, padded with silence |
| PlaybackProofs.PlayedInOrder | myrd/src/client.rs:1243-1340 | over every run of format changes, appends, evaluations and reads the ring holds the samples pushed last, and played samples are in push order without repetition |
| PlaybackProofs.ShrinkIsSmall | myrd/src/client.rs:1305-1311 | a shrink drops an even number, less than a third of what is buffered |
| PlaybackProofs.RunIsFaithful | myrd/src/client.rs:1257-1298 | over every run the counters are the histogram of the levels appended since the last evaluation |
| PlaybackClock.CountersMeaning | myrd/src/client.rs:1257-1261 | each counter says how many levels since the last evaluation lay in its tenth of a second, the last one open-ended |
| PlaybackClock.EvaluatesExactly | myrd/src/client.rs:1263-1274 | over every run an append begins an evaluation if and only if it comes twelve seconds or more after the last one of any buffer, or after the first reading of the clock, the times being read off the actions |
| PlaybackClock.EvaluationsApart | myrd/src/client.rs:1263-1274 | two evaluations are at least twelve seconds apart |
| PlaybackClock.NextEvaluation | myrd/src/client.rs:1263-1274 | and the first reading of the clock twelve seconds after one begins the next |
| PlaybackClock.DropExactly | myrd/src/client.rs:1276-1311 | how much an evaluation drops, told by the histogram alone: an even number nearest to a fortieth of the water mark's seconds, and nothing below mark 6 or below three times as much |
| PlaybackProofs.ShrinkLeavesReserve | myrd/src/client.rs:1276-1311 | in every reachable state in which an evaluation drops something, the fullest bucket of the levels since the last one is at 600 ms or more, no level was below 200 ms, and what goes takes, but for a rounding sample, at most two thirds of the time of each of these levels |
| PlaybackFrames.StereoNeverSlips | myrd/src/client.rs:1305-1332 | over every run of even appends and even reads, through all changes of the rate, an even number of samples has left the front |
| PlaybackFrames.ShrinkKeepsFrames | myrd/src/client.rs:1305-1310 | a shrink drops whole frames, whatever histogram and level, if and only if there are at most two channels or the sample rate is a multiple of 40, of 80 for an odd number of channels |
| PlaybackFrames.NeverCutsFramesExactly | myrd/src/client.rs:1243-1340 | over all runs of whole frames in one format the front is always between frames, if and only if the format is of that kind |
| PlaybackFrames.SurroundSlips | myrd/src/client.rs:1305-1310 | a run with six channels at 44100 Hz that cuts a frame |
| PlaybackProofs.ClampMeansFull | myrd/src/client.rs:1257-1260 | the clamp to the last bucket acts if and only if the buffer is full |
| PlaybackProofs.SixHundredMillis | myrd/src/client.rs:1294-1311 | for each histogram, nothing is ever dropped below 600 ms if and only if nothing is dropped, or the mode is at least 8 and the empty prefix at least 3, up to rounding at mark 8; rates of at least 54 |
| PlaybackProofs.ThinnedBelow600 | myrd/src/client.rs:1294-1311 | a run that drops samples at 562 ms |
| Registration.Mediator.UpdateLatency | myrd/src/rendezvous_mediator.rs:181-207 | the response closure computes `Resp` |
| Registration.Mediator.OnTick | myrd/src/rendezvous_mediator.rs:224-262 | the tick branch computes `Tick` and registers exactly when it should |
| RegistrationProofs.Reachable | myrd/src/rendezvous_mediator.rs:179-262 | in every reachable state four failures mean that this loop last published status -1, two or three mean 0, the remembered latency is the published one or a failure's, and the timeout is a multiple of 3000 in [3000, 30000] and at most 3000 times one more than the failures |
| RegistrationProofs.ComesBack | myrd/src/rendezvous_mediator.rs:185-207 | a gone host's status changes at a response if and only if its sample is at most a second |
| RegistrationProofs.SlowResponseKeepsMark | myrd/src/rendezvous_mediator.rs:185-207 | a run with a response a microsecond too slow, which leaves the host gone, and the same a microsecond earlier |
| RegistrationProofs.PublishedTracksAverage | myrd/src/rendezvous_mediator.rs:193-206 | after every accepted response the published latency is within a fifth, or 3 ms, of the average |
| RegistrationProofs.QuietWithinBand | myrd/src/rendezvous_mediator.rs:199-206 | the status changes if and only if the average leaves that band around it, and then to the average |
| RegistrationProofs.RegistersEveryInterval | myrd/src/rendezvous_mediator.rs:229-239 | after a response no tick registers for fifteen seconds, and the first tick after them does |
| RegistrationProofs.AverageRemembers | myrd/src/rendezvous_mediator.rs:185-198 | in whatever state an accepted sample moves the average by a thirtieth of the way, less at most two microseconds; an average of zero takes the sample |
| RegistrationProofs.ResponseResets | myrd/src/rendezvous_mediator.rs:185-192 | any response ends the wait, the failures and the back-off |
| RegistrationProofs.TickMeaning | myrd/src/rendezvous_mediator.rs:224-262 | in whatever state: when a tick registers, when that is a failure, and when the timeout grows |
| RegistrationProofs.LookupMeaning | myrd/src/rendezvous_mediator.rs:245-253 | the address is looked up anew if and only if a fourth or later failure comes more than a minute after the last time |
| RegistrationProofs.BackoffBound | myrd/src/rendezvous_mediator.rs:227-259 | on a public server the timeout in silence is exactly the back-off step, and the k-th failure comes no sooner than the sum of the first k timeouts |
| RegistrationProofs.GoneAfterThirtySeconds | myrd/src/rendezvous_mediator.rs:240-244 | so status -1 comes no sooner than thirty seconds after the first unanswered registration |
| RegistrationProofs.BoundIsReached | myrd/src/rendezvous_mediator.rs:227-259 | the bound is attained |
| RegistrationProofs.FailuresAreSlow | myrd/src/rendezvous_mediator.rs:229-259 | on any server each failure takes at least three seconds |
| RegistrationProofs.AverageStaysInBand | myrd/src/rendezvous_mediator.rs:193-198 | with all accepted samples in [lo, hi] and lo at least 30, a started integer average stays in [lo - 29, hi] for ever |
| RegistrationProofs.AverageSettles | myrd/src/rendezvous_mediator.rs:196 | under a constant latency the average sinks to its whole thirtieths and stays there |
| Rounds.ClearedOnlyWhenAlone | myrd/src/rendezvous_mediator.rs:104-128 | SHOULD_EXIT is cleared only when no mediator runs or is about to store |
| Rounds.ExitFlagMeaning | myrd/src/rendezvous_mediator.rs:53-57 | after the clear the flag is up if and only if a mediator has ended or a restart was called since |
| Rounds.LeavesAtNextTick | myrd/src/rendezvous_mediator.rs:224-227 | once it is up, a mediator that ticks no longer runs, whatever else happens |
| Rounds.NextRoundWaits | myrd/src/rendezvous_mediator.rs:124-128 | a new round begins only after every mediator has ended and stored |
| Rounds.ManualFlagMeaning | myrd/src/rendezvous_mediator.rs:105-140 | after its clear the manual flag is up if and only if a restart has finished since |
| Rounds.StoppedLoopStaysManual | myrd/src/rendezvous_mediator.rs:129-140 | while the service is stopped the flag stays up |
| Rounds.RoundUpToDate | myrd/src/rendezvous_mediator.rs:103-105 | a round keeps to the current server list throughout, unless the list changed between its reading and the clear and as many callers as had changed it called restart in that time; if and only if |
| Rounds.StaysStale | myrd/src/rendezvous_mediator.rs:103-128 | in that case it serves the old list until a mediator ends, a restart is called or the list changes once more |
| Rounds.RestartCanBeLost | myrd/src/rendezvous_mediator.rs:103-105 | a schedule that loses a restart |
| Handshake.Agreement | myrd/src/client.rs:784-860 | in every run, when both ends have finished they hold the same key or none |
| Handshake.KeyedExactlyWhen | myrd/src/client.rs:790-836 | a finished client is keyed if and only if the server signs, with the key vouched for, the id asked for |
| Handshake.ClientOutcome | myrd/src/client.rs:809-847 | whatever the other end sends: what keys a client, what it answers and for whom it seals its key |
| Handshake.ServerOutcome | myrd/src/server.rs:197-229 | whatever the other end sends: what keys a server, what makes it give up and what costs it its confirmation |
| Handshake.ConfirmationDropped | myrd/src/server.rs:212-214 | the server drops the confirmation of its key if and only if it finishes against a client that knows another key for it |
| Handshake.NeverRefused | myrd/src/server.rs:197-229 | between two honest ends the server fails only by giving up |
| Handshake.NoTrafficLostExactly | myrd/src/client.rs:809-847 | no end takes later traffic for a message of the handshake, over all runs if and only if the client knows no key of the peer or the server signs |
| Keyboard.Tracker.IsLongPress | myrd/src/keyboard.rs:363-376 | a press is repeated when its modifier is marked |
| Keyboard.Tracker.ProcessEvent | myrd/src/keyboard.rs:107-116 | one event updates both maps and sends at most one message |
| KeyboardProofs.SentExactly | myrd/src/keyboard.rs:107-116 | over every sequence of events that no release interrupts, exactly one message for each whose key has a code is sent, in order, but for a modifier pressed again without a release; tracked are the keys whose last event is a press |
| Keyboard.Tracker.EventToKeyEvents | myrd/src/keyboard.rs:578-612 | the maps' part of it |
| Keyboard.Tracker.ReleaseRemoteKeys | myrd/src/keyboard.rs:378-394 | uninterrupted, the release goes over every tracked key once, in an arbitrary order |
| KeyboardThreads.ModifiersInStepExactly | myrd/src/keyboard.rs:363-394 | between the hook's thread and the releasing one, lock by lock: whenever both rest a modifier is marked if and only if it is tracked, over all runs if and only if no press overlaps a release |
| KeyboardThreads.PeerInStepExactly | myrd/src/keyboard.rs:578-612 | at rest the peer holds down exactly the codes of the tracked keys, over all runs if and only if no two keys share a code and no press overlaps a release, or no key has a code |
| KeyboardThreads.ReleasesAllExactly | myrd/src/keyboard.rs:378-394 | a release ends with nothing tracked, marked or held down, in every order and interleaving, if and only if no press overlaps it |
| KeyboardThreads.PressLost | myrd/src/keyboard.rs:380-381 | a press between the snapshot and the clear, which is lost |
| KeyboardThreads.StagesAreProcess | myrd/src/keyboard.rs:107-116 | an event's stages without a break are one step of the sequential model |
| KeyboardThreads.SharedCode | myrd/src/keyboard.rs:891-958 | two keys with one code break it |
| KeyboardProofs.ReleaseClearsAll | myrd/src/keyboard.rs:378-394 | whatever the order, a release that nothing interrupts ends with no key tracked, no modifier marked and nothing held down |
| KeyboardProofs.ReleaseSends | myrd/src/keyboard.rs:382-393 | and sends one release a key, with one more press and release for Alt and AltGr |
| KeyboardThreads.UninterruptedRelease | myrd/src/keyboard.rs:378-394 | lock by lock it is the same release |
| KeyboardThreads.NoModifierPressedTwice | myrd/src/keyboard.rs:363-394 | no press of a modifier is sent while the peer holds its code, over all runs if and only if no other key has the code and no press overlaps a release |
| KeyboardThreads.PressedBeforeUp | myrd/src/keyboard.rs:363-394 | a press during a release that is sent twice |
| LoginPassword.LoginConfigHandler.HandleHash | myrd/src/client.rs:3386-3489 | the order in which password candidates are taken, with their source |
| LoginPassword.LoginConfigHandler.TryGiven | myrd/src/client.rs:3408-3430 | last, preset and shared password |
| LoginPassword.LoginConfigHandler.TryStored | myrd/src/client.rs:3431-3441 | configured and address-book password |
| LoginPassword.LoginConfigHandler.HandleLoginFromUi | myrd/src/client.rs:3552-3585 | a typed password, or the one in use |
| LoginPassword.LoginConfigHandler.HandleLoginError | myrd/src/client.rs:3332-3344 | a password error clears the password |
| LoginPassword.LoginConfigHandler.HandlePeerInfo | myrd/src/client.rs:2533-2556 | what an accepted login writes to the configuration |
| LoginPasswordProofs.Precedence | myrd/src/client.rs:3407-3455 | a shared password answers the hash if there is one, else the first non-empty of the last, the preset, the configured, the address book's and the built-in password |
| LoginPasswordProofs.TypedIsAnswered | myrd/src/client.rs:3569-3583 | after every history a typed password is digested with the last hash's salt, and, accepted, remembered if and only if the user chose so |
| LoginPasswordProofs.UntypedIsAnswered | myrd/src/client.rs:3560-3568 | with nothing typed the password in use, or else the remembered one, is taken and the earlier choice stands |
| LoginPasswordProofs.HashIsRemembered | myrd/src/client.rs:2538-2555 | which of the candidates an accepted login leaves in the configuration |
| LoginPasswordProofs.AcceptedExactly | myrd/src/client.rs:2538-2555 | in whatever state, what an accepted login writes |
| LoginPasswordProofs.ErrorForgets | myrd/src/client.rs:3332-3344 | a password error forgets the password and nothing else |
| LoginPasswordProofs.SwitchMeaning | myrd/src/client.rs:3396-3404 | a switch of sides keeps the password without its source |
| LoginPasswordProofs.RunIsHonest | myrd/src/client.rs:1716-1744 | in every history the source names a shared password as long as its mark stands |
| LoginPasswordProofs.SharedNeverSaved | myrd/src/client.rs:2533-2556 | with one salt and no switch of sides a shared or built-in password is never written, in sessions begun from a token too |
| LoginPasswordProofs.SavedExactly | myrd/src/client.rs:2538-2545 | in general it is written if and only if the session is remembered and the mark is gone or the salt gives another digest |
| LoginPasswordProofs.NewSaltSaves | myrd/src/client.rs:3408-3455 | a history in which it is written |
| LoginPasswordProofs.SwitchSaves | myrd/src/client.rs:3397-3404 | another, by a switch of sides |
| FrameSlot.FlutterHandler.StoreFrame | myrd/src/flutter.rs:1183-1198 | the first critical section; other displays are untouched |
| FrameSlot.FlutterHandler.Announce | myrd/src/flutter.rs:1200-1217 | who is told, and whether anyone was |
| FrameSlot.ToldMeaning | myrd/src/flutter.rs:1203-1213 | with several sessions exactly those are told that show this display alone; with one, unless it shows several |
| FrameSlot.CountMeaning | myrd/src/flutter.rs:1203-1217 | there is one event for each session told |
| FrameSlot.LoopIsNotices | myrd/src/flutter.rs:1200-1217 | the loop is a run of single events, to the sessions told and no other |
| FrameSlot.FlutterHandler.Free | myrd/src/flutter.rs:1225-1229 | the slot is freed, other displays are untouched |
| FrameSlot.FlutterHandler.GetRgba | myrd/src/flutter.rs:1073-1080 | the pointer is given out only while the slot is valid |
| FrameSlot.NeverStuckUnannounced | myrd/src/flutter.rs:1218-1230 | under every interleaving, between frames a valid slot has been announced since it became valid |
| FrameSlot.FilledSlotKeepsBytes | myrd/src/flutter.rs:1184-1187 | further frames and events do not change a valid slot |
| FrameSlot.SwapConserves | myrd/src/flutter.rs:1191 | storing exchanges the two buffers and loses neither |
| FrameSlot.SlotHoldsFrame | myrd/src/flutter.rs:1183-1198 | over every run a valid slot holds the content of the last frame that found it not valid |
| FrameSlot.ReadsFrame | myrd/src/flutter.rs:1073-1080 | with one window, and nobody else freeing the slot, that content is what is read, at its full length |
| FrameSlot.ReadIsSafe | myrd/src/flutter.rs:1171-1230 | with one window, and nobody else freeing the slot, the buffer being read is the slot's, as long as it was told, and never in the video thread's hands; a filled slot has exactly one event or read open |
| FrameSlot.AlwaysFetchedExactly | myrd/src/flutter.rs:1073-1087 | over all runs every announced frame can be fetched, if and only if there is no window, or one and no dropping of slots and no freeing by a switch of displays or a new session |
| FrameSlot.AlwaysHoldsExactly | myrd/src/flutter.rs:1073-1087 | on the same condition exactly, the bytes being read stay in the slot |
| FrameSlot.SecondWindowFindsNothing | myrd/src/flutter.rs:1203-1217 | a run in which the second window finds the slot freed |
| FrameSlot.ClearedBeforeFetch | myrd/src/flutter.rs:645 | a run in which the slot is dropped before the fetch |
| FrameSlot.ResetBeforeFetch | myrd/src/flutter.rs:2150-2151 | a run in which a switch to the display frees it before the fetch |
| FrameSlot.ReadInVideosHands | myrd/src/flutter.rs:2236-2241 | a run in which the buffer being read is back with the video thread |
| Punch.Puncher.Sleep | myrd/src/common.rs:1976-1994 | one wake-up |
| Punch.IntervalGrows | myrd/src/common.rs:1988-1991 | the interval never shrinks and stays in [20, 200] |
| Punch.SentExactly | myrd/src/common.rs:1965-1994 | how many packets can leave before the limit: more than n if and only if n retries fit, given how far sleeps may end early and readings of the clock come late |
| Punch.AtMost104 | myrd/src/common.rs:1965-1994 | no run sends more than 104 packets, if and only if the gain of an early first sleep and the miss of the last check add up to less than 12 ms |
| Punch.AtMost105 | myrd/src/common.rs:1965-1994 | whatever the drift, no run sends more than 105, if and only if the loop begins within 12 ms of the first packet |
| Punch.AtMost106 | myrd/src/common.rs:1965-1994 | and no run at all sends more than 106 |
| Punch.All104 | myrd/src/common.rs:1965-1994 | 104 leave in some run, whatever the drift |
| Punch.Sends105 | myrd/src/common.rs:1976-1984 | a run that sends 105 |
| Clipboard.LawsCanBeMet | myrd/src/clipboard.rs:607-682 | the laws asked of UTF-8 are consistent |
| Clipboard.ItemRoundTrip | myrd/src/clipboard.rs:553-682 | an item comes back unchanged if and only if it is intact |
| Clipboard.OnTheWire | myrd/src/clipboard.rs:553-629 | what goes over the wire for each kind, and when it is compressed |
| Clipboard.ListRoundTrip | myrd/src/clipboard.rs:644-689 | a list comes back complete and in order if and only if every item is intact |
| Clipboard.SpecialLosesData | myrd/src/clipboard.rs:612-629 | special data that does not shrink comes back as the bytes of its name |
| Clipboard.NeverLarger | myrd/src/clipboard.rs:553-629 | the content sent is never larger than the item, except special data that did not shrink under a longer name |
| Subscriptions.Service.OnSubscribe | myrd/src/server/service.rs:107-117 | the subscriber is in, among the new ones exactly where a snapshot comes first; others are unaffected |
| Subscriptions.Service.OnUnsubscribe | myrd/src/server/service.rs:119-124 | the subscriber is out of both sets, others are unaffected |
| Subscriptions.Service.SwapNewSubscribes | myrd/src/server/service.rs:83-88 | nobody is lost in the swap and nobody waits after it |
| Subscriptions.Server.constructor | myrd/src/server.rs:105-109 | the first id is positive for every random value |
| Subscriptions.Server.GetNewId | myrd/src/server.rs:411-414 | ids count up, wrapping around as an i32 |
| Subscriptions.Server.Subscribe | myrd/src/server.rs:395-408 | one subscription changes as asked, all others stay |
| Subscriptions.Server.AddMissingService | myrd/src/server.rs:386-389 | a service is added where there is none of the name, without subscribers |
| Subscriptions.Server.AddCameraConnection | myrd/src/server.rs:337-345 | a camera connection gets the primary camera, if there is one |
| Subscriptions.Server.AddConnection | myrd/src/server.rs:347-363 | a new connection gets the permitted services and, of the video ones, the primary |
| Subscriptions.Server.RemoveConnection | myrd/src/server.rs:365-373 | no service keeps the connection |
| Subscriptions.Server.CaptureDisplays | myrd/src/server.rs:449-475 | requested video services are added or kept, others removed or kept, everything else is unchanged |
| Subscriptions.CaptureMeaning | myrd/src/server.rs:449-475 | with both flags a connection gets exactly the requested displays that exist; with one they are added, or others taken away |
| Subscriptions.AddMeaning | myrd/src/server.rs:347-363 | a new connection gets exactly the permitted services and of the video ones the primary monitor |
| Subscriptions.IdsAreUnique | myrd/src/server.rs:411-414 | over every run two ids are the same if and only if a multiple of 2^32 calls lie between them, and positive and increasing up to the largest i32 |
| Subscriptions.RemovedStaysOut | myrd/src/server.rs:365-373 | over every run a removed connection stays unsubscribed everywhere until a call subscribes it |
| Subscriptions.OthersDoNotInterfere | myrd/src/server.rs:347-475 | what a connection is subscribed to changes only by calls that name it |
| Online.Decode | myrd/src/client.rs:4021-4033 | the loop sorts the ids by their bits, and runs out of range if and only if the map is too short |
| Online.Divides | myrd/src/client.rs:4021-4033 | the two lists together are the queried ids |
| Online.BitsRecovered | myrd/src/client.rs:4021-4033 | for distinct ids, membership gives every queried bit back |
| Online.KeepsOrder | myrd/src/client.rs:4021-4033 | each list keeps the order asked |
| Online.MapRecovered | myrd/src/client.rs:4025-4027 | each byte is the sum of 128 for the first of its eight ids, 64 for the next, down to 1, over those online |

## Left out

- FileNameProofs.NameRoundTrip: ASCII fields only; other characters can put `--` into the payload, and the file name is then cut there. Tails that put other text directly behind the payload are not claimed either.
- FileName.GetCustomServerFromString: lower-cases ASCII letters only (`Text.Lower`); names with other letters that lower-casing changes are not modelled.
- FileName.ReadTokens: likewise.
- LicenceJson.Read: reads the compact form the printer writes; serde accepts more, which `FileName.Lawful` leaves open.
- Playback.AudioBuffer.Play: the short wait for more samples before reading is not modelled; appends may come between any two steps. Conversion between sample formats is left out.
- Ring.RingBuffer.PushSliceOverwrite: the ring buffer crate is not part of the repository; its documented effect is modelled with an array and two indices. Rates and channel counts of zero, which end the program, are excluded.
- Registration.Mediator.OnTick: rebinding the socket, errors that end the loop and the other message types are left out; the counter of failures is unbounded.
- Rounds: the TCP variant of a mediator differs only in when it ends by itself; sleeping between rounds is left out.
- Handshake: keys of a wrong length inside a signed text, the symmetric traffic that follows (see `SecureStream`) and dishonest ends are left out.
- SecureStream.Encrypt.Enc: the 64-bit counters are unbounded.
- KeyboardThreads: one hook thread and one releasing thread; other sources of key events are left out.
- Keyboard.Tracker.EventToKeyEvents: map mode only, with one peer and one position per key; lock-key modifiers added to messages, the legacy and translate modes and the mapping tables are left out.
- LoginPassword.LoginConfigHandler.HandleHash: the message sent to the peer and the terminal-admin return are left out; the session is alone with its configuration file, and tokens of earlier connections enter the theorems as any honest first state.
- LoginPassword.LoginConfigHandler.HandleLoginFromUi: the message sent to the peer is left out.
- LoginPassword.LoginConfigHandler.HandlePeerInfo: the sync to the personal address book and the reload of the stored configuration are left out.
- FrameSlot: the texture renderer and hooks are left out.
- PlaybackProofs.SixHundredMillis: rates below 54 samples a second, where rounding decides alone, are left out.
- Punch.Puncher.Sleep: an answer ends the loop and is left out; the float product is the integer one, which is exact in this range.
- Clipboard: file lists and the fallback for old peers are left out.
- Subscriptions.Server.CaptureDisplays: display numbers enter as service names; the retina setting is left out. Ids wrap as in a release build; a debug build stops there.
- Sockets, scheduling, STUN, KCP, ipc, HTTP, bindings, user interface, capture, encoding and file transfer are not modelled.
