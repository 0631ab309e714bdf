# gosh: a model of the client half of the State Synchronization Protocol

gosh is a mosh client. This project models what makes it hard to get right and proves it for every input,
every schedule of the network and every reachable state:

- **Outgoing synchronization** (`UserStream`, `SenderModel`, `SenderInvariant`, `SenderTimers`, `SenderPacing`,
  `SenderNumbers`, `SenderRetries`, `SenderTrim`, `Sender`): a bounded queue of numbered snapshots of the user's input, a guess at what the peer
  holds, pacing timers, trimming of the acknowledged prefix in place, and acknowledgments that prune the queue.
  `Sender.dfy` is the object with shared, mutable streams; each of its methods is proved to carry out the
  value-level step of `SenderModel.dfy`, on which whole runs are reasoned about.
- **The composed system** (`SyncSystem`, `SyncInvariant`, `SyncSafety`, `SyncRuns`, `SyncPacing`,
  `SyncRecovery`): the sender, a
  network that is the set of everything ever sent (so it loses, repeats and reorders at will), and a peer that
  follows the protocol's receiving rules: it applies a diff only to a state it holds, ignores a number it knows,
  and discards what it is told to throw away.
- **Incoming state** (`Fragment`, `Assembly`, `Reassembly`, `Receiver`, `Delivery`, `Transport`): from datagrams in any
  order to the terminal's screen.
- **The OSC 52 clipboard filter** (`Osc52`, `Osc52Tokens`, `Osc52Output`): the streaming state machine against a
  declarative tokeniser of the input, and what a terminal then reads in the output.
- **Sealing** (`Ocb`, `OcbBits`, `OcbShape`, `OcbCipher`, `Session`): OCB3 of RFC 7253 over any block permutation, and the packets
  and nonces above it.
- **Codecs and the link** (`Varint`, `Wire`, `WireLayout`, `Connection`): protobuf fields, instructions and user events, sequence
  numbers, wrapped timestamps and the RTO estimator of RFC 6298.

`dafny verify dfyconfig.toml` checks the whole project.

Conventions. Time is an integer of nanoseconds that never decreases, and one step sees one `Timeout()` and one
`SRTT()`, any values within their clamps. A `Send` succeeds or fails arbitrarily; a failed one leaves a fragment
unsent, and a burst cut off by its deadline counts as sent, its loss being the network's. 64-bit numbers wrap
explicitly; theorems about runs cover every run of fewer than 2^64 - 1 steps, in which they do not. An input stream,
like any Go slice, has fewer than 2^63 elements. zlib is any lossless compressor whose decompressor may reject and
whose output is capped at 4 MB; AES is any permutation of blocks. Round-trip estimates are real numbers.

Where the code does less than its comments suggest:

- A failed send is not always followed by a wait. `SenderRetries.FailureWaitsIffBacksOff` says exactly when it is:
  an empty ack backs off unless either side is shutting down; a retransmission backs off unless an ack is due at the
  same time (internal/transport/sender.go:290-294 speaks of the retransmit path without that exception); a new state
  never does. `SenderRetries.NewStateRetriesAtOnce` is a concrete case.
- WaitTime can oversleep a retransmission: it waits for the newest state's timeout, but the tick gives up on all of them
  at the oldest's. `SenderPacing.WaitsUntilDue` says exactly when, `OversleepsARetransmission` is a case.
- The OSC 52 filter can write the very query it exists to block. Dropping a sequence joins the bytes on either side:
  `ESC ] 5`, a whole query, then `2 ; c ; ? BEL` comes out as a whole query under Write and under Off
  (`Osc52Output.DroppedQueryLeaksAnother`), against internal/osc52/osc52.go:12-21 and 57-67.
  `Osc52Output.OutputReadAsWrittenIff`, `OffLeavesOnlyTextIff` and `WriteLeaksQueryIff` say exactly which inputs do it:
  those in which a dropped sequence splits an introducer, or for Write a whole query, of plain text.
- A fragment keeps its number on the wire only below 32768 (`Fragments.FragmentRoundTrip`), and an instruction can be
  reassembled exactly when it has at most 32768 fragments (`Reassembly.ReassemblesIffFits`); in a longer one a single
  fragment is taken for the whole (`Reassembly.TooLongMisread`).
- The direction takes the top bit of a packet's sequence number, which survives exactly when it is below 2^63
  (`Sessions.DecodesIffEncoded`).
- After a shutdown begins, the shutdown number may name several states; the peer's copies are still prefixes of the
  input (`SyncSafety.PeerMirrorsClient` covers both phases).

## Model

| member | source | states |
|---|---|---|
| `SyncSafety.PeerMirrorsClient` | internal/transport/sender.go:210-360 | In every run, whatever the network does and whichever sends fail, each number the peer holds stands for exactly the input the client had when it sent that number, and everything the peer holds, the shutdown state included, is a prefix of the input: nothing lost, repeated or reordered. |
| `SyncSafety.FrontNeverLost` | internal/transport/sender.go:321-330 | In every reachable state the peer still holds the state named by the client's queue front, and every instruction ever sent throws away only numbers at most its own reference and at most that front. |
| `SyncSafety.QueueAlwaysShaped` | internal/transport/sender.go:240-310 | Every reachable queue has at most 32 states, streams forming a prefix chain that ends in the current input, sorted send times, numbers that strictly increase except for a repeated shutdown number, a valid assumed index, and each stream is what its number stands for less one common acknowledged prefix. |
| `SyncSafety.TrimmingUnobservable` | internal/transport/sender.go:149-155 | A sender that never trims takes every run to the same end: same legality, same instructions, same peer, same timers, and streams that differ only by a cut acknowledged prefix. |
| `SyncSafety.TransmissionsSpaced` | internal/transport/sender.go:123-132 | In every run successive successful transmissions, data, empty acks, retransmissions and shutdown alike, are at least 20 ms apart, and the round-trip times reported to the connection never go back. |
| `SyncSafety.TransmissionRate` | internal/transport/sender.go:157-310 | Any interval of length L holds at most L / 20 ms + 1 successful transmissions. |
| `SyncSafety.SpacedApart` | internal/transport/sender.go:157-310 | Successful transmissions j - i places apart are at least (j - i) times 20 ms apart. |
| `SyncSafety.MirrorNext` | internal/transport/sender.go:149-155 | Each step of the trimming system is enabled exactly when it is for the untrimmed one and is that step with the acknowledged prefix cut. |
| `SyncSafety.MirrorRun` | internal/transport/sender.go:149-155 | The same for whole runs, with at most one number used up a step. |
| `SyncRuns.NumbersKeepTheirMeaning` | internal/transport/sender.go:278-310 | However a run continues, no number below the shutdown number ever comes to stand for another state. |
| `SyncRuns.ScheduleAlwaysSound` | internal/transport/sender.go:157-216 | In every reachable state and at any later time: the peer is assumed to hold the front or the back; a due send has a non-empty diff; a send is scheduled exactly when what the peer acknowledged is not all of the input, no later than max(now + 8 ms, last transmission + 1100 ms); and WaitTime is zero exactly when Tick would transmit. |
| `SyncRuns.NeverSilentForLong` | internal/transport/sender.go:157-207 | In every reachable state and at any later time WaitTime is at most 3 s, 100 ms when an ack for data is owed, and 250 ms while either side shuts down. |
| `SyncPacing.UnsentInputGoesOut` | internal/transport/sender.go:157-238 | In every reachable state whose input is in no queued state, once the timers have seen it: a tick from 8 ms after it was first seen and a send interval after the last transmission on, or with an ack due, transmits all of it under the next number; an earlier tick transmits nothing. |
| `SyncPacing.DelayStartsAtUnsentInput` | internal/transport/sender.go:166-177 | In every reachable state the 8 ms run only for input not yet sent and started no earlier than the last transmission. |
| `SyncPacing.TransmitsExactlyWhenDue` | internal/transport/sender.go:157-238 | In every reachable state a tick attempts a transmission exactly when an ack is due, or data is by the queue's own send times, the interval for state sent and given up on included; what it attempts carries the version, reference, throwaway, ack and new numbers the protocol asks for. |
| `SyncPacing.WaitsExactlyUntilDue` | internal/transport/sender.go:197-207 | In every reachable state a tick once WaitTime has passed transmits, and an earlier one does exactly when it falls after a state has been given up on that was not when the wait was computed. |
| `SyncPacing.DataAckedPromptly` | internal/transport/sender.go:157-207 | After server data is heard WaitTime is at most 100 ms, or 250 ms once a side shuts down. |
| `SyncPacing.QuietAcksSpaced` | internal/transport/sender.go:321-347 | From every reachable state, while no server data is heard and neither side shuts down, successive empty acks are at least 3 s apart, whatever else happens. |
| `SyncPacing.QuietAckRate` | internal/transport/sender.go:321-347 | A quiet interval of length L holds at most L / 3 s + 1 empty acks. |
| `SyncRuns.ShutdownGivesUp` | internal/transport/sender.go:363-381 | From every reachable state in shutdown, 16 ticks a quarter of a second apart time it out, whichever sends fail and whatever input, deliveries, acks and waits come between; tries count ticks exactly. |
| `SyncRecovery.CanAlwaysRecover` | internal/transport/sender.go:157-238 | From every reachable state before shutdown with unacknowledged input, 1.1 s suffice: the scheduled retransmission is diffed from a state the peer holds, and once it and its ack get through both ends agree on the whole input. |
| `SyncRecovery.ScheduleWorks` | internal/transport/sender.go:157-238 | The five steps of that recovery are legal and leave the acknowledged front equal to the input, held by the peer. |
| `SyncRecovery.SendComesDue` | internal/transport/sender.go:178-187 | 1.1 s after the timers were computed with unacknowledged input a send is due and is diffed from the acknowledged front. |
| `SyncInvariant.NextKeepsInv` | internal/transport/sender.go:210-360 | Every step of the composed system keeps the invariant tying queue, history, network, peer, acknowledgments and transmission times. |
| `SyncInvariant.SentFaithful` | internal/transport/sender.go:278-297 | Every instruction sent turns the stream its old number stands for into the one its new number stands for. |
| `SyncInvariant.MintExtends` | internal/transport/sender.go:278-288 | A transmission never renames a state already numbered. |
| `SenderInvariant.TickLeaves` | internal/transport/sender.go:210-310 | A tick keeps the queue's invariant; what it emits refers to a queued state no older than the one it throws away and carries the diff from it; a successful send puts the current state at the back under the emitted number, a failed one changes nothing but send times. |
| `SenderInvariant.AddSentInv` | internal/transport/sender.go:261-276 | Queueing a state, with one erased from the middle of a full queue, keeps the invariant, the front and the cap of 32. |
| `SenderInvariant.ProcessAckInv` | internal/transport/sender.go:351-360 | An acknowledgment keeps the invariant, moves the front only forwards in number and time, and forgets only older states. |
| `SenderInvariant.RefreshInv` | internal/transport/sender.go:136-155 | Rescanning and trimming keep the prefix chain, the times, the numbers and the assumed index. |
| `SenderTimers.AssumedFrontOrBack` | internal/transport/sender.go:136-145 | With sorted send times the assumed receiver state is the back while the oldest unacknowledged state is recent, and otherwise the front. |
| `SenderTimers.DueMeansDiff` | internal/transport/sender.go:218-232 | Whenever a send is due the diff is non-empty: the due-but-empty branch of Tick is never taken. |
| `SenderTimers.ScheduledIffUnacknowledged` | internal/transport/sender.go:157-194 | After calculateTimers a send is scheduled exactly when current input differs from the acknowledged front, within max(now + 8 ms, last transmission + 1100 ms). |
| `SenderTimers.TimersIdempotent` | internal/transport/sender.go:157-194 | Calculating the timers twice at one time is calculating them once. |
| `SenderTimers.WaitZeroIffTransmits` | internal/transport/sender.go:197-216 | WaitTime is zero exactly when Tick at that time attempts a transmission, and calling it first does not change what Tick does. |
| `SenderPacing.TransmitsIff` | internal/transport/sender.go:157-238 | A tick attempts a transmission exactly when an ack is due; or unsent input was seen 8 ms ago and the last transmission is an interval old; or the oldest unacknowledged state is a timeout and 100 ms old and the last transmission an interval. |
| `SenderPacing.WaitedSend` | internal/transport/sender.go:166-189 | The send time set, in terms of the queue: 8 ms and the interval for unsent input, the interval once given up on, the timeout and 100 ms before that, none when all is acknowledged. |
| `SenderPacing.WaitsUntilDue` | internal/transport/sender.go:197-207 | One-state form of the exact wait. |
| `SenderPacing.OversleepsARetransmission` | internal/transport/sender.go:197-207 | A state in which a tick 50 ms before the wait is over would already retransmit. |
| `SenderNumbers.InstructionCarries` | internal/transport/sender.go:240-347 | Every field of every instruction attempted, from the state before the tick: data already sent keeps its number, anything else takes the next or the shutdown number. |
| `SenderNumbers.SuccessSettles` | internal/transport/sender.go:218-259 | A successful transmission clears the owed ack and the input seen, and puts the next ack 3 s away. |
| `SenderNumbers.FullQueueForgetsOne` | internal/transport/sender.go:261-276 | A full queue forgets exactly the state 16 from its end; the guess still names the same state, or the one before it. |
| `SenderNumbers.AckKeepsFromNumber` | internal/transport/sender.go:351-360 | An acknowledged number leaves exactly the states numbered at least that; an unknown one leaves all. |
| `SenderNumbers.FirstTickTransmits` | internal/transport/sender.go:81-89 | The first tick always transmits. |
| `SenderTimers.WaitBounded` | internal/transport/sender.go:157-207 | The bounds on WaitTime for one state whose next ack is at most 3 s away. |
| `SenderTimers.TickHeartbeat` | internal/transport/sender.go:210-310 | A tick, whatever it sends and however that goes, leaves the next ack at most 3 s away. |
| `SenderRetries.FailureWaitsIffBacksOff` | internal/transport/sender.go:240-310 | After a failed attempt the sender waits before the next exactly when: an empty ack failed outside a shutdown, or a state sent before failed and no ack is due too (or a shutdown is paced by that state). |
| `SenderRetries.NewStateRetriesAtOnce` | internal/transport/sender.go:297-304 | The first keystroke, failing to be sent, is due again with no wait at all. |
| `SenderRetries.ShutdownAttempts` | internal/transport/sender.go:191-194 | While shutting down, a tick 250 ms after the last send always attempts a transmission and counts it. |
| `SenderTrim.TickSimulates` | internal/transport/sender.go:149-238 | A trimming tick on cut streams emits what the untrimmed tick emits and leaves its state cut by the whole front. |
| `SenderTrim.CutCompare` | internal/statesync/userstream.go:39-82 | Cutting an acknowledged prefix changes no Equal result and no diff. |
| `SenderTrim.AckSimulates` | internal/transport/sender.go:351-360 | Acknowledging commutes with cutting. |
| `SenderTrim.CutRationalize` | internal/transport/sender.go:149-155 | Trimming an already cut queue is cutting the whole front off the uncut one. |
| `Senders.Sender.constructor` | internal/transport/sender.go:81-89 | A new sender holds the empty state numbered 0 as sent and received, in a stream of its own. |
| `Senders.Sender.UpdateAssumedReceiverState` | internal/transport/sender.go:136-145 | The scan stops at the first state not sent recently; the guess is the last one before it. |
| `Senders.Sender.RationalizeStates` | internal/transport/sender.go:149-155 | Cutting in place, the aliased front last, removes from every stream as many events as the front had. |
| `Senders.Sender.CalculateTimers` | internal/transport/sender.go:157-194 | The object's new abstract state is that of the value-level calculateTimers with trimming. |
| `Senders.Sender.WaitTime` | internal/transport/sender.go:197-207 | The wait and the new state are those of the value-level step. |
| `Senders.Sender.AddSentState` | internal/transport/sender.go:261-276 | The queue grows by an independent copy of the current stream, and a full queue loses the state 16 from its end. |
| `Senders.Sender.SendEmptyAck` | internal/transport/sender.go:240-259 | State, emission and datagrams of an empty ack; a failure queues nothing and moves the ack time. |
| `Senders.Sender.SendToReceiver` | internal/transport/sender.go:278-310 | State, emission and datagrams of a data send; a retransmission is stamped even if it fails, a new state is queued only on success. |
| `Senders.Sender.SendInFragments` | internal/transport/sender.go:321-347 | The instruction refers to the assumed state and throws away below the front; its fragments are sent in order up to the first failing send or the spent burst, and never further. |
| `Senders.Sender.Tick` | internal/transport/sender.go:210-238 | One tick carries out the value-level Tick on shared mutable streams, creating only fresh ones. |
| `Senders.Sender.ProcessAcknowledgmentThrough` | internal/transport/sender.go:351-360 | The states before the first one acknowledged are dropped and the guess returns to the front; an unknown number changes nothing. |
| `Senders.Sender.ShutdownAcknowledged` | internal/transport/sender.go:374-376 | True exactly when a shutdown is in progress and the acknowledged front is the shutdown state. |
| `UserStreams.DiffCarriesSuffix` | internal/statesync/userstream.go:64-82 | Decoding a diff and splitting its key runs into single bytes gives exactly the events the reference lacks. |
| `UserStreams.DiffEmptyIff` | internal/statesync/userstream.go:64-67 | A diff is empty exactly when the reference has at least as many events. |
| `UserStreams.DiffIgnoresPrefix` | internal/statesync/userstream.go:54-82 | A prefix common to stream and reference makes no difference to the diff. |
| `UserStreams.SplitCoalesced` | internal/statesync/userstream.go:69-80 | Coalescing keystrokes loses nothing: splitting the runs gives the events back. |
| `UserStreams.CoalescedCompletely` | internal/statesync/userstream.go:69-80 | No two keystroke runs are left side by side. |
| `UserStreams.Coalesce` | internal/statesync/userstream.go:69-80 | The loop joins consecutive keystrokes and never joins across a resize. |
| `UserStreams.UserStream.PushKeys` | internal/statesync/userstream.go:20-24 | One event per byte is appended. |
| `UserStreams.UserStream.Equal` | internal/statesync/userstream.go:39-50 | True exactly when the event sequences are the same. |
| `UserStreams.UserStream.Subtract` | internal/statesync/userstream.go:54-60 | Drops as many events as the prefix had, even when the prefix is the stream itself. |
| `UserStreams.UserStream.Clone` | internal/statesync/userstream.go:32-36 | A fresh stream with the same events. |
| `Delivery.ScreenFollowsServer` | internal/transport/transport.go:50-111 | End to end, for every schedule of datagrams the server really sent, in any order, lost, repeated or interleaved: the terminal shows the server state the client acknowledges, reached by one chain of diffs from state 0. |
| `Delivery.HeardIsTold` | internal/transport/transport.go:50-65 | Only instructions the server sent come out of genuine datagrams, however they are scheduled. |
| `Delivery.ShutdownHeardIff` | internal/transport/transport.go:50-82 | The same over every schedule of datagrams, genuine or not. |
| `Delivery.ScreenIsHeard` | internal/transport/transport.go:50-111 | For any datagrams at all the screen state is what the instructions heard make of a blank one. |
| `Delivery.CoveredIsHeard` | internal/transport/transport.go:50-65 | After any genuine datagrams, once an instruction's pieces have all arrived, in any order and with any repetition, it is heard, if it is of version 2 and at most 4 MB. |
| `Delivery.ReadGenuine` | internal/transport/fragment.go:62-76 | A compressed instruction is read back, or rejected for being over 4 MB or of another version. |
| `Receiver.RenderedIsChain` | internal/transport/transport.go:95-109 | For every schedule of instructions the diffs applied form one chain from state 0 to latestNum, and ackNum equals latestNum. |
| `Receiver.PaintedOnce` | internal/transport/transport.go:84-100 | Along that chain the stretches of server states painted never overlap. |
| `Receiver.CatchesUp` | internal/transport/transport.go:95-109 | After any schedule whatever, instructions diffed from the acknowledged state are all rendered and the last acknowledged. |
| `Receiver.ShutdownNotedIff` | internal/transport/transport.go:71-82 | The server's shutdown is noted exactly when some instruction heard carried the shutdown number, acceptable or not. |
| `Receiver.ScreenIsServerState` | internal/transport/transport.go:84-111 | If every instruction is correct, the screen is the server's screen for latestNum, or the shutdown diff painted over its reference. |
| `Receiver.ShutdownLatches` | internal/transport/transport.go:71-97 | Once a schedule has shown the shutdown state, no continuation of it paints or acknowledges anything more. |
| `Transports.Transport.Recv` | internal/transport/transport.go:50-111 | One datagram updates assembly, screen state and sender as specified and reports the apply error and the round trip, on every error path too: a bad fragment, bad compression, bad instruction or wrong version changes nothing but the assembly. |
| `Transports.AcknowledgingIsHearing` | internal/transport/transport.go:67-109 | What an instruction does to the sender and the time it reports are exactly the step of the composed system in which the peer is heard. |
| `Transports.Transport.Act` | internal/transport/transport.go:67-111 | The ack is processed whether or not the diff is acceptable, and the round trip reported is the send time of the new front; a diff the terminal refuses leaves latestNum and ackNum behind. |
| `Fragments.FragmentRoundTrip` | internal/transport/fragment.go:24-49 | A fragment survives marshalling exactly when its number is below 32768. |
| `Fragments.ParseMarshalled` | internal/transport/fragment.go:24-49 | What any fragment, also one with too large a number, is read back as. |
| `Fragments.HeaderWritten` | internal/transport/fragment.go:24-34 | Byte by byte: eight bytes worth the id in their big-endian places, then final bit and number. |
| `Fragments.HeaderRead` | internal/transport/fragment.go:38-49 | For every datagram of at least ten bytes: the id is the sum of its bytes in those places, the number the next fifteen bits, final the bit above. |
| `Fragments.UncompressedIff` | internal/transport/fragment.go:60-75 | Exactly what the stream holds, if at most 4 MB. |
| `Fragments.IdChangesIff` | internal/transport/fragment.go:87-93 | The first id is 1, and a new one is taken exactly when payload or MTU changes. |
| `Fragments.ChunksShape` | internal/transport/fragment.go:94-109 | The pieces joined are the payload; each carries the id, its place modulo 2^16 and fits the MTU, and only the last is final. |
| `Fragments.Fragmenter.MakeFragments` | internal/transport/fragment.go:87-110 | A new id exactly when payload or MTU changed, and the pieces of the compressed instruction. |
| `Fragments.Cutting` | internal/transport/fragment.go:94-109 | The cutting loop yields those pieces. |
| `Fragments.IdNamesOnePayload` | internal/transport/fragment.go:78-93 | Over a session of fewer than 2^64 calls a fragment id names one payload cut at one MTU. |
| `Reassembly.OnlySentPayloads` | internal/transport/fragment.go:124-168 | Any interleaving of fragments of any number of messages yields only the payload of the message its last fragment belongs to. |
| `Reassembly.SessionSound` | internal/transport/fragment.go:87-168 | The same for everything one fragmenter made in a session, ids reused for retransmissions included. |
| `Reassembly.CompletesWhenCovered` | internal/transport/fragment.go:124-168 | Fragments of one message in any order with any repetition yield nothing until the last missing one arrives, and the payload exactly then; the same message may then start afresh. |
| `Reassembly.HoldsUntilCovered` | internal/transport/fragment.go:124-168 | Until then the slots hold exactly the pieces that arrived. |
| `Reassembly.BrokenOffNeverCompletes` | internal/transport/sender.go:335-344 | Mixed with any fragments of other ids, genuine or not, no schedule of the pieces before the point where sending broke off ever completes the message. |
| `Reassembly.ReassemblesIffFits` | internal/transport/fragment.go:24-168 | Some schedule of a message's datagrams, as read back, yields its payload if and only if it has at most 32768 pieces. |
| `Reassembly.TooLongMisread` | internal/transport/fragment.go:24-49 | In a longer message piece 32768 reads back as number 0 and final, and alone completes as the whole. |
| `Assemblies.ArrivedCounts` | internal/transport/fragment.go:124-155 | `arrived` equals the number of filled slots after any fragment, garbage included. |
| `Assemblies.FinalDropsBeyond` | internal/transport/fragment.go:143-155 | A final fragment fixes the total, drops every slot beyond it and keeps those below as they were. |
| `Assemblies.WholeIff` | internal/transport/fragment.go:156-165 | With the total pinned, a message is whole exactly when it has that many slots and all are filled. |
| `Assemblies.Assembly.Ingest` | internal/transport/fragment.go:124-168 | One fragment's effect on the assembly and what it returns, decompression errors included. |
| `Assemblies.Assembly.File` | internal/transport/fragment.go:124-155 | A new id abandons the old partial, a duplicate is ignored, a final fragment pins the total and drops what lies beyond it. |
| `Assemblies.Gather` | internal/transport/fragment.go:159-165 | The contents in order, or nothing if a slot is empty. |
| `Osc52Tokens.FilterRefinesTokens` | internal/osc52/osc52.go:150-235 | On every input the filter writes text verbatim, the policy's rendering of each complete OSC 52 and nothing for aborted or oversized ones, and holds just the tail the tokeniser leaves undecided. |
| `Osc52Tokens.TokensSpellInput` | internal/osc52/osc52.go:150-235 | Tokens and tail spell the input: the tokeniser loses, adds and moves nothing. |
| `Osc52Tokens.ForeignTextUntouched` | internal/osc52/osc52.go:150-282 | Under every policy, input in which no OSC 52 opens comes out unchanged but for what is held. |
| `Osc52Tokens.FlushGivesBackTail` | internal/osc52/osc52.go:241-253 | Under every policy and for every input, what is written and then flushed is the rendering of the tokens and the whole undecided tail, an unfinished OSC 52 included, unless it has outgrown the cap. |
| `Osc52Output.OpensIff` | internal/osc52/osc52.go:96-106 | An introducer is ESC ], one to eight digits that spell 52 and a semicolon, and nothing else. |
| `Osc52Output.CancelDropsSequence` | internal/osc52/osc52.go:203-208 | CAN and SUB abandon a sequence; nothing is written for it and text follows. |
| `Osc52Output.EmptySelectionIsClipboard` | internal/osc52/osc52.go:315-320 | A write naming no selection comes out naming the clipboard. |
| `Osc52Tokens.CanonicalWritePasses` | internal/osc52/osc52.go:288-335 | Under Write and Full a canonical write whose held part is at most 65536 bytes passes unchanged, a longer one yields nothing. |
| `Osc52Output.OutputReadAsWrittenIff` | internal/osc52/osc52.go:150-335 | Under every policy a terminal reads the output as exactly the text and sequences let through, if and only if no dropped sequence of the input splits an introducer. |
| `Osc52Output.OffLeavesOnlyTextIff` | internal/osc52/osc52.go:65-67 | Under Off a terminal finds no OSC 52 in the output, complete, aborted or open, exactly when no dropped one splits an introducer. |
| `Osc52Output.WriteLeaksQueryIff` | internal/osc52/osc52.go:57-61 | Under Write a terminal finds a clipboard query in the output exactly when a dropped sequence splits one of plain text. |
| `Osc52Output.DroppedQueryLeaksAnother` | internal/osc52/osc52.go:288-313 | Under Write and Off alike, `ESC ] 5`, a whole query and `2 ; c ; ? BEL` come out as a whole query. |
| `Osc52Output.FilterWritesOnlyPassed` | internal/osc52/osc52.go:288-335 | For every input, what is written spells the tokens let through in canonical form: only text under Off, no query under Write. |
| `Osc52Output.SequenceRenderedSafely` | internal/osc52/osc52.go:288-335 | Each sequence of an input alone: Off writes nothing, and Write writes nothing or one whole sequence read back, before whatever follows, as no query. |
| `Osc52Output.ReadsUnlessJoined` | internal/osc52/osc52.go:150-335 | The same equivalence for any token list, the condition being that written text up to the next sequence opens an introducer. |
| `Osc52Output.JoinsIffSmuggles` | internal/osc52/osc52.go:170-192 | In the parse of an input, written text opens an introducer only across a token dropped right after an undecided opening. |
| `Osc52Output.Resync` | internal/osc52/osc52.go:219-231 | Whatever precedes it, `ESC ]` begins a token: the parse from there on does not depend on what came before. |
| `Osc52.RunSplit` | internal/osc52/osc52.go:150-235 | How the input is split between calls changes neither output nor state. |
| `Osc52.RunBounded` | internal/osc52/osc52.go:193-217 | At most 65536 bytes are held between calls. |
| `Osc52.Filter.Filter` | internal/osc52/osc52.go:150-235 | The loop with its non-consuming transitions terminates, each strictly lowering a rank, and writes what the byte-driven machine writes. |
| `Osc52.Filter.Flush` | internal/osc52/osc52.go:241-253 | Everything held is released, unless an oversized sequence is being dropped. |
| `Osc52.Filter.FilterChunk` | internal/osc52/osc52.go:257-259 | A chunk is filtered and flushed; nothing is held afterwards. |
| `Osc52.Filter.EmitSequence` | internal/osc52/osc52.go:288-335 | The policy applied to a complete held sequence, rebuilt from its parts. |
| `Ocb.OpenIffSealed` | internal/ocb/ocb.go:115-214 | For any block permutation, nonce and text, Open accepts c as p exactly when Seal of p is c. |
| `Ocb.TransformInverts` | internal/ocb/ocb.go:115-214 | Deciphering undoes enciphering on whole texts, partial last block included, and the other way round. |
| `OcbShape.SealedBlock` | internal/ocb/ocb.go:115-140 | Every whole block of a sealed text is the cipher of the text's block between two applications of a closed-form offset. |
| `OcbShape.SealedPartial` | internal/ocb/ocb.go:141-150 | The partial block is masked by the ciphered next offset. |
| `OcbShape.SealedTag` | internal/ocb/ocb.go:151-159 | The tag is the cipher of checksum, last offset and L_$. |
| `OcbShape.OffsetIsGrayCode` | internal/ocb/ocb.go:115-135 | Offset_i is Offset_0 with those L_j for which bit j of the Gray code of i is set (section 4.2 of RFC 7253). |
| `OcbShape.KeyBlocksArePowers` | internal/ocb/ocb.go:40-58 | L_$ and L_i are L_* times x and x^(i+2). |
| `OcbShape.FirstOffsetBits` | internal/ocb/ocb.go:80-111 | Offset_0 bit for bit from the stretch of the ciphered top. |
| `OcbShape.PaddedNonceBits` | internal/ocb/ocb.go:80-90 | The nonce is preceded by 31 zeros and a one. |
| `OcbShape.TopBits` | internal/ocb/ocb.go:80-95 | Top is the padded nonce with its last six bits cleared. |
| `OcbShape.BottomBits` | internal/ocb/ocb.go:80-95 | Bottom is the number those six bits spell. |
| `OcbShape.StretchBits` | internal/ocb/ocb.go:96-100 | The stretch bit for bit. |
| `OcbShape.ChecksumIsParity` | internal/ocb/ocb.go:115-140 | Bit j of the checksum is the parity of bit j over all whole blocks, by counting. |
| `OcbShape.PaddedBits` | internal/ocb/ocb.go:141-150 | A partial block is followed by a single one bit and zeros. |
| `OcbShape.TagNoticesBlock` | internal/ocb/ocb.go:151-159 | Texts of one length that differ in exactly one whole block have different tags, for any permutation. |
| `OcbShape.TagNoticesPartial` | internal/ocb/ocb.go:151-159 | So have texts that differ only in the partial block. |
| `OcbShape.AlteredBlockRejected` | internal/ocb/ocb.go:162-214 | A sealed text with one whole block altered, under the tag it had, is never opened. |
| `OcbBits.DoubledMultipliesByX` | internal/ocb/ocb.go:62-71 | Coefficient by coefficient, doubling is multiplication by x modulo x^128 + x^7 + x^2 + x + 1 (section 2 of RFC 7253). |
| `OcbBits.SliceIsBitSlice` | internal/ocb/ocb.go:80-111 | Offset_0 is bit for bit the 128-bit slice of the 192-bit Stretch at every bottom from 0 to 63 (section 4.2 of RFC 7253). |
| `OcbCipher.Double` | internal/ocb/ocb.go:62-71 | The in-place loop doubles the block, also when source and destination are one array. |
| `OcbCipher.XorBlock` | internal/ocb/ocb.go:73-77 | Byte-wise exclusive or, also when the destination is an operand. |
| `OcbCipher.Cipher.constructor` | internal/ocb/ocb.go:40-58 | The key-dependent blocks are L_*, L_$ and L_0 to L_31. |
| `OcbCipher.Cipher.InitialOffset` | internal/ocb/ocb.go:80-111 | The byte shifting computes Offset_0 with no read outside the stretch. |
| `OcbCipher.Cipher.Seal` | internal/ocb/ocb.go:115-159 | Seal computes the recursive definition of section 4.2 of RFC 7253 for every text of under 2^32 blocks, and rejects a nonce of the wrong length. |
| `OcbCipher.Cipher.Open` | internal/ocb/ocb.go:162-214 | Open computes the definition of section 4.3 of RFC 7253: it rejects a wrong nonce length, a short text and a wrong tag. |
| `OcbCipher.TableCovers` | internal/ocb/ocb.go:115-140 | For texts of under 2^32 blocks the index into the table of 32 blocks is in range. |
| `Sessions.DatagramIffSealed` | internal/crypto/session.go:70-101 | For any block permutation a datagram is read as a packet exactly when it is that packet's sealing and its number fits 63 bits. |
| `Sessions.DecryptIffEncrypted` | internal/crypto/session.go:78-101 | A datagram opens to a message exactly when it is the message's sealing. |
| `Sessions.RejectedIffNoPacket` | internal/crypto/session.go:89-101 | Rejected are exactly the bytes that seal no packet; the short-packet error means a genuine message with fewer than four bytes. |
| `Sessions.DecodesIffEncoded` | internal/network/packet.go:41-67 | A message decodes to a packet exactly when it is its encoding and the number is below 2^63. |
| `Sessions.PacketRoundTrip` | internal/network/packet.go:41-67 | Every packet decodes to itself but for the top bit of its number. |
| `Sessions.PacketBytes` | internal/network/packet.go:58-68 | Timestamp, then reply, each high byte first, then the payload; the direction above the number. |
| `Sessions.NonceOpensDatagram` | internal/crypto/session.go:70-83 | A nonce is four zeros and its value, which also opens the datagram. |
| `Sessions.Put64Bytes` | internal/crypto/session.go:70-83 | The eight bytes of the value, highest first. |
| `Sessions.NoncesNeverRepeat` | internal/crypto/session.go:70-74 | Two packets numbered below 2^63 share a nonce only if direction and number agree. |
| `Connections.SampleIsNetworkTime` | internal/network/packet.go:71-83 | If the peer echoes by the same rule with a hold under a second, the wrapped 16-bit sample is within 1 ms of the network time whenever that is 1 to 65534 ms, and within 3 ms on an unrounded clock. |
| `Connections.EstimatesStayWithin` | internal/network/connection.go:364-376 | Over any run of samples in [0, R] the smoothed time and its variation stay in [0, R] from the first sample on. |
| `Connections.SteadyLinkConverges` | internal/network/connection.go:370-375 | On a steady link the smoothed time closes on the true one by 7/8 a sample. |
| `Connections.EstimateGivesLink` | internal/network/connection.go:387-398 | Timeout is within 50 to 1000 ms and the send interval within 20 to 250 ms, the interval never exceeds the timeout by more than 100 ms, and the timeout covers the smoothed time up to a second. |
| `Connections.TimeoutIsLeast` | internal/network/connection.go:387-398 | Within its clamps the timeout is the least whole millisecond count that covers srtt + 4 rttvar. |
| `Connections.IntervalIsHalf` | internal/transport/sender.go:123-132 | Within its clamps the send interval is half the smoothed time to the nearest millisecond. |
| `Connections.SampleMoves` | internal/network/connection.go:364-376 | A sample moves the smoothed time an eighth of the way and the variation a quarter; the first sets both. |
| `Connections.SlowUntilMeasured` | internal/network/connection.go:387-398 | Before the first sample the timeout is 1 s and the interval 250 ms. |
| `Connections.NeverMissing` | internal/network/packet.go:71-79 | No timestamp and no echo is the missing sentinel. |
| `Connections.AcceptedIncrease` | internal/network/connection.go:353-358 | Accepted sequence numbers strictly increase under any replay, so no datagram is accepted twice. |
| `Connections.Connection.Send` | internal/network/connection.go:269-294 | A fresh number, the present timestamp, and at most one echo of each timestamp heard, advanced by the hold and never the sentinel. |
| `Connections.Connection.Recv` | internal/network/connection.go:349-377 | Accepts exactly server packets numbered at least the one expected; any other leaves the estimates, the saved timestamp and the time last heard as they were. |
| `Varint.RoundTrip` | internal/wire/wire.go:24-59 | Every uint64 decodes to itself from at most ten bytes, whatever follows. |
| `Varint.ReadFromBounds` | internal/wire/wire.go:47-59 | What is read fits 64 bits and uses at most ten bytes, none past the input. |
| `Varint.ReadVarint` | internal/wire/wire.go:47-59 | The loop reads the definition, including truncation and overflow errors. |
| `Varint.AppendVarint` | internal/wire/wire.go:24-30 | The loop appends the base-128 digits. |
| `WireLayout.EncodedDigits` | internal/wire/wire.go:24-30 | The bytes are the number's base-128 digits, least significant first. |
| `WireLayout.EncodedMarks` | internal/wire/wire.go:24-30 | Every byte but the last has its high bit set, and no digit is wasted. |
| `WireLayout.DecodedDigits` | internal/wire/wire.go:47-59 | Any varint, padded or not, decodes to its digits' sum modulo 2^64 up to the first byte below 128. |
| `Wire.ParseConcat` | internal/wire/wire.go:71-118 | Parsing a concatenation is the concatenation of the parses. |
| `Wire.WalkFields` | internal/wire/wire.go:71-118 | The loop visits exactly the fields of the recursive parse, in order, up to the first error. |
| `Wire.InstructionRoundTrip` | internal/wire/wire.go:134-175 | Every instruction survives marshalling. |
| `Wire.UnknownFieldsIgnored` | internal/wire/wire.go:147-175 | Appended unknown fields do not change the instruction read. |
| `WireLayout.InstructionBytes` | internal/wire/wire.go:134-145 | The seven fields behind their literal key bytes. |
| `WireLayout.KeysBytes` | internal/wire/wire.go:189-207 | Keystrokes byte by byte, three levels deep. |
| `WireLayout.ResizeBytes` | internal/wire/wire.go:189-207 | A resize byte by byte, width before height, sign-extended. |
| `WireLayout.FixedFieldsPassed` | internal/wire/wire.go:71-118 | Fixed-width fields of eight and four bytes are passed over. |
| `WireLayout.MalformedRejected` | internal/wire/wire.go:71-118 | Field number 0, other wire types and truncated fixed-width fields are errors. |
| `WireLayout.VersionFits` | internal/wire/wire.go:147-160 | A version of more than 32 bits is an error. |
| `Wire.UserMessageRoundTrip` | internal/wire/wire.go:189-247 | Every list of user events, resizes of any sign included, survives marshalling. |
| `Wire.UserMessageConcat` | internal/wire/wire.go:210-247 | Two messages one after the other hold the events of both in order. |
| `Wire.WriteUserMessage` | internal/wire/wire.go:189-205 | The marshalling loop writes the events one after the other. |

## Left out

- UDP sockets, deadlines, redialling and port hopping (internal/network/connection.go:114-262): operating-system behaviour.
- The client's loop, resize watchers and raw mode (internal/client), the SSH bootstrap (internal/bootstrap) and the command line (cmd/gosh).
- HostMessage decoding, OSC 52 policy parsing and printing, and base64 keys: they would only add easy members.
- The partial effect of a terminal that fails midway through a diff: the model has it paint nothing, and latestNum stays behind as in the code.
- OCB's unforgeability, a probabilistic claim.
- Terminals that parse control strings otherwise than the filter: a reader of the output is the filter's own tokeniser.
- The time of `StartShutdown` (shutdownStart), which nothing reads.
- MTUs of 10 or less, on which the fragmenter loops or panics (internal/transport/fragment.go:94-109).
- Senders.Sender.constructor: reads the clock once where the code reads it twice.
- Senders.Sender.CalculateTimers: the two assignments to the ack time stand together, after the send time; nothing between them reads it.
- Osc52.Filter.Filter: byte slices are values, so the capacity kept in the buffer between sequences is not modelled.
- OcbCipher.Cipher.Seal: the output is appended block by block instead of written into a preallocated buffer; texts of 2^32 blocks or more, for which the table of 32 blocks may be too short, are excluded.
- OcbCipher.Cipher.Open: the same two limits, on the body before the tag; the constant-time comparison is plain equality.
- Connections.EstimatesStayWithin: estimates are reals, so floating-point rounding is not modelled.
- Connections.Connection.Recv: starts from a decrypted packet; opening it is module Sessions.
