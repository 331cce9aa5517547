# Proofs about the robot connection library, the serial bridge and the WiFi switcher

The connection library keeps a host computer in touch with a team of football robots. It finds robots over UDP
multicast or a serial port, drives a small packet protocol with each of them, and reports what happens as one stream of
events. Two programs sit beside it: a bridge that carries the packets over a serial line (or mocks a robot), and a
daemon that enables WiFi networks by editing a configuration file. This project models the stateful core of all three
and proves what that core is for.

| file | what it models |
|---|---|
| `Options.dfy` | options, bytes, points in time, and the present values of a list of options |
| `Datagrams.dfy`, `PacketCounter.dfy`, `RadioProtocol.dfy` | datagrams, their chunks, the 6-bit counter, and the per-robot protocol object |
| `LossyLink.dfy`, `BoundedProgress.dfy` | host, robot and two lossy channels as one transition system: delivery and its cost |
| `StaleRobot.dfy` | the same link when the robot remembers an earlier connection |
| `Reassembly.dfy` | the host's receive side over whole chunk streams |
| `ReverseLink.dfy` | the link in the other direction: what becomes of a robot's response chunks |
| `RobotIdFilter.dfy`, `DualHashMap.dfy`, `TransceiverEvents.dfy` | the id filter, the two-key map, the events of transceivers |
| `Deadlines.dfy` | what deadline tables mean, given the list of announcements, packets and expiries |
| `UdpTransceiver.dfy`, `SerialTransceiver.dfy` | connection tables, discovery, deadlines and their caches |
| `ConnectionLog.dfy`, `ConnectionDriver.dfy` | the driver loop, its log, and the cache that replays the log |
| `DriverSessions.dfy` | what the driver stores and logs for one robot, read off everything that happened |
| `MetricsTracker.dfy` | round-trip and loss samples under the wrapping packet counter |
| `TrackedProtocol.dfy` | the protocol object with metrics switched on |
| `LossHistory.dfy`, `Words.dfy` | the mock responder's loss window; machine words with bitwise operations |
| `Cobs.dfy`, `SerialFraming.dfy`, `FrameDamage.dfy` | Consistent Overhead Byte Stuffing, the framed serial stream, and damaged frames |
| `FloatCodec.dfy` | quantisation of reals and angle normalisation |
| `ConfigLines.dfy`, `WpaConfig.dfy` | the configuration reader and the editor as line automata |

Run `dafny verify dfyconfig.toml` in this directory.

Objects whose methods update fields in place are classes here. Each method is proved equal to a function on the value of
those fields, and the theorems about runs are about these functions. Inductions are written out and not left to the verifier
(`{:induction false}`).

## Where the code and its documentation differ

The model follows the code. Each item names the theorem with the exact condition under which the documented behaviour holds,
and a lemma with an input for which it fails.

- The documentation of the sequence number says that it removes duplicates on the receiving side. The host records it but
  never compares it. `Reassembly.DeliveredIffNoChunkRepeats`: datagrams of one type are handed out and leave an empty buffer
  iff no chunk arrives twice; `HandedOutIff` and `OutputOfAnyStream` say what is handed out whatever stays in the buffer.
  `RepeatedIdIsHandedOutTwice` is the smallest failure, and `ReverseLink.LostAckHandsOutTwice` shows how one lost header
  leads to it; `ReverseLink.ExactlyOnceIffNoneRepeated` is the condition for whole runs of the link. A repetition can also
  go unnoticed: `RepeatInZeroEchoIsNotNoticed` within a datagram, `StrayChunkIsCleared` where the type changes.
- The host's sequence numbers start afresh with every connection. Whether the robot's do is up to its firmware; one that still
  remembered 0 would take the first chunk for a repetition: `StaleRobot.ExactlyOnceIffRobotRemembersOne`, with
  `DroppedUnaccepted` as a run and `FirstChunkIsLost` for the damage.
- The tracker's comment says that eviction of the oldest packet breaks if `max_pending` exceeds the counter range. It
  already breaks from `max_pending` 2 on: a lone lost packet stays pending until its counter comes round, and is
  then overwritten without a loss sample. `Metrics.MayOverwriteIff`, `MustOverwriteIff` and `OverwritesAlongRun` give the
  condition, `LoneLossVanishes` a run.
- A sample is documented as the round-trip time of the packet sent at its time. An answer that comes 64 sends late is credited to a
  newer packet: `Metrics.SampleIsOwnIff`, with `LateAnswerIsMistaken` as a run.
- The reader of serial packets checks a checksum, but that covers the message and not the overhead bytes that COBS adds:
  `FrameDamage.DamageAcceptedIff`, with `OverheadDamageIsAccepted` as one changed byte that gives another message.
- The responder counts one zero per skipped counter, but sees a gap only modulo 64: `LossHistory.HistoryIsTrueIff`, with
  `WholeTurnIsNotSeen`. Packets that overtake each other count as losses: `OvertakingCountsAsLosses`.
- The editor promises to set the flags of all networks. It numbers blocks by their opening lines while the reader numbers
  them by their closing lines: `WpaConfig.SetIsReadIffAligned`, with `HeaderInsideMisnumbers` as a file where they differ.
- Reader and editor stop at the first line that is not valid text, so an edit drops the rest of such a file:
  `WpaConfig.EditIsConservativeIff` for the text lines and `EditLosesNothingIff` for all lines, with `InvalidFirstLineErases`.

## Assumptions

- The robot's firmware is not part of this repository. Its behaviour is taken from the documentation of the header and payload fields
  (`connection/src/protocol/proto2025/packet.rs`, lines 68 and 82): it accepts a chunk whose sequence number
  differs from that of the last accepted one, and echoes the last accepted number. Where nothing else is said its first number
  is 1, as on the host. The chunks of its own responses it sends as the host sends commands: one at a time under alternating
  numbers, the first one under 0, dropping one when a header of the host names its number. When it repeats one is left open.
- Channels may lose and repeat packets at any time but keep their order; a one-bit sequence number needs that.
- Clock values, socket and port reads, probe results, and whether the outgoing channel is full are inputs of the
  operations. Both transceivers are present. The operating system lists serial ports under distinct names.
- Send times given to the metrics tracker may be any; where equal times leave the choice to a hash map's order, the theorems speak of
  all outcomes.
- Real numbers stand for floating-point numbers, and the bit width of a codec is not limited to 31. `PI` is the value of the
  single-precision constant.
- Machine words are natural numbers whose width is written out where the code cuts to it.

## Model

| member | source | states |
|---|---|---|
| Datagrams.ResponseFromBytes | connection/src/protocol/proto2025/datagrams.rs:138-151 | Conversion succeeds exactly when enough bytes are there, yields the datagram whose packed form is the prefix of the type's size, and ignores padding. |
| Datagrams.Split | connection/src/protocol/proto2025/mod.rs:62-73 | Splitting gives ceil(size/27) chunks, one for an empty datagram, all of the datagram's type. |
| Datagrams.SplitCarriesData | connection/src/protocol/proto2025/mod.rs:62-73 | The chunks' bytes, joined, are the data followed by zeros only. |
| Datagrams.CommandRoundTrip | connection/src/protocol/proto2025/datagrams.rs:85-99 | Tag and bytes of a command determine it: a decoder on the robot's side gives the command back, whatever padding follows. |
| Datagrams.DecodePrefix | connection/src/protocol/proto2025/mod.rs:62-73 | The first n chunks of a list of commands decode to a prefix of that list, and all chunks to the whole list. |
| RadioProtocol.SendKeepsPending | connection/src/protocol/proto2025/mod.rs:160-210 | Sending leaves the stream of pending chunks (outstanding, queued, and those of queued datagrams) unchanged: none is lost, duplicated or reordered. |
| RadioProtocol.QueueExtendsPending | connection/src/protocol/proto2025/mod.rs:156-158 | Queueing extends the pending stream only at its end, by the datagram's chunks. |
| RadioProtocol.ReceiveShortensPending | connection/src/protocol/proto2025/mod.rs:112-117 | A matching acknowledgement removes exactly the head of the pending stream, which is the outstanding chunk; any other packet changes nothing. |
| RadioProtocol.ReachableHostInv | connection/src/protocol/proto2025/mod.rs:119-149 | After any calls with any packets, duplicates and interleaved types included: the buffer's type is unset iff it is empty, it holds a multiple of 27 bytes below the type's size and at most 81; the resend counter of an outstanding chunk is 0 or 1. |
| RadioProtocol.CounterNumbersSends | connection/src/protocol/proto2025/mod.rs:163-168 | The header counter is the number of sends so far modulo 64, whatever calls lie between. |
| RadioProtocol.AcknumNamesLastDatagram | connection/src/protocol/proto2025/mod.rs:163-166 | After any calls, the acknowledgement number of the next header is the sequence number of the last received datagram packet, or 1 if there was none. |
| RadioProtocol.ResendEverySecondCycle | connection/src/protocol/proto2025/mod.rs:170-202 | Of two consecutive sends with the same unacknowledged chunk outstanding, exactly one carries that chunk unchanged and the other the caller's regular data, for any unrelated calls in between. |
| RadioProtocol.RadioProtocol2025.constructor | connection/src/protocol/proto2025/mod.rs:37-50 | The new object satisfies the invariant, with both sequence numbers 1 and nothing pending. |
| RadioProtocol.RadioProtocol2025.GetNextDatagramChunk | connection/src/protocol/proto2025/mod.rs:52-80 | The method refines taking the head of the pending stream, ingesting one datagram when no chunk is left. |
| RadioProtocol.RadioProtocol2025.PushChunks | connection/src/protocol/proto2025/mod.rs:62-73 | The chunking loop pushes exactly the recursive split of the data, zero-padded. |
| RadioProtocol.RadioProtocol2025.PacketReceived | connection/src/protocol/proto2025/mod.rs:100-154 | The method refines the value-level receive, keeps the invariant, remembers the number of a datagram packet and no other, and always has enough bytes for the final conversion. |
| RadioProtocol.RadioProtocol2025.QueueDatagram | connection/src/protocol/proto2025/mod.rs:156-158 | Only the datagram queue changes; the pending stream grows at its end. |
| RadioProtocol.RadioProtocol2025.NextPacket | connection/src/protocol/proto2025/mod.rs:160-210 | The method refines the value-level send, keeps the invariant and the pending stream; the header carries the counter and the last received number as they were before the call. |
| LossyLink.HostSendKeepsInv | connection/src/protocol/proto2025/mod.rs:170-195 | A send, first or repeated, keeps the stop-and-wait invariant between host, robot and channels. |
| LossyLink.AckKeepsInv | connection/src/protocol/proto2025/mod.rs:112-117 | Receiving an acknowledgement moves the outstanding chunk to the dropped ones, which then are the accepted ones, and every reply still in flight carries the number just acknowledged; the invariant is kept. |
| LossyLink.StepKeepsInv | connection/src/protocol/proto2025/mod.rs:100-210 | Every atomic step, loss and repetition in either channel included, keeps the invariant. |
| LossyLink.RunKeepsInv | connection/src/protocol/proto2025/mod.rs:100-210 | The invariant holds along every run. |
| LossyLink.ExactlyOnceInOrder | connection/src/protocol/proto2025/mod.rs:112-195 | After any run the accepted chunks are a prefix of the chunk stream of all queued datagrams; they are the dropped chunks plus at most the outstanding one, and dropped plus pending chunks are the whole stream. |
| LossyLink.CommandsExactlyOnceInOrder | connection/src/protocol/proto2025/mod.rs:112-195 | The commands that the robot can decode from the accepted chunks are a prefix of those queued, and all of them once nothing is pending. |
| StaleRobot.ExactlyOnceIffRobotRemembersOne | connection/src/protocol/proto2025/mod.rs:45-46 | Exactly-once delivery holds of all runs iff the robot remembers number 1 when the host starts afresh. |
| StaleRobot.FirstChunkIsLost | connection/src/driver.rs:322-333 | With a robot that remembers 0, after any run either no chunk has left the host, or the very first chunk counts as delivered without being accepted and all others are delivered exactly once and in order. |
| StaleRobot.DroppedUnaccepted | connection/src/protocol/proto2025/mod.rs:112-117 | A run of four steps in which that first chunk is dropped as acknowledged and not accepted. |
| BoundedProgress.RoundProgress | connection/src/protocol/proto2025/mod.rs:160-202 | A delivered round brings completion at least one round closer; a lost one moves it away by at most one. |
| BoundedProgress.RoundsFinish | connection/src/protocol/proto2025/mod.rs:160-202 | From any state with empty channels, Remaining + 2L rounds with L losses leave nothing pending. |
| BoundedProgress.BoundedDelivery | connection/src/protocol/proto2025/mod.rs:160-202 | N pending chunks, none outstanding: after N + 2L rounds of which at most L lost a packet, all are accepted by the robot and dropped by the host. |
| BoundedProgress.LossCostsTwoRounds | connection/src/protocol/proto2025/mod.rs:170-202 | The price is real: for every L there are 2L rounds with L losses that deliver nothing. |
| Reassembly.DatagramRoundTrip | connection/src/protocol/proto2025/mod.rs:119-149 | The chunks of one response datagram make the host hand out that datagram, without padding, and leave the buffer empty. |
| Reassembly.CompletesOnLastChunk | connection/src/protocol/proto2025/mod.rs:139-149 | No proper prefix of the ceil(size/27) chunks completes the datagram. |
| Reassembly.ReassemblyRoundTrip | connection/src/protocol/proto2025/mod.rs:100-154 | Any list of datagrams whose chunks arrive once and in order, among any regular packets, is handed out exactly. |
| Reassembly.DeliveredIffNoChunkRepeats | connection/src/protocol/proto2025/mod.rs:125-137 | For a list of datagrams of one type whose chunks arrive in order and each at least once: exactly the list is handed out and the buffer ends empty iff no chunk arrives twice. |
| Reassembly.HandedOutIff | connection/src/protocol/proto2025/mod.rs:125-149 | One datagram of k chunks, each arriving any number of times: exactly it is handed out, whatever stays in the buffer, iff k to 2k-1 chunks arrive and the first k of them carry its bytes. |
| Reassembly.OutputOfOneType | connection/src/protocol/proto2025/mod.rs:125-149 | A stream of chunks of one type hands out one datagram from every full group of k chunks. |
| Reassembly.RunsAreIndependent | connection/src/protocol/proto2025/mod.rs:128-133 | Stray chunks never survive a change of type: runs of chunks of one type are received independently. |
| Reassembly.OutputOfAnyStream | connection/src/protocol/proto2025/mod.rs:119-149 | Any stream of chunks, repetitions and type changes included, hands out exactly the full groups of its runs. |
| Reassembly.RepeatInZeroEchoIsNotNoticed | connection/src/protocol/proto2025/mod.rs:125-149 | An echo of zeros with a repeated chunk is still handed out exactly once. |
| Reassembly.StrayChunkIsCleared | connection/src/protocol/proto2025/mod.rs:128-133 | A repeated last chunk of an echo is cleared by the following robot id, and both datagrams are handed out exactly. |
| Reassembly.RepeatedIdIsHandedOutTwice | connection/src/protocol/proto2025/mod.rs:125-137 | The smallest failing case: a repeated one-chunk datagram is handed out twice. |
| ReverseLink.MoveKeepsInv | connection/src/protocol/proto2025/mod.rs:119-166 | Every step of the reverse link, loss and repetition in both channels included, keeps its invariant: what is on its way to the host under the last received number is a copy of the last received packet. |
| ReverseLink.ReceivedIsRepeated | connection/src/protocol/proto2025/mod.rs:119-137 | Packets that repeat only their predecessor are the chunks that came under a new number, each repeated on the spot. |
| ReverseLink.ResponsesArriveInOrder | connection/src/protocol/proto2025/mod.rs:125-166 | After any run the robot has dropped no chunk that the host has not received: the chunks that came under a new number are a prefix of the response stream and are the dropped ones plus at most the outstanding one; each came at least once, on the spot, and the host has handed out the full groups of what came. |
| ReverseLink.ExactlyOnceIffNoneRepeated | connection/src/protocol/proto2025/mod.rs:125-149 | When the robot has nothing left, responses of one type have been handed out exactly as queued, with an empty buffer, iff the host received no chunk twice. |
| ReverseLink.LostAckHandsOutTwice | connection/src/protocol/proto2025/packet.rs:82-84 | A failing run: one lost header makes the robot send a robot id again, and the host hands it out twice. |
| IdFilter.MaskOf | connection/src/utils/id_filter.rs:14-19 | The bits of the word are exactly the listed ids below 32. |
| IdFilter.WithWhitelist | connection/src/utils/id_filter.rs:13-22 | The new filter accepts an id iff it is listed and the rest of the filter accepts it. |
| IdFilter.WithBlacklist | connection/src/utils/id_filter.rs:24-33 | The new filter accepts an id iff it is not listed and the rest of the filter accepts it; ids above 31 never. |
| DualMap.DualHashMap.UniqueKeys | connection/src/utils/dual_map.rs:8-11 | In a consistent map either key identifies an entry. |
| DualMap.DualHashMap.RemovePrim | connection/src/utils/dual_map.rs:93-103 | The set of triples loses exactly the entry with that primary key; the maps stay inverse. |
| DualMap.DualHashMap.RemoveSec | connection/src/utils/dual_map.rs:106-117 | The set of triples loses exactly the entry with that secondary key; the maps stay inverse. |
| DualMap.DualHashMap.Insert | connection/src/utils/dual_map.rs:45-52 | Every triple sharing either key gives way to the new one, for every pattern of partial key clashes. |
| DualMap.DualHashMap.GetSec | connection/src/utils/dual_map.rs:64-71 | The result is the triple with that secondary key; none means there is no such triple. |
| DualMap.DualHashMap.Retain | connection/src/utils/dual_map.rs:120-131 | Exactly the triples the predicate keeps survive, with the values it wrote; each other one is visited and dropped once. |
| DualMap.DualHashMap.Clear | connection/src/utils/dual_map.rs:162-165 | Both maps end empty. |
| Transceivers.Minimum | connection/src/transceivers/udp.rs:166-166 | The result is a least deadline of the table; none means the table is empty. |
| Transceivers.DisciplineConcat | connection/src/driver.rs:261-311 | Disciplined event lists (announce only what is not live, remove and hear only what is) compose in order. |
| Transceivers.DisciplineFrame | connection/src/driver.rs:298-308 | Transceivers with different kinds of addresses do not disturb each other's discipline. |
| Transceivers.DisconnectsReport | connection/src/transceivers/udp.rs:157-165 | Reporting distinct live addresses one after the other is disciplined and names each once. |
| Deadlines.PacketsMoveDeadlines | connection/src/transceivers/udp.rs:388-393 | A burst of packets gives every known address it comes from the arrival time of its last packet plus the timeout, and leaves every other deadline as it is. |
| Deadlines.FirstAnnouncementCounts | connection/src/transceivers/udp.rs:363-365 | A new address enters with its first announcement plus the timeout. |
| Deadlines.KnownIffLastSign | connection/src/transceivers/udp.rs:156-166 | Over any list of announcements, packets and expiries: an address is in the table iff it has a last sign (a packet while it was known, or the announcement that entered it, with no packet and no overdue expiry since), and its deadline is the timeout after that sign. |
| Deadlines.ExpiryRemovesIff | connection/src/transceivers/udp.rs:156-165 | So an expiry removes an address iff its last announcement or packet lies more than the timeout before. |
| UdpTransceivers.OneDataAddrPerHost | connection/src/transceivers/udp.rs:350-361 | Beacons of one host have one data address, at port 11001, whatever port they come from; different hosts have different ones. |
| UdpTransceivers.BeaconsEnter | connection/src/transceivers/udp.rs:344-370 | An address that is not in the table enters iff a beacon from it is accepted, with the deadline of the first such beacon; the others stay as they are. |
| UdpTransceivers.DiscoverAllIs | connection/src/transceivers/udp.rs:334-376 | Folding beacons into the table reports, read by read, an error or the first accepted beacon of a new address, under the id in the buffer. |
| UdpTransceivers.RetainNotBefore | connection/src/transceivers/udp.rs:157-165 | The expiry loop keeps exactly the entries not before `now` and reports each removed one once. |
| UdpTransceivers.UdpTransceiver.NextTimeout | connection/src/transceivers/udp.rs:114-117 | The driver waits for the earlier of the beacon time and the cached deadline. |
| UdpTransceivers.UdpTransceiver.MioTimeout | connection/src/transceivers/udp.rs:148-174 | The cache stays the minimum of the table; no deadline before `now` survives, no other entry is touched, and each removed connection gives exactly one Disconnected event. |
| UdpTransceivers.UdpTransceiver.MioEvent | connection/src/transceivers/udp.rs:176-199 | The cache is the minimum again; table and events are those of the socket's reads: every packet from a known address and every new address is reported; an unknown token changes nothing. |
| UdpTransceivers.DiscoverAllDisciplined | connection/src/transceivers/udp.rs:344-370 | However beacons repeat, an address in the table is never announced again, and announced ids pass the filter. |
| UdpTransceivers.UdpTransceiver.ReceiveDiscoveryPackets | connection/src/transceivers/udp.rs:334-376 | Every new address with an accepted beacon enters with the deadline of the first one and is announced under its id; no other entry changes; the events are disciplined. |
| UdpTransceivers.UdpTransceiver.ReceiveDataPackets | connection/src/transceivers/udp.rs:378-405 | Every known address that sent a packet has as deadline the arrival time of its last packet plus the timeout, every other deadline is unchanged; every packet from a known address is reported, others are dropped. |
| SerialTransceivers.DroppedAddresses | connection/src/transceivers/serial.rs:108-122 | The entries an expiry removes have distinct addresses, which are exactly what the live set loses. |
| SerialTransceivers.AllAnsweredIs | connection/src/transceivers/serial.rs:225-293 | Every port with an accepted answer gets its connection, with a deadline that follows the answer, and no other entry is made or changed; the events are, port by port, an announcement or an error. |
| SerialTransceivers.PacketsSeen | connection/src/transceivers/serial.rs:350-355 | Packets move the deadline of their port's connection as sightings of it do. |
| SerialTransceivers.SerialTransceiver.NextTimeout | connection/src/transceivers/serial.rs:43-47 | The driver waits for the earlier of the discovery time and the cached deadline. |
| SerialTransceivers.SerialTransceiver.MioTimeout | connection/src/transceivers/serial.rs:85-125 | The cache stays a lower bound, present whenever there is a connection; the table afterwards is the discovered one without its expired entries, and the Disconnected events of the whole call name exactly the addresses that left it, each once; the deadlines are those that the accepted answers and the expiry lead to; the discovery state alternates, and the events are disciplined. |
| SerialTransceivers.SerialTransceiver.Expire | connection/src/transceivers/serial.rs:108-124 | Exactly the connections before `now` go, each reported once. |
| SerialTransceivers.SerialTransceiver.StartDiscovery | connection/src/transceivers/serial.rs:159-223 | Exactly the new ports that open, take the greeting and register are kept, in order and under fresh tokens, with as many errors as new ports that failed. |
| SerialTransceivers.SerialTransceiver.EndDiscovery | connection/src/transceivers/serial.rs:225-293 | Exactly the ports with accepted answers are connected and announced, each with a deadline that follows its answer; no connection is evicted and none announced twice. |
| SerialTransceivers.SerialTransceiver.Connect | connection/src/transceivers/serial.rs:268-285 | A new connection evicts nothing, its address was not live, and the cache stays a lower bound. |
| SerialTransceivers.SerialTransceiver.MioEvent | connection/src/transceivers/serial.rs:127-141 | The deadline of the token's connection follows its last packet and nothing else in the table changes; its packets are reported in order; the cache stays a lower bound. |
| ConnectionLog.ReplayIsLastConnection | connection/src/utils/cache.rs:17-38 | For every log, the replayed cache holds a robot iff its last connection is still open, with that connection's address and the latest response received on it. |
| ConnectionLog.ConnectionStateCache.UpdateWith | connection/src/utils/cache.rs:17-38 | Updating the cache with an event replays the log extended by that event. |
| ConnectionDrivers.ConnectAgreesIff | connection/src/driver.rs:317-340 | A connected event keeps table and replica in agreement iff the robot is already known or no robot holds the address. |
| ConnectionDrivers.HandleKeepsInv | connection/src/driver.rs:315-387 | Every event a disciplined transceiver may emit keeps the driver's invariant. |
| ConnectionDrivers.HandleAllKeepsInv | connection/src/driver.rs:315-387 | So does every disciplined batch; the live addresses follow the events. |
| ConnectionDrivers.StepKeepsInv | connection/src/driver.rs:180-201 | Batches and the calls of the driver's user keep the invariant. |
| ConnectionDrivers.ReplicaAgreement | connection/src/driver.rs:313-387 | After every run, replaying the log gives exactly the table's robots and addresses; Connected and Disconnected alternate per robot with packet events only in between; connected ids are below 32 and their addresses live and distinct. |
| ConnectionDrivers.ConnectionDriver.constructor | connection/src/driver.rs:141-178 | The initial state satisfies the whole invariant, exact filters included. |
| ConnectionDrivers.ConnectionDriver.HandleTimeouts | connection/src/driver.rs:264-277 | Whether or not the earliest cached timeout has passed, afterwards no connection of either transceiver has a deadline before `now`, and exactly the overdue addresses are reported, each once; the events are disciplined. |
| ConnectionDrivers.ConnectionDriver.HandleIo | connection/src/driver.rs:279-311 | Passing an event to every transceiver yields exactly what each of them reports of it, in disciplined order, and leads to the tables that follow from it. |
| ConnectionDrivers.ConnectionDriver.ProcessEvent | connection/src/driver.rs:316-386 | One event updates table and log as the value-level handler does; only Connected and Disconnected change the set of robots. |
| ConnectionDrivers.ConnectionDriver.ProcessEvents | connection/src/driver.rs:313-387 | The event loop folds the handler; without a filter update the set of connected ids is unchanged. |
| ConnectionDrivers.ConnectionDriver.UpdateFilters | connection/src/driver.rs:389-401 | Afterwards both filters accept an id iff it is below 32 and not connected. |
| ConnectionDrivers.ConnectionDriver.LoopIteration | connection/src/driver.rs:244-402 | One turn of the loop is one legal batch of the abstract run and restores exact filters. No input is passed over: the batch is what the expiry reports, followed by what every poll event makes the transceivers report. The deadlines afterwards are those that follow from all that was seen in the turn. |
| ConnectionDrivers.DeadlinesAfterIos | connection/src/driver.rs:279-311 | Any poll events move the deadlines of both transceivers as the list of what is seen in them does. |
| ConnectionDrivers.ConnectionDriver.SendPacketTo | connection/src/driver.rs:180-194 | Sends through the robot's protocol object iff it is connected; nothing else changes. |
| ConnectionDrivers.ConnectionDriver.QueueDatagramFor | connection/src/driver.rs:196-201 | Queues at the robot's protocol object iff it is connected; nothing else changes. |
| DriverSessions.ActMatches | connection/src/driver.rs:180-387 | Every event and every call of the user changes the entry and the log of a robot as its session says, and of no other robot. |
| DriverSessions.StateIsSession | connection/src/driver.rs:313-387 | At every moment of every run: a robot is connected iff it has a session, at the session's address; its stored protocol state is that of a new protocol object after the sends, queueings and packets of that session; the datagrams logged since it connected are those its packets make up, and the regular responses logged are those that came while there was room. |
| DriverSessions.SessionIsOpen | connection/src/driver.rs:341-352 | A session's address is not disconnected after the connected event that opened the session. |
| DriverSessions.NextHeader | connection/src/driver.rs:180-187 | The header of the next packet to a connected robot carries the number of packets sent in its session modulo 64, and the number of the last datagram packet received in it, or 1. |
| Metrics.SentKeepsConserved | connection/src/utils/metrics_tracker.rs:44-62 | A call of `sent` adds one call and keeps every call in exactly one place: sampled, pending or overwritten. |
| Metrics.ReceivedKeepsConserved | connection/src/utils/metrics_tracker.rs:64-71 | A response moves at most one call from pending to sampled. |
| Metrics.DrivenRunConserves | connection/src/utils/metrics_tracker.rs:44-71 | Along every run under the 6-bit counter: calls = samples + pending + overwritten, with at most one fate per call, and every pending entry is one of the last 64 sends. |
| Metrics.DrivenStepKeepsRecent | connection/src/utils/metrics_tracker.rs:44-71 | A step overwrites at most one entry, and only that of the packet sent exactly 64 sends earlier. |
| Metrics.MayOverwriteIff | connection/src/utils/metrics_tracker.rs:45-61 | For any send times and any `max_pending`: a send may overwrite an entry iff the packet sent 64 sends earlier is pending and there is room, or another entry is as old as any. |
| Metrics.MustOverwriteIff | connection/src/utils/metrics_tracker.rs:45-61 | Every outcome of the send overwrites an entry iff that packet is pending and there is room, or it is not the oldest. |
| Metrics.OverwritesAlongRun | connection/src/utils/metrics_tracker.rs:45-61 | Along every run a send overwrites when it must and only when it may; with increasing send times, iff that packet is still pending and fewer than `max_pending` packets are. |
| Metrics.EveryScheduleRuns | connection/src/utils/metrics_tracker.rs:44-71 | Every schedule of sends and answers has a run; the eviction loop always ends. |
| Metrics.EvictsOldest | connection/src/utils/metrics_tracker.rs:46-59 | With a full table that packet is the oldest, so it is evicted as lost and not overwritten. |
| Metrics.LoneLossVanishes | connection/src/utils/metrics_tracker.rs:45-61 | For every `max_pending` of at least 2, a schedule of 65 sends with one lost packet has a run, and in every such run the loss is overwritten and no loss sample ever appears. |
| Metrics.SampleIsOwnIff | connection/src/utils/metrics_tracker.rs:64-71 | The answer to a packet takes a sample iff something is pending under its counter, with the time since the recorded send time; that sample is the packet's own iff fewer than 64 packets were sent after it; otherwise a later packet is credited. |
| Metrics.TimesAreSendTimes | connection/src/utils/metrics_tracker.rs:44-71 | Along every run, what is pending or sampled for a packet carries the time at which that packet was sent. |
| Metrics.OwnSampleIsTrue | connection/src/utils/metrics_tracker.rs:64-71 | An answer in time to a pending packet gives exactly one sample: that packet, its send time, and the time since. |
| Metrics.LateAnswerIsMistaken | connection/src/utils/metrics_tracker.rs:64-71 | A failing case: there is a run in which the answer to packet 0 is reported as the round-trip time of packet 64. |
| Metrics.MetricsTracker.Oldest | connection/src/utils/metrics_tracker.rs:47-51 | The result is a pending counter with the smallest time; none means nothing is pending. |
| Metrics.MetricsTracker.Sent | connection/src/utils/metrics_tracker.rs:44-62 | The eviction loop and the insertion refine the value-level step and keep conservation. |
| Metrics.MetricsTracker.ReceivedAt | connection/src/utils/metrics_tracker.rs:64-71 | Refines the value-level step: one sample with the saturating time difference, or none for an unknown counter. |
| TrackedProtocol.TrackedRunIsDriven | connection/src/protocol/proto2025/mod.rs:100-210 | Every run of the protocol object with metrics is, for the tracker, a run under the counter that the packets carry. |
| TrackedProtocol.NextPacketOverwritesIff | connection/src/protocol/proto2025/mod.rs:160-209 | Along such runs every call has one fate, and the next packet's counter overwrites an entry when it must and only when it may; with increasing send times, iff the packet sent 64 packets earlier is still pending while fewer than `max_pending` are. |
| TrackedProtocol.ResponseSampleIsOwnIff | connection/src/protocol/proto2025/mod.rs:105-110 | The sample a response takes is its packet's own iff fewer than 64 packets were sent after that. |
| TrackedProtocol.TrackedRadioProtocol.NextPacket | connection/src/protocol/proto2025/mod.rs:160-210 | Sends as the protocol object does and hands the header's counter to the tracker; the counter stays in step with the tracker's calls. |
| TrackedProtocol.TrackedRadioProtocol.PacketReceived | connection/src/protocol/proto2025/mod.rs:100-154 | Hands the header's counter to the tracker and receives as the protocol object does. |
| LossHistory.PushRefines | udp2serial/src/mock.rs:79-83 | Shift, clear and set turn the word of a history into the word of the history with the gap and the new packet. |
| LossHistory.MissingIsSkipped | udp2serial/src/mock.rs:92-94 | 100 minus the ones of the masked word is the number of skipped entries among the last 100; positions before any history count as skipped. |
| LossHistory.MockResponder.Handle | udp2serial/src/mock.rs:63-104 | Keeps the word a refinement of the plain received/skipped list, whether or not the answer is suppressed; answers iff neither command nor response is suppressed, with the number of skipped entries among the last 100. |
| LossHistory.MockResponder.Run | udp2serial/src/mock.rs:48-106 | For any sequence of commands and any pattern of suppressed commands and responses: each answer is the number of packets really lost among the last 100, as long as those received so far came in order and with small gaps. |
| LossHistory.HistoryIsTrueIff | udp2serial/src/mock.rs:73-83 | For packets that arrive in the order of sending, each any number of times: the recorded list is the truth about which arrived iff fewer than 64 counters separate consecutive arrivals. |
| LossHistory.ReportIsTrueLosses | udp2serial/src/mock.rs:92-94 | With such arrivals and gaps the reported number is the number of packets really lost among the last 100. |
| LossHistory.AnswerIsTrueLosses | udp2serial/src/mock.rs:63-95 | The same of the answer itself, with suppressed commands counted as lost; no answer iff the command or its response is suppressed. |
| LossHistory.FirstAnswerIs99 | udp2serial/src/mock.rs:93-95 | The first packet is answered with 99: numbers before it count as lost. |
| LossHistory.OvertakingCountsAsLosses | udp2serial/src/mock.rs:75-83 | Out of order it fails: after packets 2 and 1, in this order, 65 entries are recorded for 2 packets. |
| LossHistory.WholeTurnIsNotSeen | udp2serial/src/mock.rs:75-79 | A failing case: after a whole turn of the counter an arrival and 63 losses leave no trace. |
| Cobs.RoundTrip | udp2serial/src/serial.rs:155-155 | Decoding an encoding gives the data back, for data of any length. |
| Cobs.EncodeHasNoZero | udp2serial/src/serial.rs:155-156 | An encoding contains no zero, so the delimiter is unambiguous. |
| Cobs.EncodeLength | udp2serial/src/serial.rs:171-173 | Data of fewer than 254 bytes grows by exactly one byte. |
| Cobs.DecodeIsInverse | udp2serial/src/serial.rs:201-209 | A short frame that decodes is the encoding of what it decodes to. |
| SerialFraming.WriteSerialPacket | udp2serial/src/serial.rs:152-159 | Appends exactly the frame of the message to the output. |
| SerialFraming.ReadSerialPacket | udp2serial/src/serial.rs:163-222 | The reading loop refines the recursive reader in its result, its errors and the input it leaves. |
| SerialFraming.FirstFailureEndsRead | udp2serial/src/serial.rs:175-190 | The first failure or passed deadline ends a read with its own error, unless 32 nonzero bytes came in a row before it; then the read is over already, with the same result as without it. |
| SerialFraming.AcceptedIffFrame | udp2serial/src/serial.rs:201-221 | A full buffer is accepted as message m iff it is the encoding of m and its checksum. |
| SerialFraming.OneByteDamageIsRejected | udp2serial/src/serial.rs:146-148 | The checksum itself: any change of one byte of a message or its checksum before encoding is reported as a mismatch. |
| FrameDamage.AcceptedIff | udp2serial/src/serial.rs:201-221 | A full buffer is accepted iff it decodes and the XOR of all its bytes is the XOR of its overhead bytes; one that decodes otherwise is a checksum mismatch. |
| FrameDamage.DataDamageIsRejected | udp2serial/src/serial.rs:201-217 | In an accepted frame, every nonzero change of a byte other than an overhead byte is reported as a mismatch. |
| FrameDamage.DamageAcceptedIff | udp2serial/src/serial.rs:201-221 | One changed byte anywhere in an accepted frame goes unnoticed iff the damaged frame decodes and the XOR of its overhead bytes is that of the good frame's, the old and the new byte. |
| FrameDamage.OverheadDamageIsAccepted | udp2serial/src/serial.rs:201-221 | A failing case for every choice of 27 further bytes: one changed overhead byte turns the message into another that is accepted. |
| FrameDamage.DamageStaysInFrame | udp2serial/src/serial.rs:173-198 | Whatever the bytes of a frame turn into, zeros included, the messages after it are read as if nothing had happened. |
| SerialFraming.PausesDoNotMatter | udp2serial/src/serial.rs:183-190 | How the bytes are spaced out in time does not change what is read. |
| SerialFraming.Resynchronise | udp2serial/src/serial.rs:192-197 | Garbage that ends in a zero and has no 32 nonzero bytes in a row leaves no trace. |
| SerialFraming.StreamRoundTrip | udp2serial/src/serial.rs:152-222 | Repeated reads over the frames of any list of 30-byte messages, after any such garbage and with any pauses, return that list in order. |
| FloatCodecs.SignedCodeRoundTrip | connection/src/protocol/deku_helpers.rs:105-154 | Encoding a decoded signed code gives the code back, for every codec. |
| FloatCodecs.SignedMonotone | connection/src/protocol/deku_helpers.rs:130-154 | Signed encoding is monotone. |
| FloatCodecs.SignedErrorBound | connection/src/protocol/deku_helpers.rs:105-154 | A clamped value is reconstructed up to (1/2 + 0.00000001) steps, a step being the range divided by 2^bits - 1. |
| FloatCodecs.ZeroEncodesToZero | connection/src/protocol/deku_helpers.rs:146-151 | On a symmetric range zero encodes to zero, and without the added epsilon it would encode to -1. |
| FloatCodecs.UnsignedCodeRoundTrip | connection/src/protocol/deku_helpers.rs:156-198 | Encoding a decoded unsigned code gives the code back. |
| FloatCodecs.UnsignedMonotone | connection/src/protocol/deku_helpers.rs:180-198 | Unsigned encoding is monotone. |
| FloatCodecs.UnsignedErrorBound | connection/src/protocol/deku_helpers.rs:156-198 | A clamped value is reconstructed up to half a step, a step being the range divided by 2^bits - 1. |
| FloatCodecs.NormalizeAngle | connection/src/protocol/proto2025/packet.rs:46-54 | The loops end with an angle in [-PI, PI) that differs by whole turns. |
| FloatCodecs.NormalFormIsUnique | connection/src/protocol/proto2025/packet.rs:46-54 | There is only one such angle. |
| ConfigLines.KindTests | wifi-switcher/src/unix.rs:89-103 | The tests of reader and editor exclude each other however they are nested, except that `disabled=1` is a case of `disabled=`. |
| ConfigLines.DisabledKind | wifi-switcher/src/unix.rs:146-146 | The line the editor writes is one the reader counts as disabling. |
| WpaConfig.ReadsBlocks | wifi-switcher/src/unix.rs:84-103 | The states read are those of the blocks that close, in order; a block is enabled iff no line between its last opening line and its closing line disables it. |
| WpaConfig.ReadAfterSetFrom | wifi-switcher/src/unix.rs:84-170 | From any states of both automata: every block that closes reads as its given state where the editor's number for it is covered, and as before elsewhere. |
| WpaConfig.WellFormedIsAligned | wifi-switcher/src/unix.rs:92-101 | A file without an opening line inside an open block is aligned. |
| WpaConfig.SetIsReadIffAligned | wifi-switcher/src/unix.rs:84-170 | Reading after setting gives the given states, and the original ones for further networks, for all states, iff every k-th closing block is the k-th opened one. |
| WpaConfig.HeaderInsideMisnumbers | wifi-switcher/src/unix.rs:126-132 | A file that is not aligned: its only network, enabled by the edit, still reads as disabled. |
| WpaConfig.SetIsIdempotent | wifi-switcher/src/unix.rs:121-170 | Setting the same states twice is setting them once, for every file. |
| WpaConfig.SetIsConservative | wifi-switcher/src/unix.rs:121-170 | Of the lines read, all but flag lines inside controlled blocks survive in order, and nothing but such flag lines is added. |
| WpaConfig.EditIsConservativeIff | wifi-switcher/src/unix.rs:111-177 | Of the whole file, the text lines that an edit must not touch survive in order iff none of them follows a line that is not valid text. |
| WpaConfig.EditLosesNothingIff | wifi-switcher/src/unix.rs:111-177 | Counting the invalid lines as well, no line that an edit must not touch is lost iff every line is valid text. |
| WpaConfig.InvalidFirstLineErases | wifi-switcher/src/unix.rs:111-114 | A failing case: a file whose first line is not valid text is erased by every edit. |
| WpaConfig.SetTextClassifies | wifi-switcher/src/unix.rs:122-170 | Lines read back in are classified as the editor meant them, so the theorems about lines hold of the text. |
| WpaConfig.ReadEnabledStates | wifi-switcher/src/unix.rs:80-106 | The reading loop refines the reader automaton on the readable lines. |
| WpaConfig.RewriteLine | wifi-switcher/src/unix.rs:122-169 | What the loop body pushes for a line, and its three state variables, are those of the editor automaton. |
| WpaConfig.RewriteLines | wifi-switcher/src/unix.rs:116-170 | The editing loop refines the editor automaton. |
| WpaConfig.SetEnabledStates | wifi-switcher/src/unix.rs:109-189 | The file becomes the edited text of its readable lines, or stays as it is when it cannot be written; its other lines survive exactly under the two conditions above; the daemon is told to reload either way. |
| WpaConfig.UpdateWpaConfig | wifi-switcher/src/unix.rs:55-77 | Afterwards, in an aligned file, a network that the jumpers cover is enabled iff its jumper is set, or it is the first one and no jumper is set; further networks read as before. File and daemon are left alone iff the file already reads like that, with as many networks as jumpers. |
| WpaConfig.UpdateSettlesIff | wifi-switcher/src/unix.rs:70-74 | Repeating an update never changes the text again. It leaves an aligned file and the daemon alone iff the file has as many networks as there are jumpers; otherwise every event writes and reloads. |

## Left out

- LossyLink.ExactlyOnceInOrder: does not cover reordering channels, which a one-bit sequence number cannot survive.
- ReverseLink.ResponsesArriveInOrder: likewise; and when the robot repeats a chunk is left open, so no bound on progress is stated.
- FloatCodecs.SignedErrorBound: over real numbers; rounding of floating-point arithmetic, NaN and widths above the integer type are not modelled.
- FloatCodecs.NormalizeAngle: over real numbers, where the loops always end; a huge floating-point angle may not.
- DualMap.DualHashMap.SetValue: stands for writing through the references that the mutable getters hand out.
- DualMap.DualHashMap.Retain: the predicate is a function that returns the new value; the dropped entries are returned instead of being seen by a closure.
- WpaConfig.SetEnabledStates: a write that fails halfway is not modelled, and of the reload only that it is asked for.
- SerialFraming.ReadSerialPacket: a finite input that runs dry gives an error of its own, since the model has no blocking read.
- SerialTransceivers.SerialTransceiver.EndDiscovery: reading and parsing the answer of a port is an input, since it is text processing without state.
- SerialTransceivers.SerialTransceiver.StartDiscovery: the filter on port kinds and the single error event of a failed port listing are not modelled; `available` is what passed the filter.
- Bit layout and byte order of packets, and the packed form of structures, which are carried as bytes.
- The receive loop of serial connections (`connection/src/transceivers/serial.rs`, lines 306-367): its packets and read errors are inputs.
- UdpTransceivers.UdpTransceiver.ReceiveDataPackets: stale bytes behind a short datagram are not modelled; packets are values that arrive whole.
- ConnectionDrivers.ConnectionDriver.ProcessEvent: installing the metrics callback and its samples in the log are not modelled; `TrackedProtocol` has the tracker.
- RadioProtocol.RadioProtocol2025.PacketReceived: an unknown type tag, which makes the code panic, is not modelled.
- LossHistory.MockResponder.Handle: the accumulators for simulated losses are one flag each per command; scaling the answer to a byte and the check for the active sender are not modelled.
- The sliding-window analyser of metrics samples, the periodic sender and the metrics logger.
- Threads, locks and channel capacity: steps are atomic and the log is unbounded, except that a regular packet may be dropped.
- Socket set-up, multicast, polling, GPIO and process calls.
