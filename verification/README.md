# A verified model of govpn

govpn is an OpenVPN server library in Go with a small user-space network stack behind it. This project models the parts of it
whose correctness is about unbounded runs, and proves what they promise. `dafny verify dfyconfig.toml` checks everything.

| part | modules |
|---|---|
| machine words and big-endian fields | `Words` |
| control channel: packets, reliability windows, both endpoints over a lossy network | `Wire`, `Windows`, `Reliable`, `SendWindow`, `Backoff`, `Schedule`, `ReceiveWindow`, `ControlChannel`, `ControlChannelSafety`, `ControlChannelService`, `Pump`, `CtrlConn` |
| IPv4: checksums, fragmentation, reassembly, their round trip | `Checksum`, `IPv4`, `Holes`, `Reassembly`, `ReassemblyTable`, `ReassemblySafety`, `Outcomes`, `Reassembler`, `Feeding`, `RoundTrip` |
| data channel: replay window, sealing, delivery across key rollovers | `Replay`, `DataChannel`, `Delivery`, `DeliverySafety`, `Arrivals`, `DataSession` |
| session lifecycle: address pool, bring-up and teardown | `IpPool`, `Lifecycle`, `LifecycleSafety` |
| renegotiation: key slots, handshakes, watchdogs, teardown | `KeySlots`, `KeyRollover`, `KeyRolloverSafety`, `KeyRolloverTiming` |
| TCP: both halves, the timer, the phases, a connection in place | `Tcp`, `TcpReceive`, `TcpSend`, `TcpTimer`, `TcpRun`, `TcpSafety`, `TcpTakeIn`, `TcpInflow`, `TcpRetire`, `TcpOutflow`, `TcpPhases`, `TcpConnection` |
| TCP accounting: counters, table, backlogs | `TcpDemux`, `TcpDemuxSafety`, `TcpHandover` |

How the model is built:

- State that one object updates in place is a class (`Reliable`, `Conn`, `Reassembler`, `ReplayWindow`, `DataWrapper`,
  `Session`, `AddressPool`, `KeyTable`, `TcpConn`, `Counters`, `Backlog`). Each of its methods is proved equal to a function
  on values, and the theorems over runs are about those functions.
- Goroutines that meet only under locks are transition systems whose steps are the lock-held blocks, taken in any order:
  bring-up and teardown (`Lifecycle`), renegotiation (`KeyRollover`), connection accounting (`TcpDemux`). A step that a
  goroutine still owes is part of the state, so "nothing under way" can be said.
- uint8, uint16 and uint32 are bounded integers with wrap-around written out; a uint64 bitmap is its 64 bits; an int64
  duration is an integer with its overflow written out. Packet ids and sequence numbers carry unbounded ghost offsets in the
  theorems, so wrap-around is covered and not excluded.
- AEAD, tls-crypt and key derivation are ideal: what authenticates was sealed under that key, and keys are distinct.
  The clock, the network and a `select` with several ready arms are parameters of the steps.

Six promises hold of the code only within bounds, and are stated with their exact condition.

- `pidInRange2` stops keeping far-ahead ids out once the floor passes 2^31 (`ReceiveWindow.FarIdsAreRejectedIff`, with
  `FarIdAdmitted` for the failing family).
- The 12-slot receive window never refuses the 6-slot sender a packet that is still needed exactly while at most two
  deliveries are under way on a connection at once (`Pump.NeverRefusedIff`); `Pump.TwoUnfinished` and
  `Pump.TwelveRefused` give the run in which a third one is refused.
- The doubled retransmission timeout overflows int64 at the 33rd resend of a packet. Draining the due entries at one clock
  reading visits each once exactly for the resend counts of `Backoff.Lasting` (all up to 32), and stops exactly up to 52
  (`Backoff.DrainsOnceIff`, `Backoff.DrainEndsIff`). Acknowledgements of higher ids make an entry due without waiting, so
  every count is reached (`Backoff.EveryCountIsReached`).
- For a peer that announces an MSS of 0, written data can wait without a timer: `TcpTimer.IdleWriteArmsIff` says exactly
  when, `TcpSafety.ZeroMssWaits` gives the run.
- Taken in is the longest prefix of the peer's stream that has been accepted, unless a segment kept early overlaps its
  end, or is longer than the window beside itself: `TcpTakeIn.LongestIff`, `TcpTakeIn.OverlapWaits` for overlapping
  segments, `TcpTakeIn.CutsAreTaken` for peers that cut at fixed bounds.
- The phase of a connection follows the FINs exactly, unless the peer's FIN comes with the handshake's acknowledgement
  (`TcpPhases.PhasesAreExact`, `TcpPhases.EarlyFinStaysEstablished`).

## Model

| member | source | states |
|---|---|---|
| `Wire.HeaderByteOfParsed` | internal/wire/wire.go:106-113 | every header byte unpacks to an opcode and key id that pack back to it |
| `Wire.ParseOfHeaderByte` | internal/wire/wire.go:106-113 | every 5-bit opcode and 3-bit key id survives packing |
| `Wire.ParsePlaintext` | internal/wire/wire.go:153-227 | serialise then parse gives the packet back, up to the fields a body does not carry |
| `Wire.PlaintextParse` | internal/wire/wire.go:153-227 | whatever parses serialises back to the same bytes: parsing is injective and lossless |
| `Wire.AppendPlaintext` | internal/wire/wire.go:214-227 | the appending loop writes exactly the body of the packet after what was there |
| `Wire.ParseAcks` | internal/wire/wire.go:168-175 | the acknowledgement loop succeeds exactly when the bytes suffice, and consumes exactly them |
| `Wire.ParseControlPacket` | internal/wire/wire.go:153-207 | the field-by-field parser answers as the specification does on every input, malformed ones included |
| `Wire.DecodeEncode` | internal/ctrlconn/conn.go:330-351 | a framed packet decodes to itself, so every transmitted datagram is understood by the peer |
| `Wire.SampleDatagram` | internal/wire/wire.go:106-227 | the byte order and the order of the fields, on one packet |
| `SendWindow.PidMinIsOlder` | internal/reliable/reliable.go:94-119 | below half the id space the wrapped comparison is the order of age, whatever the base |
| `SendWindow.OldestIsOldest` | internal/reliable/reliable.go:184-208 | the scan keeping the least id finds the oldest of the entries it looks at, across wrap-around |
| `SendWindow.NextSlotExactly` | internal/reliable/reliable.go:184-208 | Next succeeds exactly when no active id is a whole window old; once its range check passes a free slot always exists |
| `SendWindow.MarkActiveKeeps` | internal/reliable/reliable.go:216-228 | assigning the next id keeps active ids distinct and within one window span ending at the next id |
| `SendWindow.AckPurgesExactly` | internal/reliable/reliable.go:245-262 | Ack frees exactly the named ids and changes nothing else but resend counters |
| `SendWindow.AckKeeps` | internal/reliable/reliable.go:245-262 | acknowledgement keeps the send window invariant |
| `SendWindow.DueKeeps` | internal/reliable/reliable.go:270-294 | backing off a resent entry keeps the send window invariant |
| `SendWindow.SendRunKeeps` | internal/reliable/reliable.go:184-294 | over runs of any length, through every wrap of the id, the window invariant holds |
| `SendWindow.DuePicksOldest` | internal/reliable/reliable.go:270-294 | Due finds an entry exactly when one is due, and it is the oldest due |
| `Backoff.DoublingIsExactIff` | internal/reliable/reliable.go:290-291 | doubling the int64 timeout is exact exactly below 2^62 |
| `Backoff.BackoffLastsIff` | internal/reliable/reliable.go:290-291 | after k resends the timeout is the initial one times 2^k for k up to 32, positive at exactly 41 counts (the last being 52), and zero from 54 on |
| `Backoff.TrackRunKeeps` | internal/reliable/reliable.go:184-294 | in every run each active entry's timeout is the initial one doubled once for every time Due has returned it |
| `Backoff.ResentIsDueAgainIff` | internal/reliable/reliable.go:270-294 | an entry returned by Due is due again at the same clock reading exactly if its resend count is not a lasting one, first at 33 |
| `Backoff.DrainVisitsEachOnce` | internal/ctrlconn/conn.go:361-378 | draining a tracked window whose due entries have lasting counts visits each of them once, oldest first |
| `Backoff.DrainRepeats` | internal/ctrlconn/conn.go:361-378 | with any other count some entry is visited more than once |
| `Backoff.StuckStaysDue` | internal/ctrlconn/conn.go:361-378 | an entry resent 53 times or more stays due at the same reading for good |
| `Backoff.DrainEndsIff` | internal/ctrlconn/conn.go:361-378 | draining at one reading stops exactly when no due entry has been resent more than 52 times |
| `Backoff.DrainsOnceIff` | internal/ctrlconn/conn.go:361-378 | in every run from a new window, at every reading: draining stops and visits each due entry once, oldest first, exactly when all due entries have lasting resend counts; up to 32 resends it always does, with an entry due after 33 it does not |
| `Backoff.EveryCountIsReached` | internal/reliable/reliable.go:245-294 | every resend count is reached, at a single reading, by acknowledgements of a higher id |
| `Schedule.AckCounts` | internal/reliable/reliable.go:245-262 | acknowledging higher ids counts, one for one, against every packet still waiting |
| `Schedule.ObserveKeeps` | internal/reliable/reliable.go:210-296 | sending, acknowledging and polling keep each timer what its history says |
| `Schedule.DueExactly` | internal/reliable/reliable.go:210-296 | in every run: a packet never returned by Due is due at every reading; one returned k times, last at t, is due exactly from t plus the timeout doubled k - 1 times on or after three higher acknowledgements; and what is returned is what was sent |
| `ReceiveWindow.WindowIsAdmitted` | internal/reliable/reliable.go:106-119 | ids within one window above the floor always pass the receive checks |
| `ReceiveWindow.FarIdsAreRejectedIff` | internal/reliable/reliable.go:106-113 | far-ahead ids are kept out exactly while the floor is at most 2^31 or within a window of the wrap |
| `ReceiveWindow.FarIdAdmitted` | internal/reliable/reliable.go:109-111 | the failing family: any other floor admits id 0 |
| `ReceiveWindow.PutExactly` | internal/reliable/reliable.go:349-381 | Put answers by the id alone for every id: out of window, duplicate or accepted, and never for want of a slot |
| `Reliable.Reliable.constructor` | internal/reliable/reliable.go:162-170 | a window of the given size, empty, ids from zero |
| `Reliable.Reliable.Next` | internal/reliable/reliable.go:184-208 | the two scans in place choose the slot the specification chooses |
| `Reliable.Reliable.FreeSlot` | internal/reliable/reliable.go:202-207 | the first free slot, or none exactly if all are active |
| `Reliable.Reliable.SlotHolding` | internal/reliable/reliable.go:356-361 | the slot holding an id, or none exactly if it is not held |
| `Reliable.Reliable.MarkActive` | internal/reliable/reliable.go:216-228 | assigns the next id and advances it modulo 2^32, touching only that slot |
| `Reliable.Reliable.SetPayload` | internal/reliable/reliable.go:233-237 | stores the bytes in that slot only |
| `Reliable.Reliable.Ack` | internal/reliable/reliable.go:245-262 | the loop over ids and slots is the specified purge |
| `Reliable.Reliable.Due` | internal/reliable/reliable.go:270-294 | the scan returns the specified entry and backs only it off |
| `Reliable.Reliable.Empty` | internal/reliable/reliable.go:298-307 | true exactly when no slot is active |
| `Reliable.Reliable.Put` | internal/reliable/reliable.go:349-381 | stores, refuses or recognises the packet as specified |
| `Reliable.Reliable.Get` | internal/reliable/reliable.go:390-403 | takes out the packet at the floor, if it is there, and raises the floor |
| `Reliable.AckSet.Add` | internal/reliable/reliable.go:428-437 | adds an id unless pending already, keeping order |
| `Reliable.AckSet.Drain` | internal/reliable/reliable.go:442-452 | hands out the first up to eight ids and keeps the rest in order |
| `ControlChannel.ChunksConcat` | internal/ctrlconn/conn.go:273-287 | Write's chunks concatenate to its argument and each fits one packet |
| `ControlChannel.PartsAreAbsorb` | internal/ctrlconn/conn.go:181-209 | the lock-held parts of a delivery, undisturbed, are absorb |
| `ControlChannelSafety.ReachKeepsUp` | internal/reliable/reliable.go:184-208 | the first id the receiver lacks is never below the sender's oldest unacknowledged one: acknowledged implies accepted |
| `ControlChannelSafety.PutOfHonest` | internal/reliable/reliable.go:349-381 | a transmitted packet is refused exactly below the floor or from floor + 12 on, and else stored or known; never for want of a slot |
| `ControlChannelSafety.NotYetDeliveredIsNeverRefused` | internal/reliable/reliable.go:349-381 | while at most six packets wait to be read out, an undelivered packet is not refused |
| `ControlChannelSafety.OneDeliveryLeavesSix` | internal/ctrlconn/conn.go:188-206 | a delivery that finds nothing waiting leaves at most six packets waiting |
| `ControlChannelSafety.DeliverAcksKeeps` | internal/ctrlconn/conn.go:181-186 | acknowledgements of any transmitted datagram, however old, keep the invariant between both endpoints |
| `ControlChannelSafety.DeliverPayloadKeeps` | internal/ctrlconn/conn.go:188-195 | so does storing its payload, at any later time |
| `ControlChannelSafety.QueueAckKeeps` | internal/ctrlconn/conn.go:190-191 | so does queueing the acknowledgement of something stored |
| `ControlChannelSafety.TakeOneKeeps` | internal/ctrlconn/conn.go:197-207 | so does reading out the next packet in order |
| `ControlChannelSafety.BeginWriteKeeps` | internal/ctrlconn/conn.go:289-301 | assigning an id keeps it, even before the bytes are set |
| `ControlChannelSafety.FinishWriteKeeps` | internal/ctrlconn/conn.go:289-301 | building and storing the bytes keeps it |
| `ControlChannelSafety.RetransmitKeeps` | internal/ctrlconn/conn.go:361-378 | a retransmission, also one between id and bytes, keeps it |
| `ControlChannelSafety.FlushAcksKeeps` | internal/ctrlconn/conn.go:218-227 | an acknowledgement-only packet keeps it |
| `ControlChannelSafety.ReadKeeps` | internal/ctrlconn/conn.go:244-266 | Read keeps it |
| `ControlChannelSafety.StepKeeps` | internal/ctrlconn/conn.go:157-378 | every action of either endpoint or the network keeps the two-sided invariant |
| `ControlChannelSafety.RunKeeps` | internal/ctrlconn/conn.go:157-378 | so does every run |
| `ControlChannelSafety.ReadableIsPrefixOfWritten` | internal/ctrlconn/conn.go:181-301 | over loss, duplication and reordering, with every packet serialised and re-parsed and any number of deliveries interleaved lock by lock, readable bytes are always a prefix of the written ones |
| `ControlChannelSafety.WindowsAreCompatible` | internal/reliable/reliable.go:349-381 | in every reachable state where at most six packets wait to be read out in order, a packet not yet delivered is not refused by the 12-slot receiver; `Pump.NeverRefusedIff` says which runs stay in such states |
| `ControlChannelSafety.SerialDeliveriesLeaveRoom` | internal/ctrlconn/conn.go:181-209 | in every reachable state where nothing waits, storing any datagram in flight leaves at most six packets waiting |
| `ControlChannelService.ResentIsThePacket` | internal/ctrlconn/conn.go:361-378 | in every run a retransmission puts on the wire the packet of the id Due picks, with the payload written under it, but for a slot whose bytes are not yet set |
| `ControlChannelService.EveryPacketIsAnswered` | internal/ctrlconn/conn.go:188-227 | in every run every packet an endpoint has taken has been acknowledged in a datagram it sent, or its acknowledgement is queued or about to be |
| `ControlChannelService.ReadHandsOver` | internal/ctrlconn/conn.go:244-266 | Read returns the front of what is readable and keeps the rest |
| `ControlChannelService.DeliveryReadsOut` | internal/ctrlconn/conn.go:181-209 | in every run a delivery that is not refused adds exactly its packet and makes readable exactly what was written up to the first packet lacking |
| `Pump.PumpStepKeeps` | internal/ctrlconn/conn.go:181-209 | with no delivery under way nothing waits to be read out, and with one at most six packets: every action of the channel, and the end of a delivery, keeps that |
| `Pump.PumpRunKeeps` | ovpn.go:1212-1238 | so does every run |
| `Pump.InvNeverRefuses` | internal/reliable/reliable.go:349-381 | with at most two deliveries at once, no undelivered packet in flight is refused to the next one |
| `Pump.TwoUnfinished` | internal/ctrlconn/conn.go:188-206 | a run in which the deliveries of packets 0 and 6 have stored and acknowledged and not yet read out, and packet 12 is in flight |
| `Pump.TwelveRefused` | internal/reliable/reliable.go:349-381 | a third delivery is then refused packet 12, which its receiver still needs |
| `Pump.NeverRefusedIff` | ovpn.go:1212-1238 | in every run no packet that its receiver still needs is refused, if and only if at most two deliveries may be under way at once, as with the pump beside one reset |
| `CtrlConn.Conn.constructor` | internal/ctrlconn/conn.go:122-141 | both windows, no acknowledgements and no bytes |
| `CtrlConn.Conn.AbsorbPacket` | internal/ctrlconn/conn.go:181-209 | the in-place absorb is the specified one, so the run theorems are about it |
| `CtrlConn.Conn.DrainInOrder` | internal/ctrlconn/conn.go:197-207 | the loop moves every in-order payload to the read buffer, in order |
| `CtrlConn.Conn.BuildControlPacket` | internal/ctrlconn/conn.go:330-351 | drains at most one acknowledgement record into a packet that decodes to what was meant |
| `CtrlConn.Conn.WriteChunk` | internal/ctrlconn/conn.go:289-328 | takes a slot, an id and sends, or changes nothing when no slot is free |
| `CtrlConn.Conn.WriteOne` | internal/ctrlconn/conn.go:289-301 | the datagram sent carries the chunk under the id taken, and is kept for retransmission beside all that were |
| `CtrlConn.Conn.Write` | internal/ctrlconn/conn.go:273-287 | what was sent are datagrams of the first chunks under successive ids, each kept for retransmission, and the count says how many bytes they hold |
| `CtrlConn.Conn.RetransmitDue` | internal/ctrlconn/conn.go:361-378 | whenever it can end, the loop sends the stored datagrams of the slots a drain visits; each due entry once, oldest first, for lasting resend counts |
| `CtrlConn.Conn.Read` | internal/ctrlconn/conn.go:244-266 | returns as much as fits from the front and keeps the rest |
| `Checksum.FoldedIsModulo` | netstack/internal/frame/frame.go:133-146 | folding is reduction modulo 65535, with 65535 for its non-zero multiples |
| `Checksum.StoredChecksumVerifies` | netstack/internal/frame/frame.go:133-186 | a sum with its own checksum added verifies as zero |
| `Checksum.AllOnesVerifies` | netstack/internal/frame/frame.go:98-122 | where the checksum is 0, storing 0xFFFF verifies instead |
| `Checksum.WordSumPatch` | netstack/internal/frame/frame.go:133-146 | storing a value in a zeroed even-aligned field adds it to the word sum, for even and odd lengths |
| `Checksum.HeaderVerifies` | netstack/internal/frame/frame.go:63-88 | a header with its computed checksum stored re-verifies as 0 |
| `Checksum.PseudoHeaderIsSummed` | netstack/internal/frame/frame.go:148-165 | the partial sum is the word sum of the twelve pseudo-header bytes, so the checksum covers pseudo-header and segment |
| `Checksum.Fold` | netstack/internal/frame/frame.go:142-144 | the folding loop ends on the fold of the sum |
| `Checksum.AddWords` | netstack/internal/frame/frame.go:134-141 | the accumulation is the exact word sum: 32 bits cannot overflow for up to 65535 bytes |
| `Checksum.InternetChecksum` | netstack/internal/frame/frame.go:133-146 | the complemented fold of the word sum |
| `Checksum.TransportChecksum` | netstack/internal/frame/frame.go:153-186 | the complemented fold of the word sum of the pseudo-header bytes followed by the segment |
| `Checksum.BuildUdp` | netstack/internal/frame/frame.go:98-122 | a built segment carries ports, length and payload, sums to zero with its pseudo-header, and is accepted by the receive check, the 0xFFFF substitution included |
| `Checksum.UdpAcceptsIff` | netstack/udp.go:220-236 | the receive check accepts exactly the segments whose full sum verifies, and those sent without checksum |
| `IPv4.AssembledBytes` | netstack/ipv4.go:221-264 | an assembled packet differs from its parts only in length, identification, fragment word and checksum |
| `IPv4.AssembledChecksum` | netstack/ipv4.go:221-264 | its header checksum verifies |
| `IPv4.ParsedHeaderIsWellFormed` | netstack/ipv4.go:141-194 | what parses has version 4, a header of at least 20 bytes and lengths within the packet |
| `IPv4.ParseAssembled` | netstack/ipv4.go:141-264 | an assembled packet parses to the header's addresses and protocol and the fragment fields written in |
| `IPv4.CutsTile` | netstack/ipv4.go:235-262 | the cuts are in order, adjoining, non-empty, and whole 8-byte units but for the last |
| `IPv4.TilingCovers` | netstack/ipv4.go:235-262 | every payload byte lies in a cut |
| `IPv4.TilingDisjoint` | netstack/ipv4.go:235-262 | and in only one |
| `IPv4.FragmentParses` | netstack/ipv4.go:141-264 | every fragment is at most the MTU and accepted by the parser as the fragment it is |
| `IPv4.BuildFragment` | netstack/ipv4.go:243-261 | copying and patching a buffer gives the specified fragment |
| `IPv4.FragmentIPv4` | netstack/ipv4.go:221-264 | the loop yields exactly the fragments of the cuts, in order |
| `Holes.PunchMissing` | netstack/reassembly.go:279-300 | the rebuilt hole list loses exactly the bytes the fragment supplies and those beyond a declared end |
| `Holes.PunchSorted` | netstack/reassembly.go:279-300 | it stays sorted, disjoint and without empty holes |
| `Holes.FillsIff` | netstack/reassembly.go:281-321 | a fragment counts as filling exactly when it supplies a missing byte |
| `Holes.RebuildHoles` | netstack/reassembly.go:279-300 | the rebuilding loop computes the specified list and flag |
| `Reassembly.StoreRefines` | netstack/reassembly.go:279-314 | for arbitrary fragments of valid geometry, overlapping and contradictory ones included, the hole list is exactly the set of bytes no accepted fragment supplied, and every held byte is the latest one |
| `Reassembly.DeclareRefines` | netstack/reassembly.go:256-275 | a final fragment refused for want of room does not disturb that |
| `Reassembly.LastByteNeedsFinal` | netstack/reassembly.go:281-325 | without an accepted final fragment the last possible byte never arrives, so the hole list cannot empty |
| `Reassembly.CompleteIsSound` | netstack/reassembly.go:316-346 | a completed payload is, byte for byte, what the latest accepted fragment covering it supplied: never zero fill |
| `Reassembly.SlicesComplete` | netstack/reassembly.go:203-347 | fragments of one datagram never conflict, and complete exactly when the last missing byte arrives |
| `ReassemblyTable.OfferCharges` | netstack/reassembly.go:252-346 | whatever becomes of a buffer, the bytes charged are the bytes held, within the cap |
| `ReassemblyTable.OfferRefines` | netstack/reassembly.go:252-346 | offering a fragment keeps the buffer refining what it has stored |
| `ReassemblyTable.ResolvedLimits` | netstack/reassembly.go:146-160 | set limits are kept, unset ones become 16 buffers, 256 KiB and 30 s, and none is zero |
| `ReassemblySafety.SweptKeeps` | netstack/reassembly.go:219-224 | the expiry sweep drops exactly the overdue buffers and keeps the charge exact |
| `ReassemblySafety.AddKeeps` | netstack/reassembly.go:203-347 | add keeps charge, caps, identities and deadlines, whatever it answers |
| `ReassemblySafety.RunKeeps` | netstack/reassembly.go:203-366 | in every state of every run the charged bytes equal the bytes held and both caps hold |
| `ReassemblySafety.DiscardIsFinal` | netstack/reassembly.go:360-366 | after discardAll nothing is held and nothing is accepted again |
| `ReassemblySafety.AddCompletesSoundly` | netstack/reassembly.go:323-346 | a completing fragment yields a sound datagram |
| `ReassemblySafety.CompletedIsSound` | netstack/stack.go:673-721 | in every run, a completed datagram re-parses as unfragmented under its fragments' source, destination and protocol, all of which came within the timeout of each other |
| `Outcomes.ContradictionIsOfEnd` | netstack/reassembly.go:247-263 | among fragments that agree, to contradict one is to end beyond the declared end or to declare another |
| `Outcomes.OfferExactly` | netstack/reassembly.go:247-346 | the answer to any fragment, what stays of its buffer and the charge, told from the fragments offered and accepted: conflict, no room, duplicate, buffered or complete |
| `Outcomes.RunStands` | netstack/reassembly.go:203-366 | in every state of every run each buffer stands for what was accepted and offered under its identity since it was made |
| `Outcomes.EveryAnswer` | netstack/reassembly.go:203-347 | in every run every arrival is answered so, and every other datagram stays as it was |
| `Outcomes.ContradictionsAreDropped` | netstack/reassembly.go:247-263 | in every run a contradictory fragment leaves no buffer and returns its bytes, so a completed datagram comes from fragments, accepted or refused, that never contradicted each other's end |
| `RoundTrip.PieceIsSlice` | netstack/ipv4.go:221-264 | each fragment fits the MTU, parses, and carries its slice of the payload under one identity |
| `RoundTrip.CoveredIffAllCame` | netstack/reassembly.go:281-325 | the payload is covered exactly when every piece has come |
| `Feeding.AddOther` | netstack/reassembly.go:203-347 | a fragment of another datagram, whatever becomes of it, leaves what this one holds alone |
| `Feeding.FedHolds` | netstack/reassembly.go:203-347 | until the payload is covered the table holds exactly what has come of it, with anything of other datagrams in between |
| `Feeding.FeedCompletes` | netstack/reassembly.go:203-347 | an offer completes exactly when it supplies the last missing byte, and then returns the payload |
| `RoundTrip.AssembledRestores` | netstack/reassembly.go:336-346 | the rebuilt packet is the original up to identification, flags and checksum |
| `RoundTrip.FragmentsReassemble` | netstack/reassembly.go:203-347 | parsed fragments of one datagram, in any order with any repetitions and among those of others, within budget and time, complete exactly at the last missing one and restore the packet |
| `RoundTrip.PacketIsPiece` | netstack/ipv4.go:141-264 | each fragment's bytes fit the MTU and are read back as the fragment they are |
| `RoundTrip.FragmentsDiffer` | netstack/ipv4.go:221-264 | no two fragments of a datagram are the same bytes |
| `RoundTrip.PacketsReassemble` | netstack/stack.go:673-721 | from bytes to bytes: fragmentIPv4's output in any order with any repetitions and with fragments of other datagrams in between, parsed and added within time and beside what the others hold, completes exactly at the last missing one and gives the packet back up to identification, flags and checksum |
| `Reassembler.Reassembler.constructor` | netstack/reassembly.go:146-160 | limits resolved, nothing held |
| `Reassembler.Reassembler.Drop` | netstack/reassembly.go:351-354 | gives back exactly the dropped buffer's bytes |
| `Reassembler.Reassembler.Sweep` | netstack/reassembly.go:219-224 | one pass in any map order drops exactly the overdue buffers, and counts them |
| `Reassembler.Reassembler.BuildDatagram` | netstack/reassembly.go:336-343 | the header rewrite gives the specified packet |
| `Reassembler.Reassembler.Add` | netstack/reassembly.go:203-347 | add in place is the specified add, for every parsed fragment |
| `Reassembler.Reassembler.AddFragment` | netstack/reassembly.go:207-346 | sweep, refusal, buffer choice and outcome as specified |
| `Reassembler.Reassembler.Take` | netstack/reassembly.go:252-346 | storing, hole rebuilding and completion as specified |
| `Reassembler.Reassembler.DiscardAll` | netstack/reassembly.go:360-366 | empties the table and closes it |
| `Replay.AcceptRefines` | internal/datachan/replay.go:45-77 | one id: the 64-bit word answers as an unbounded set of accepted ids would, and goes on standing for it |
| `Replay.WindowRefinesSet` | internal/datachan/replay.go:45-77 | so after every sequence of ids |
| `Replay.AcceptIsExact` | internal/tlscrypt/tlscrypt.go:95-127 | an id is accepted exactly when above the highest, or less than 64 below and new; no id is accepted twice |
| `Replay.ReplayWindow.TryAccept` | internal/datachan/replay.go:45-77 | the shifting word in place answers and changes as specified |
| `DataChannel.HeaderCarriesId` | internal/datachan/datachan.go:212-218 | the header holds the packet id it was built with |
| `DataChannel.HeaderNamesSession` | internal/datachan/datachan.go:212-218 | opcode, key id and 24-bit peer-id are read back from the first four header bytes |
| `DataChannel.NonceIsInjective` | internal/datachan/datachan.go:220-222 | different packet ids give different nonces |
| `DataChannel.OpenOfSealed` | internal/datachan/datachan.go:212-298 | what the keyed peer opens is exactly what was sealed unless seen before or a keepalive; any other key fails and keeps its state |
| `DataChannel.DataWrapper.NextId` | internal/datachan/datachan.go:172-180 | ids count up from 1 and stop at 2^32 - 1 |
| `DataChannel.DataWrapper.SealPacket` | internal/datachan/datachan.go:187-234 | seals under the next id, or fails when none is left |
| `DataChannel.DataWrapper.OpenPacket` | internal/datachan/datachan.go:256-298 | length, authentication, replay and keepalive checks in that order, with the specified change of state |
| `DeliverySafety.OpenKeeps` | internal/datachan/datachan.go:256-298 | opening under any key keeps every window standing for what its key has accepted |
| `DeliverySafety.OpenIsNew` | internal/datachan/datachan.go:289-297 | a plaintext that comes out was sealed under that key and was never delivered before |
| `DeliverySafety.StepKeeps` | session.go:742-916 | arrivals under any published pair of slots, reads, rollovers and seals keep the delivery invariant |
| `DeliverySafety.StreamOnlyGrows` | session.go:742-762 | what is queued is never dropped or overtaken: a step adds at most one packet, at the end |
| `DeliverySafety.DeliveredAtMostOnceInOrder` | session.go:814-916 | over a session's life with any rollovers, what Read has returned is itself an in-order selection of the authenticated arrivals in which no sealed packet occurs twice |
| `DeliverySafety.NoncesAreUnique` | internal/datachan/datachan.go:172-234 | no two packets sealed under a key share a nonce |
| `Arrivals.OpenUnderExactly` | session.go:836-861 | a plaintext comes out exactly if the packet authenticates under the primary or a lame duck in its time, is new there and is no keepalive |
| `Arrivals.EveryPacketsFate` | session.go:814-916 | in every run such a packet extends what Read hands over by exactly itself if it is no exit notice and finds room in a session that takes it; nothing else does, and only an exit notice closes |
| `Arrivals.RolloverOverlaps` | ovpn.go:2540-2567 | after a rollover the new key opens at once and the old one for exactly 3600 seconds |
| `Arrivals.SweptIsShut` | session.go:1044-1063 | once the lame duck is swept only the primary opens |
| `Arrivals.ReadExactly` | session.go:742-762 | Read hands over the first packet waiting exactly if it fits and the session is not stopping first, and keeps the order |
| `Arrivals.ClosingStays` | session.go:742-762 | once closed, a session stays closing |
| `Arrivals.IdsAreConsecutive` | internal/datachan/datachan.go:172-234 | in every run each packet is sealed under its key's next id, and every id up to the counter has been used |
| `DataSession.Session.HandleDataPacket` | session.go:814-916 | primary, then live lame duck, then exit notice, then queue: state and queue change exactly as specified |
| `DataSession.Session.Read` | session.go:742-762 | the packet left behind first, then the queue; a packet that does not fit is kept |
| `IpPool.NewPoolIff` | ippool.go:93-120 | exactly the prefixes /1 to /30 make a pool, /0 being refused because its size wraps to zero |
| `IpPool.FirstFreeIsLeast` | ippool.go:219-235 | the scans find the least free number, and fail exactly when there is none |
| `IpPool.AllocateExactly` | ippool.go:135-151 | succeeds exactly when a host address and a peer-id are free, takes exactly those, is undone by release, and changes nothing on failure |
| `IpPool.ReserveExactly` | ippool.go:171-202 | succeeds exactly for a free host address while a peer-id is free; each of the five errors exactly for its cause; a failure changes nothing |
| `IpPool.AddressPool.constructor` | ippool.go:114-119 | nothing in use |
| `IpPool.AddressPool.NextOffset` | ippool.go:219-226 | the scanning loop finds the specified offset |
| `IpPool.AddressPool.NextPeerId` | ippool.go:228-235 | the scanning loop finds the specified peer-id |
| `IpPool.AddressPool.AllocateLease` | ippool.go:135-151 | as specified on the maps in place |
| `IpPool.AddressPool.ReserveLease` | ippool.go:171-202 | as specified, error cases included |
| `IpPool.AddressPool.ReleaseLease` | ippool.go:208-217 | frees the offset and the peer-id, modulo 2^32 |
| `LifecycleSafety.GrantKeeps` | ovpn.go:1947-1981 | a new lease has one holder |
| `LifecycleSafety.PublishKeeps` | ovpn.go:1509-1542 | publication routes the peer-id to its holder, displacing no one |
| `LifecycleSafety.GiveBackKeeps` | session.go:1269-1271 | giving a lease back frees exactly it, with no route left to it |
| `LifecycleSafety.UnrouteKeeps` | session.go:1242-1267 | snapshot and unrouting keep routes and holders in agreement |
| `LifecycleSafety.RemoveKeeps` | ovpn.go:2644-2650 | removal takes out exactly this session, never a successor under the same key |
| `LifecycleSafety.CreateKeeps` | ovpn.go:1060-1087 | a session is entered only under a free key |
| `LifecycleSafety.StepKeeps` | ovpn.go:1444-1542 | every lock-held step of any session keeps the invariant |
| `LifecycleSafety.HoldersAreUnique` | session.go:1211-1322 | in every interleaving each address and peer-id has at most one holder, and a routing entry names the session that holds that peer-id |
| `LifecycleSafety.NothingLeaks` | ovpn.go:1444-1542 | once every session is closed and every bring-up has returned, pool, routing table and session table are empty |
| `LifecycleSafety.PublishExactly` | ovpn.go:1509-1542 | publishing a running session makes its lease its own and routes its peer-id to it; a closing one gives the lease back |
| `LifecycleSafety.PublishedStaysRouted` | ovpn.go:1186-1196 | in every interleaving a published session keeps lease and route until its own teardown removes them |
| `LifecycleSafety.CreatedStaysInTable` | ovpn.go:1060-1087 | a packet under a free key makes a session, which the table names until it is removed |
| `LifecycleSafety.AssignsIff` | ovpn.go:1947-1981 | a bring-up gets a lease exactly if an address, or the address it names, and a peer-id are free |
| `LifecycleSafety.TeardownFrees` | session.go:1211-1322 | each step of a teardown enables the next, and at its end lease, route and table entry are gone |
| `KeySlots.KeyIdAfterSteps` | ovpn.go:479-485 | after n renegotiations the id is 0 or ((n-1) mod 7)+1, and two steps never come back to the same id |
| `KeySlots.IdsAreDistinct` | ovpn.go:2364-2383 | pending follows primary and primary the lame duck, so the three ids are pairwise distinct |
| `KeySlots.KeyTable.StartRenegotiation` | ovpn.go:2330-2390 | starts exactly when not closing, keyed, idle, not rate-limited and with the expected id; otherwise changes nothing |
| `KeySlots.KeyTable.Finish` | ovpn.go:2496-2567 | installs exactly if still pending, not closing and the wrapper is built; says which connection to close |
| `KeySlots.KeyTable.SweepLameDuck` | session.go:1044-1058 | drops the lame duck exactly when its time has come |
| `KeyRolloverSafety.StepKeeps` | ovpn.go:2420-2573 | every step of handshake, watchdog, sweep and teardown keeps the invariant |
| `KeyRolloverSafety.ClosedIsNeverInstalled` | ovpn.go:2617-2642 | in every interleaving, a connection its watchdog or its own attempt closed is never installed, and an installed one is never closed by its watchdog |
| `KeyRolloverSafety.OnlyOwnerClears` | ovpn.go:2436-2443 | an attempt stops being pending only by its own goroutines: a failed one never clears a newer one |
| `KeyRolloverSafety.InstalledWasPending` | ovpn.go:2496-2567 | only the pending attempt of an open session becomes primary, and the old primary the lame duck |
| `KeyRolloverSafety.RoutingIsUnambiguous` | session.go:929-950 | in every reachable state control packets go to the one connection of their key id, and every hooked connection is reachable under its own |
| `KeyRolloverSafety.EveryConnIsClosed` | session.go:1242-1290 | once the session is closed and its goroutines have returned, every connection ever made is closed |
| `KeyRolloverTiming.StartsIff` | ovpn.go:2330-2396 | in every run a start makes an attempt exactly if the session is open, keyed and idle, the last attempt was at least the interval ago, and the peer names the next key id |
| `KeyRolloverTiming.StartsKeepDistance` | ovpn.go:2353-2355 | consecutive attempts are at least the minimum interval apart |
| `KeyRolloverTiming.FinishInstallsIff` | ovpn.go:2496-2567 | a finished handshake installs its key exactly if its attempt is still pending in an open session and a wrapper was made: next id, old primary lame duck, older lame duck closed |
| `KeyRolloverTiming.SweptIff` | session.go:1044-1063 | a lame duck is let go exactly from 3600 seconds after the key that replaced it was installed |
| `KeyRolloverTiming.KeyedForGood` | ovpn.go:1509-1542 | once published, a session is keyed for good |
| `KeyRolloverTiming.TeardownTakesAll` | session.go:1242-1258 | a teardown takes exactly the connections the slots name when it comes to them |
| `KeyRolloverTiming.ClosingsClose` | session.go:1272-1290 | and ends, in any order, with all of them and the first connection closed |
| `Tcp.AckedIsInFlight` | netstack/tcp_state.go:235-243 | an acknowledgement covers what lies between una and it as far as in flight: from the past nothing, from beyond everything |
| `Tcp.RstInWindowIff` | netstack/tcp_state.go:77-83 | a reset counts exactly if its number lies in the receive window modulo 2^32, or is the next expected one if that is closed |
| `TcpReceive.DrainKeepsBudget` | netstack/tcp_state.go:327-338 | draining moves bytes between the buffers without changing their sum |
| `TcpReceive.TakeDataKeepsBudget` | netstack/tcp_state.go:290-377 | no segment whatever takes the buffers past 65535 bytes or 16 entries |
| `TcpReceive.DrainKeeps` | netstack/tcp_state.go:327-338 | early segments are taken in at the right place of the stream |
| `TcpReceive.TakeDataKeeps` | netstack/tcp_state.go:290-377 | any slice of the peer's stream, early, late or repeated, keeps what was taken in a prefix of it |
| `TcpReceive.ReadKeeps` | netstack/tcp_conn.go:268-309 | Read hands over the front of the buffer and nothing else |
| `TcpReceive.EofIsTheEnd` | netstack/tcp_conn.go:288-291 | end of file is reported only when the whole stream has been read |
| `TcpSend.DataSegmentIsHonest` | netstack/tcp_timer.go:156-166 | a segment's bytes are the written ones at the offset its number stands for, across wrap-around |
| `TcpSend.SendLoopIsHonest` | netstack/tcp_timer.go:142-174 | so are all segments of the sending loop, and none exceeds the MSS |
| `TcpSend.SendLoopFillsWindow` | netstack/tcp_timer.go:142-174 | the loop stops at the limit, and reaches it for every MSS above 0 |
| `TcpSend.SendPendingSafe` | netstack/tcp_timer.go:120-182 | sending what is pending keeps the stream, never passes the window, and probes with one byte |
| `TcpSend.HandleAckSafe` | netstack/tcp_state.go:229-278 | an arbitrary acknowledgement moves the stream by exactly what it covers of the bytes in flight, and in flight stays within the new window |
| `TcpTimer.SendPendingArms` | netstack/tcp_timer.go:120-182 | pending data leaves the timer armed, whatever was disarmed before |
| `TcpTimer.HandleAckKeepsTimer` | netstack/tcp_state.go:229-278 | acknowledgements keep data covered by the timer |
| `TcpTimer.OnSegmentKeepsTimer` | netstack/tcp_state.go:91-221 | so does every segment, in every phase |
| `TcpTimer.FireKeepsTimer` | netstack/tcp_timer.go:237-359 | so does every firing, also one left over from before the timer was stopped |
| `TcpTimer.FireUsesFuel` | netstack/tcp_timer.go:237-359 | each firing uses up a bound on the firings to come |
| `TcpTimer.SettlesSoon` | netstack/tcp_timer.go:237-359 | left alone, a connection is closed or at rest without unacknowledged data after at most 8 firings (21 for MSS 0), within the 28 promised |
| `TcpTimer.IdleWriteArmsIff` | netstack/tcp_timer.go:120-182 | data written into an idle connection is covered by the timer exactly if the MSS is above 0 or the window is closed |
| `TcpSafety.BudgetsHold` | netstack/tcp_conn.go:568-585 | in every run, for arbitrary segments, the buffers keep within 65535 bytes and 16 entries, so the 16-bit window field is exact |
| `TcpSafety.ReadIsPrefixOfStream` | netstack/tcp_state.go:290-377 | against a peer sending one stream of under 2^31 bytes, lost, repeated and reordered at will, read plus buffered bytes are a prefix of it and the end is reported only at its end |
| `TcpSafety.SegmentSafe` | netstack/tcp_state.go:91-221 | an arbitrary segment keeps the sending law |
| `TcpSafety.FireSafe` | netstack/tcp_timer.go:237-359 | so does the timer, which sends again what was sent or one byte into a closed window |
| `TcpSafety.SentBytesAreWritten` | netstack/tcp_timer.go:120-182 | in every run, every byte ever sent or resent under a number is the byte written at that offset, and in flight is at most the send buffer, at most 65535 |
| `TcpSafety.PacketsFitMtu` | netstack/tcp_listener.go:319-325 | no packet of a connection exceeds the MTU |
| `TcpSafety.InFlightRespectsWindow` | netstack/tcp_conn.go:401-407 | no step takes in flight past the peer's last window, but for one persist byte into a closed one |
| `TcpSafety.DataNeverWaitsForever` | netstack/tcp_timer.go:120-182 | for MSS above 0, in every reachable open state a non-empty send buffer has a running timer, which ends within 8 firings if nothing arrives |
| `TcpSafety.ZeroMssWaits` | netstack/tcp_timer.go:149-154 | for MSS 0 a run of handshake ACK and write leaves data in an established connection with no timer |
| `TcpTakeIn.InOrderAdds` | netstack/tcp_state.go:297-350 | whatever the peer sends, an in-order segment adds exactly what fits; taken whole, it leaves nothing kept that follows on and fits |
| `TcpTakeIn.InOrderTakes` | netstack/tcp_state.go:297-350 | for slices of one stream, exactly the bytes of the segment become accepted, and the FIN is consumed exactly if the stream is complete and its FIN has come |
| `TcpTakeIn.EarlyIsKept` | netstack/tcp_state.go:352-366 | an early segment is kept with its FIN exactly if its number is free, fewer than 16 are kept and it fits |
| `TcpTakeIn.LongestIff` | netstack/tcp_state.go:327-338 | with room, the bytes taken in are the longest accepted prefix exactly unless a kept segment overlaps their end |
| `TcpTakeIn.OverlapWaits` | netstack/tcp_state.go:327-338 | overlapping segments that leave accepted bytes waiting |
| `TcpTakeIn.CutsAreTaken` | netstack/tcp_state.go:297-350 | a peer that cuts its stream at fixed bounds never causes that |
| `TcpInflow.AcceptedStays` | netstack/tcp_state.go:290-377 | in every run a byte of the stream once taken in or kept stays accepted |
| `TcpInflow.InOrderIsTaken` | netstack/tcp_state.go:290-377 | in every run an in-order segment is taken in as far as the window allows, with what follows on and the FIN |
| `TcpInflow.ReadReturns` | netstack/tcp_conn.go:268-309 | in every run Read returns the next bytes taken in, as many as there are and fit |
| `TcpInflow.EofIff` | netstack/tcp_conn.go:288-291 | in every run Read reports the end exactly once the whole stream is read and its FIN taken in, without failure |
| `TcpInflow.EverySegmentReports` | netstack/tcp_conn.go:583-600 | in every run every segment sent acknowledges exactly what has been taken in and advertises 65535 less what is buffered, and data, or a FIN again in TIME_WAIT, is acknowledged at once |
| `TcpRetire.HandleAckExactly` | netstack/tcp_state.go:229-278 | an acknowledgement retires exactly the bytes it covers, progress resets timeout and retries and stops the timer at the end, the FIN is acknowledged by a number past it, and the window is the segment's |
| `TcpRetire.NewDataRearms` | netstack/tcp_timer.go:176-181 | sending anything new starts timer, timeout and retries afresh |
| `TcpRetire.TimerResends` | netstack/tcp_timer.go:237-359 | the timer resends the first unacknowledged segment with the timeout doubled up to 8 s, and after six times resets and closes |
| `TcpRetire.TimerProbes` | netstack/tcp_timer.go:320-359 | into a closed window it sends the first waiting byte, and after twenty probes resets and closes |
| `TcpRetire.GivesUpAfterSix` | netstack/tcp_timer.go:237-359 | n unanswered firings are n resends after doubling waits, and the seventh closes |
| `TcpOutflow.AckRetires` | netstack/tcp_state.go:229-278 | in every run the acknowledgement of a stream offset in flight leaves exactly what was written from there on |
| `TcpOutflow.WriteTakesWhatFits` | netstack/tcp_conn.go:331-395 | in every run a round of Write takes what the 65535-byte buffer has room for and keeps it |
| `TcpOutflow.EverySentByteIsOnWire` | netstack/tcp_timer.go:142-174 | in every run every byte that counts as sent has been on the wire under its own number |
| `TcpOutflow.TimerResendsOldest` | netstack/tcp_timer.go:237-359 | in every run a firing with data in flight sends exactly the first unacknowledged segment again |
| `TcpOutflow.WindowIsUsed` | netstack/tcp_timer.go:120-182 | in every run, for MSS above 0, everything written is in flight as far as the peer's window and the cap allow |
| `TcpPhases.SegmentClosesIff` | netstack/tcp_state.go:91-221 | a segment closes exactly as an in-window reset, a refused handshake or the acknowledgement of the FIN in LAST_ACK; only the first is an error |
| `TcpPhases.HandshakeEstablishes` | netstack/tcp_state.go:144-150 | the acknowledgement of the SYN-ACK establishes the connection and stops the timer |
| `TcpPhases.ResetIsObeyed` | netstack/tcp_state.go:52-69 | a reset in answer carries the number its receiver expects, or acknowledges all of the offending segment |
| `TcpPhases.AbortCloses` | netstack/tcp_timer.go:376-416 | an abort closes in error, stops the timer and resets the peer at most once |
| `TcpPhases.CloseWriteSendsFin` | netstack/tcp_conn.go:453-497 | CloseWrite sends one FIN, numbered after everything written, from the two phases that may |
| `TcpPhases.PhasesAreExact` | netstack/tcp_state.go:124-206 | in every run the phase is exactly the one both FINs and the acknowledgement call for, but for a FIN on the handshake's ACK |
| `TcpPhases.EarlyFinStaysEstablished` | netstack/tcp_state.go:103-135 | such a FIN leaves the connection ESTABLISHED with the peer's stream closed |
| `TcpConnection.TcpConn.constructor` | netstack/tcp_conn.go:217-249 | a connection in SYN_RCVD with its timer running |
| `TcpConnection.TcpConn.RecvWindowRemaining` | netstack/tcp_conn.go:568-577 | the summing loop gives what is left of the window |
| `TcpConnection.TcpConn.BuildAck` | netstack/tcp_conn.go:590-599 | numbers and window of a pure acknowledgement |
| `TcpConnection.TcpConn.DrainReorder` | netstack/tcp_state.go:327-338 | the loop drains as specified, and ends |
| `TcpConnection.TcpConn.TakeInOrder` | netstack/tcp_state.go:298-352 | partial acceptance, draining and both ways to consume a FIN, as specified |
| `TcpConnection.TcpConn.HandleEstablishedData` | netstack/tcp_state.go:290-377 | as specified, and acknowledged whenever sequence space is taken |
| `TcpConnection.TcpConn.Read` | netstack/tcp_conn.go:268-309 | the front of the buffer, and the end exactly as specified |
| `TcpConnection.TcpConn.SendSegments` | netstack/tcp_timer.go:141-174 | the sending loop yields the specified segments |
| `TcpConnection.TcpConn.SendPending` | netstack/tcp_timer.go:120-182 | window, probe and timer as specified |
| `TcpConnection.TcpConn.DropAcked` | netstack/tcp_state.go:235-259 | drops exactly what is covered |
| `TcpConnection.TcpConn.HandleAck` | netstack/tcp_state.go:229-278 | data, FIN, window and sending as specified |
| `TcpConnection.TcpConn.WriteRound` | netstack/tcp_conn.go:365-387 | takes as much as the buffer holds and sends |
| `TcpConnection.TcpConn.CloseWrite` | netstack/tcp_conn.go:453-497 | sends FIN once, from the two phases that may |
| `TcpConnection.TcpConn.Shut` | netstack/tcp_timer.go:189-195 | closed with the timer stopped |
| `TcpConnection.TcpConn.RstInWindow` | netstack/tcp_state.go:77-83 | as specified, zero window included |
| `TcpConnection.TcpConn.HandleHandshake` | netstack/tcp_state.go:125-151 | completes or refuses the handshake as specified |
| `TcpConnection.TcpConn.Advance` | netstack/tcp_state.go:153-192 | the phase transitions as specified |
| `TcpConnection.TcpConn.HandleSegment` | netstack/tcp_state.go:91-221 | every segment in every phase as specified |
| `TcpConnection.TcpConn.Retransmit` | netstack/tcp_timer.go:257-315 | once more with doubled timeout, or give up |
| `TcpConnection.TcpConn.OnRtoFired` | netstack/tcp_timer.go:237-359 | the cases of the timer in their order, as specified |
| `TcpDemuxSafety.SynKeeps` | netstack/tcp_listener.go:298-317 | a counted SYN keeps the counters exact and within the caps |
| `TcpDemuxSafety.MakeConnKeeps` | netstack/tcp_listener.go:327-336 | the connection then made takes over its count |
| `TcpDemuxSafety.ShutKeeps` | netstack/tcp_timer.go:376-416 | every way to close, also a second time, leaves the releases due and no more |
| `TcpDemuxSafety.TakeHalfKeeps` | netstack/tcp_listener.go:178-187 | a half-open budget is taken back once however often it is released |
| `TcpDemuxSafety.TakeLiveKeeps` | netstack/tcp_listener.go:205-213 | and so is a live budget |
| `TcpDemuxSafety.StepKeeps` | netstack/tcp_listener.go:163-429 | every lock-held step keeps counters, flags, table and backlogs consistent |
| `TcpDemuxSafety.CapsHold` | netstack/tcp_listener.go:298-317 | at every moment a client has at most 8 half-open and 64 live connections |
| `TcpDemuxSafety.QuietCountersAreExact` | netstack/tcp_listener.go:163-224 | with no release under way the counters equal the SYN_RCVD and the non-closed connections, each budget has been released exactly once, and the table holds no closed connection |
| `TcpDemuxSafety.ClosedBacklogStaysEmpty` | netstack/tcp_listener.go:409-429 | a listener whose Close has returned holds no connection and never takes one |
| `TcpHandover.SynIsRefusedIff` | netstack/tcp_listener.go:298-317 | a SYN is refused exactly at 8 counted half-open or 64 counted live connections of its client |
| `TcpHandover.EstablishedIsHandedOver` | netstack/tcp_listener.go:374-403 | in every interleaving no connection is accepted twice, and an established one is waiting to be queued, queued or accepted, once, or going to be aborted |
| `TcpHandover.QueuedUnlessFull` | netstack/tcp_listener.go:374-389 | it is aborted only if the listener is closed or sixteen are waiting |
| `TcpHandover.ClosedStaysClosed` | netstack/tcp_listener.go:409-429 | once Close has begun a listener stays closed |
| `TcpHandover.FoundUntilClosed` | netstack/tcp_listener.go:231-262 | segments find a connection from when it is made until it is closed or replaced under its key |
| `TcpDemux.Counters.Admit` | netstack/tcp_listener.go:298-317 | counts exactly when both caps allow, for this client only |
| `TcpDemux.Counters.ReleaseHalfOpen` | netstack/tcp_listener.go:188-196 | one less for this client and no other, and no entry for none |
| `TcpDemux.Backlog.Enqueue` | netstack/tcp_listener.go:374-389 | queues unless closed or full |
| `TcpDemux.Backlog.Close` | netstack/tcp_listener.go:409-429 | every waiting connection is aborted, in order, and none stays |

## Left out

- Eventual delivery on the control channel: a retransmission of a consumed packet is refused without being acknowledged again (internal/ctrlconn/conn.go:188-194), so only safety is stated.
- Retransmission of a TCP FIN: acknowledging the last data byte stops the timer even with a FIN outstanding (netstack/tcp_state.go:249-251), so `Settled` speaks of data and not of the FIN.
- Runs of 2^31 control packets or more in one direction, where the receive window's range check is not exact any more.
- Where a TCP FIN sits relative to bytes queued by a Write already in progress: Write checks for it only on entry (netstack/tcp_conn.go:344-347).
- Completeness of reassembly for contradictory fragments: a final fragment that only re-covers received bytes is reported as a duplicate (netstack/reassembly.go:316-320). Completeness is stated for slices of one datagram, soundness for arbitrary ones.
- AES-GCM, HMAC, TLS, Key Method 2 and key derivation: ideal, as said above. `SealWithPacketID`, which takes its id from the caller, is not part of the model.
- Sockets, tickers, deadlines, logging, statistics, panic recovery and embedder callbacks.
- UDP listener queues, ICMP echo, cipher negotiation, push-reply text and the example programs: each is a bounded queue, a reply built from one request, or text formatting, and keeps no state that later calls rely on.
- Sessions created while `Server.Close` runs, and the parts of `handleDatagram` that only reject malformed datagrams.
- ControlChannelSafety.WindowsAreCompatible: is about states where at most six packets wait to be read out. `Pump.NeverRefusedIff` is about runs, and bounds the deliveries under way at once by a number. That the source has at most two, one from the pump (ovpn.go:1212-1238) and one from the receiving goroutine (ovpn.go:1105, ovpn.go:1139, ovpn.go:2407), is read off it and not derived.
- CtrlConn.Conn.RetransmitDue: requires that no due packet has been resent more than 52 times, since otherwise the source's loop does not end (`Backoff.DrainEndsIff`).
- CtrlConn.Conn.Write: models a single writer; concurrent writers are serialised by the caller in the source, and waiting for a slot is an answer rather than a blocking call.
- DeliverySafety.StepKeeps: takes one arrival as one action, because the server's read loop dispatches data packets inline (ovpn.go:811-835); its snapshot of the slots may be an older pair.
- LifecycleSafety.StepKeeps: eviction of an address's old holder (ovpn.go:1963-1970) is a teardown of another session followed by a second reservation, both of which are steps; the lookup by address is not modelled.
- Outcomes.ContradictionsAreDropped: is about fragments that come after the final one they contradict; data that came earlier and reaches past the end is cut off by the source and not taken for a contradiction (netstack/reassembly.go:252-264).
- TcpTakeIn.CutsAreTaken: leaves open the kept segment that is longer than what remains of the window beside itself, which the source leaves waiting (netstack/tcp_state.go:332-334).
- TcpDemuxSafety.StepKeeps: the order in which one goroutine performs the parts of a removal is not modelled; any order is allowed.
- TcpConnection.TcpConn.Read: does not model blocking and deadlines; with nothing to return it returns nothing.
