# Verified model of a selective-reject file transfer

`rcopy` sends a file to `server` over UDP with a sliding window: the sender keeps every
unacknowledged packet, the receiver writes in order, holds early packets in a ring and answers
with RR ("everything below n is here") or SREJ ("n is missing"). The simulated network of
`libcpe464` drops packets or complements one byte of them. This project models that program in
Dafny and proves what it promises, down to the bytes on the wire.

| file | what it models |
|---|---|
| `Bytes.dfy`, `Checksum.dfy`, `Pdu.dfy` | network byte order, the Internet checksum, the PDU codec and message layouts |
| `Channel.dfy` | drop and flip events, `processEvents`, `sendto_Err` |
| `Ring.dfy`, `Window.dfy` | the sender's ring, and the map it stands for |
| `ReceiverSpec.dfy`, `Receiver.dfy` | what a receiver should do given the set of packets it has, and the ring and state machine of `buffer.c` that do it |
| `OldReceiver.dfy` | the receiver of `bufferold.c`, and its agreement with `buffer.c` |
| `SenderSpec.dfy`, `Rcopy.dfy` | the eight-state machine as a step function, and the class whose methods are the state functions |
| `SenderProperties.dfy` | silence, the end of file handshake, batches of acknowledgements |
| `ClientConversation.dfy`, `ServerConversation.dfy` | the exact exchange of each handshake over whole runs: what is said, how often, and what ends it |
| `ServerSpec.dfy`, `FileServer.dfy` | the server's loops as a step function, and as nested loops over the buffer |
| `Transfer.dfy` | a client, one server process and the network as one transition system, with its inductive invariant |
| `Safety.dfy`, `Linking.dfy` | what holds in every reachable state, and that the preconditions of the classes are met in every run |
| `ServerTrace.dfy` | the server of any run as the receiver of `ReceiverSpec.dfy` |
| `Progress.dfy`, `Delivery.dfy` | what resending the lowest packet achieves, and a run that transfers any given file |
| `Recovery.dfy`, `Completion.dfy`, `Outcome.dfy` | exactly which states past the handshake can still complete, when packets may arrive again |
| `SingleDelivery.dfy`, `SingleCompletion.dfy`, `SingleOutcome.dfy` | the same for a network that delivers nothing twice |
| `Forking.dfy`, `Serving.dfy`, `Disk.dfy` | the whole server host: the parent, all its children, the addresses, and the output file they share |

How the layers meet. Each class method is proved equal to a step function over abstract values
(a map of held packets, a map of received packets). The step functions are the transitions of
`Transfer.Sys`, whose packets are byte strings. The network keeps everything that was ever sent,
so a packet can be lost, duplicated, reordered and delayed without limit; each send is also given
a fate: passed, dropped, or one byte complemented. No axiom says that corruption is noticed: it
is proved from the arithmetic of the checksum. `buffer.c` checks no window, so its methods here
have the precondition `Accepts`, and `Linking.ReceiveFileIsSafe` proves that every run meets it.

Assumptions. In `SenderSpec.Config.Ok`: the command-line limits that `rcopy` enforces, and
fewer than 2^32 - windowSize data packets, so that no sequence number wraps and `UINT32_MAX`
is a safe sentinel. The file is any list of non-empty chunks of at most bufferSize bytes, as
`read` may cut it. That both ends use the same window size is not assumed: it is proved from
the filename handshake.

`Transfer` assumes one receiving server process per transfer: after it has taken a request it
ignores further ones. So do the results stated over `Transfer.Play`, among them
`Safety.PrefixSafety`, `FileOnlyGrows` and `EndOfFileMeansComplete`. In the program a request
that arrives late or twice makes the parent fork another child, which opens the same output file
with O_TRUNC. `Forking` drops the assumption. There it is proved, not assumed, that of all the
children only the one whose consent the client took is ever sent data, and that client and child
keep the invariants of `Transfer` and `Recovery`. The three results then hold of what that child
writes (`Disk.DiskAfterAnyRun`, `PeerOnlyAppends`, `EndOfFileMeansWritten`), which need not be what
is on the disk.

Some results are about what the program does not do.

- A late request destroys the output. The file on the disk is what the peer has written since the
  last truncation, with zeros in place of what came before (`Disk.DiskAfterAnyRun`). A transfer
  can have every packet acknowledged and the file lost exactly if the file is not empty, even if
  the parent is given no packet twice: one timeout in the handshake makes two requests
  (`Disk.FalseSuccessExactly`). With a single child nothing is truncated. `Disk.DeliveredExactly`
  is the exact condition for the input file to be acknowledged and on the disk in the end.
- A lost packet can be fatal. Where packets that were once on the wire may arrive again, as UDP
  allows, some continuation completes the transfer if and only if the state is
  `Recovery.Completable` (`Outcome.CompletableExactly`, for states past the handshake). While both
  programs are transferring data, two things make it false: the only copy of the last chunk was
  lost (`LastLost`), or the expected packet and the one SREJ sent for it were lost and the rest of
  the file fits in the window (`RejectLost`). In both cases no timeout resends the packet, because
  `windowClosedState` is never entered again with that packet at the lower edge. They can happen
  exactly for windows above one and non-empty files (`LossCanBeFatalExactly`), and for windows
  above two and files of two chunks (`RejectLossExactly`). A packet that is delivered never does
  that harm (`Completion.PassedKeepsHope`).
- Where nothing is delivered twice, two more losses are fatal: the RR for the last chunk, if the
  rest of the file fits in the window (`AckGone`), and everything that the client could hear or
  provoke at its last try (`LastTryGone`). With these four the condition is again exact
  (`SingleCompletion.RecoverableExactly`), and a running transfer can be lost exactly if the file is
  not empty (`SingleOutcome.SingleLossExactly`).
- In the handshake a lost answer costs one try: the client asks again (rcopy.c:152-160) and the
  parent forks a fresh child (server.c:211-254). `Transfer` has no second child, so about states in
  the handshake it is only claimed that the completable ones complete. The exact condition there
  is `Serving.CanCompleteExactly`, for the whole host. The client stores the address of whatever
  it receives before checking it (rcopy.c:162), so after one packet from a child, even a corrupted
  one, no further request reaches the parent (`Serving.AnyPacketDeflects`).
- `rcopy` does not always terminate: `SenderProperties.SilentTermination` gives the exact condition
  under silence, and `Outcome.StuckExactly` the files and windows for which the endless cycle is
  reachable.
- `bufferPacket` protects the ring only if its slot is free or holds the same number
  (`StoreKeepsOthersIff`); the protocol guarantees that, the function does not.

The comment at the head of `libcpe464/checksum.c` says that an odd length makes `in_cksum` read one
byte past the data, which must be zero. The code reads only the last byte; the model follows
the code.

## Model

| member | source | states |
|---|---|---|
| Bytes.Be32RoundTrip | createPDU.c:27-28 | a number stored with htonl is read back by ntohl |
| Bytes.Be32Onto | createPDU.c:77-81 | every four bytes are the encoding of the number read from them |
| Bytes.Be32IsBigEndian | createPDU.c:27-28 | the first of the four bytes is the most significant |
| Bytes.IncrementWraps | rcopy.c:319 | counting up k times gives k modulo 2^32 |
| Checksum.InCksum | libcpe464/checksum.c:58-86 | for up to 65536 bytes the C int never overflows and two folds give the complement of the one's complement sum of RFC 1071 section 1, in either byte order, odd lengths included |
| Checksum.OnesComplementSumIsResidue | libcpe464/checksum.c:70-83 | adding words with end-around carry gives the plain sum's representative modulo 65535, zero only for a zero sum |
| Checksum.TwoFoldsSuffice | libcpe464/checksum.c:82-84 | two carry folds of any non-negative int give that representative |
| Checksum.SumBound | libcpe464/checksum.c:70-79 | the sum of the words of n bytes is at most 65535 per word |
| Checksum.ChecksumOkIff | createPDU.c:83-85 | validation succeeds exactly when the word sum is a positive multiple of 65535 |
| Checksum.SumAfterByteChange | libcpe464/checksum.c:70-79 | changing one byte changes the sum by the difference, times 1 or 256 according to position and byte order |
| Checksum.ByteChangeDetected | createPDU.c:83-85 | no change of one byte of a valid packet validates, wherever it is |
| Checksum.SumsDifferByRotation | libcpe464/checksum.c:70-79 | the big-endian sum is 256 times the little-endian one modulo 65535, and one is zero exactly when the other is |
| Checksum.ByteOrderIndependent | createPDU.c:40-42 | both byte orders store the same two checksum bytes and accept the same packets (RFC 1071 section 2(B)) |
| Pdu.CreatePdu | createPDU.c:21-44 | fills the caller's buffer with the encoded PDU and leaves the rest; a payload over 1400 bytes is refused with -1 and nothing is touched |
| Pdu.SumWithChecksum | createPDU.c:40-42 | storing a word in the zeroed checksum field adds exactly that word to the sum |
| Pdu.EncodedIsValid | createPDU.c:40-42 | whatever createPDU builds validates, for every payload |
| Pdu.SameOnEveryHost | createPDU.c:21-44 | hosts of either byte order build and accept the same PDUs |
| Pdu.PduRoundTrip | createPDU.c:77-95 | the getters recover sequence number, flag and payload |
| Pdu.Layout | createPDU.c:27-42 | bytes 0 to 3 are the number, most significant first, 4 and 5 the complement of the sum of the rest, 6 the flag, 7 and on the payload |
| Pdu.ControlLayout | buffer.c:176-182 | an RR or SREJ is eleven bytes long and ends with its number, most significant byte first |
| Pdu.FilenameLayout | rcopy.c:127-137 | window size, buffer size, name and NUL, in this order |
| Pdu.ValidIsEncoded | createPDU.c:83-85 | a valid packet is the encoding of its own fields, unless its checksum field is one of the two zeros of one's complement |
| Pdu.ControlRoundTrip | rcopy.c:308-313 | the number of an RR or SREJ survives sendControl and getControlSeqNum, and the PDU validates |
| Pdu.StringPrefixStops | server.c:176-177 | strncpy with limit 100 recovers any NUL-free name of at most 100 bytes, whatever follows it |
| Pdu.LongNameIsCut | server.c:176-177 | a name that does not end within a hundred bytes is cut there |
| Pdu.FilenameRoundTrip | server.c:156-180 | the server recovers window size, buffer size and name from the filename payload, whatever its receive buffer held before |
| Channel.ErrorDrop.SetDropAll | libcpe464/MsgEvents/errorDrop.cpp:14-19 | sets the flag, keeps the list: all messages are dropped, or the listed ones |
| Channel.ErrorDrop.SetDropSpecific | libcpe464/MsgEvents/errorDrop.cpp:21-27 | drops only the listed message numbers from then on |
| Channel.ErrorDrop.Run | libcpe464/MsgEvents/errorDrop.cpp:29-63 | drops exactly if everything is dropped or the message number is listed |
| Channel.FlipBits | libcpe464/MsgEvents/errorFlipBits.cpp:9-27 | in place, the bits of the chosen byte are exclusive-ored with 0xFF, every other byte stays |
| Channel.XorIsComplement | libcpe464/MsgEvents/errorFlipBits.cpp:24 | the exclusive or with 0xFF is the complement |
| Channel.FlippedArrival | libcpe464/MsgEvents/errorFlipBits.cpp:24 | a flipped byte arrives exclusive-ored with 0xFF, old and new add up to 255, every other byte stays, and flipping it again gives the packet back |
| Channel.PacketManager.AddMsgEventStandard | libcpe464/PacketManager.cpp:76-86 | appends any event to the constant ones; the manager stays valid exactly if it was and the event is no flip |
| Channel.PacketManager.AddMsgEventRandom | libcpe464/PacketManager.cpp:88-97 | appends to the chance events |
| Channel.PacketManager.RunMsgEvents | libcpe464/PacketManager.cpp:100-130 | drops exactly if some constant event drops, and never alters the packet |
| Channel.PacketManager.ProcessEvents | libcpe464/PacketManager.cpp:132-189 | dropped exactly if a constant event or the drawn chance event drops it; altered exactly if a flip is drawn, and then in the picked byte only, to 255 less the old value |
| Channel.PacketManager.SendtoErr | libcpe464/PacketManager.cpp:346-408 | the wire gets a copy after its fate; the caller's buffer is never altered; the message number counts up modulo 2^32 |
| Channel.OnlyGenuineArrives | libcpe464/PacketManager.cpp:132-189 | a sent PDU arrives and validates exactly if it was passed unchanged |
| Ring.SlotIsRemainder | buffer.c:172-174 | the slot function is the remainder by the window size |
| Ring.SlotsDiffer | window.c:89 | two numbers less than a window apart never share a slot |
| SenderWindow.Window.constructor | window.c:26-44 | an empty window of the given size |
| SenderWindow.Window.View | window.c:26-179 | a valid ring stands for a map from exactly lower..current-1 to non-empty PDUs |
| SenderWindow.Window.IsWindowOpen | window.c:53-58 | open exactly if the map holds fewer than a window |
| SenderWindow.Window.IsWindowEmpty | window.c:172-179 | empty exactly if the map is |
| SenderWindow.Window.WindowAddPacket | window.c:72-97 | adds the PDU under the next number; fails, changing nothing, exactly if the window is closed or the length is bad |
| SenderWindow.Window.GetWindowPacket | window.c:99-116 | returns the PDU held under a number, or nothing |
| SenderWindow.Window.GetLowestWindowPacket | window.c:118-136 | returns the PDU of the lower edge, nothing exactly if the window is empty |
| SenderWindow.Window.ProcessRR | window.c:138-157 | releases exactly the numbers below the RR, capped at what was sent; stale RRs change nothing |
| SenderWindow.Window.ReleaseUpTo | window.c:150-153 | the loop deactivates exactly the slots of the released numbers |
| SenderWindow.Window.ProcessSREJ | window.c:159-169 | returns the held PDU, unchanged, and changes nothing |
| SenderWindow.AddKeepsRing | window.c:89-95 | writing the slot of the next number keeps every other held PDU |
| SenderWindow.ReleaseKeepsRing | window.c:150-153 | deactivating the lowest slot removes exactly that number |
| SenderWindow.ReleasedKeepsRing | window.c:150-157 | deactivating a run of slots leaves exactly the numbers above it |
| SenderWindow.AckRRKeepsOk | window.c:138-157 | sliding drops exactly what is below the new edge and never closes an open window |
| ReceiverSpec.RunReceivesExactly | buffer.c:96-164 | over any run, any order, any duplicates: exactly the arrived numbers are held with their original payloads, expected is the least that did not arrive, and the output is the payloads below it |
| ReceiverSpec.LastCopyIsKept | buffer.c:119-160 | of several copies of a packet, whatever they carry, the last one that came before it was written is kept, and once written it is final |
| ReceiverSpec.ControlTrace | buffer.c:176-202 | over any run, control numbers never decrease, stay within the numbers expected before and after, and SREJ numbers strictly increase |
| ReceiverSpec.AlwaysAnnounced | buffer.c:176-202 | after any run, if a packet is missing before a waiting one its SREJ has been sent, and otherwise the RR for the expected number has |
| ReceiverSpec.OneReply | buffer.c:96-164 | every answer carries the new expected number, an SREJ only in front of a gap and never twice for the same one |
| ReceiverSpec.FirstMissing | buffer.c:142-155 | the first number from n on that has not arrived |
| Receiver.StoreKeepsRing | buffer.c:204-211 | storing an in-window packet keeps every other waiting packet |
| Receiver.StoreKeepsOthersIff | buffer.c:204-211 | any packet keeps the others exactly if its slot is free or holds the same number |
| Receiver.StoreOutsideWindowLoses | buffer.c:204-211 | a packet one window above a waiting one overwrites it |
| Receiver.ClearKeepsRing | buffer.c:152-154 | clearing the slot of the flushed packet keeps all others |
| Receiver.SlotOfWindow | buffer.c:146-150 | the valid flag and number of a slot tell whether its packet has arrived |
| Receiver.FlushOne | buffer.c:145-155 | one look of the flush loop stops exactly if the expected packet is missing, and otherwise writes it and keeps the rest |
| Receiver.StateMeaning | buffer.c:81-93 | between PDUs the state is never FLUSHING, BUFFERING exactly if some slot is valid, the slot of highest is then valid, and no slot holds the expected number |
| Receiver.Buffer.constructor | buffer.c:42-59 | an empty buffer expecting packet 0, with no SREJ sent |
| Receiver.Buffer.SendControl | buffer.c:176-182 | one PDU with the next control number and the given number as payload |
| Receiver.Buffer.SendRR | buffer.c:184-186 | an RR for the expected number |
| Receiver.Buffer.SendSREJOnce | buffer.c:196-202 | an SREJ for the expected number unless the last one was for it |
| Receiver.Buffer.BufferPacket | buffer.c:204-211 | writes one slot, unconditionally; in the window, ring and file stay intact |
| Receiver.Buffer.InOrderState | buffer.c:96-116 | received set, file, ring and answer are those of the specification |
| Receiver.Buffer.BufferingState | buffer.c:119-140 | the same when packets wait, flushing when the expected one arrives |
| Receiver.Buffer.BufferingEarly | buffer.c:127-136 | an early packet while one is already rejected is kept and not answered |
| Receiver.Buffer.FlushRun | buffer.c:145-155 | writes the whole run that has arrived, and terminates |
| Receiver.Buffer.FlushingState | buffer.c:142-164 | ends with an SREJ in front of a further gap, with an RR otherwise |
| Receiver.Buffer.BufferProcessPDU | buffer.c:61-94 | bad checksums and other flags change nothing; a data PDU is received and answered as specified |
| OldReceiver.OldBuffer.constructor | bufferold.c:36-53 | an empty window at 0 |
| OldReceiver.OldBuffer.BufferHasPacket | bufferold.c:111-122 | true exactly for in-window numbers that have arrived |
| OldReceiver.OldBuffer.BufferStorePacket | bufferold.c:86-109 | stores exactly if in the window with 1 to 1400 bytes, otherwise changes nothing |
| OldReceiver.OldBuffer.BufferWriteSlide | bufferold.c:124-141 | writes the whole run that has arrived and slides the window with it |
| OldReceiver.OldBuffer.ProcessData | bufferold.c:157-200 | received set, file and response, for stale, early, expected and out-of-window packets |
| OldReceiver.OldAnswers | bufferold.c:157-200 | an RR carries the least number then missing, an SREJ the number of the early packet that came, which is then held; above the window nothing is answered; only an early packet of a refused size fails |
| OldReceiver.TwoReceiversAgree | bufferold.c:157-200 | on every run of genuine in-window packets with 1 to 1400 bytes both receivers accept the same packets and expect the same number |
| OldReceiver.AgreeOnOneIff | bufferold.c:163-197 | the exact condition under which they agree on one packet |
| OldReceiver.SameFile | bufferold.c:69-84 | equal received sets mean equal files and equal edges |
| SenderSpec.StepKeepsSenderOk | rcopy.c:82-119 | every state function keeps: the window holds the PDUs first sent, reads match numbers, EOFReached implies the window is open, the tries are below their limits |
| SenderSpec.RunKeepsSenderOk | rcopy.c:82-119 | so does every run, whatever arrives |
| RcopyClient.Rcopy.constructor | rcopy.c:395-448 | the initial state |
| RcopyClient.Rcopy.SendControlPacket | rcopy.c:315-322 | one PDU with the next control number |
| RcopyClient.Rcopy.SendFilenameState | rcopy.c:121-142 | sends the request and waits |
| RcopyClient.Rcopy.WaitFilenameAckState | rcopy.c:144-182 | ten silent polls give up, a non-zero status gives up, status zero starts the data, anything else is ignored |
| RcopyClient.Rcopy.SendDataState | rcopy.c:185-230 | sends and keeps the next chunk under the next number; adding to the window never fails |
| RcopyClient.Rcopy.ProcessAcksState | rcopy.c:233-278 | drains the arrivals one by one and decides where to go |
| RcopyClient.Rcopy.DrainOne | rcopy.c:247-263 | an RR slides, an SREJ resends the held PDU, anything else is ignored |
| RcopyClient.Rcopy.WindowClosedState | rcopy.c:280-306 | a timeout resends the lowest PDU, the tenth in a row gives up |
| RcopyClient.Rcopy.SendEofState | rcopy.c:324-328 | sends EOF |
| RcopyClient.Rcopy.WaitEofAckState | rcopy.c:330-375 | EOF_ACK ends with FINAL_ACK; everything else costs a try |
| RcopyClient.Rcopy.StateHandler | rcopy.c:82-119 | the object follows the step function on every script of observations, state and PDUs sent |
| SenderProperties.DataSent | rcopy.c:200-305 | fresh data goes out once per number in order; an SREJ for a held number and a timeout at a closed window resend the PDU first sent, byte for byte; nothing else is sent between the handshakes |
| SenderProperties.SilentTermination | rcopy.c:82-119 | with nothing arriving the client finishes if and only if it is not stuck: not both part of the file unacknowledged and the rest of it within the window; and then within Rank calls |
| SenderProperties.SilentDescent | rcopy.c:268-305 | outside the stuck states every silent call lowers the rank |
| SenderProperties.StuckStep | rcopy.c:192-230 | a stuck client resends nothing, and sends nothing at all once the file is exhausted |
| SenderProperties.StuckForever | rcopy.c:192-277 | it stays stuck for ever, at the same lower edge |
| SenderProperties.EofHandshakeEnds | rcopy.c:324-375 | from SEND_EOF, DONE after at most twenty calls and ten EOF packets, whatever arrives |
| SenderProperties.BatchEffect | rcopy.c:244-266 | draining any list has the effect of its largest RR alone |
| SenderProperties.BatchOrderIrrelevant | rcopy.c:244-266 | lists with the same members in any order leave the same state, with lower the larger of the old one and the smaller of the largest RR and current |
| ClientConversation.TenRequests | rcopy.c:121-160 | whatever else arrives, one request with the next number goes out for each unanswered wait, and after the tenth the client is done |
| ClientConversation.AnsweredHandshake | rcopy.c:162-182 | an answer before that ends the handshake: consent leads to the data, a refusal to the end, and neither makes the client send |
| ClientConversation.RefusalEndsTheRun | rcopy.c:173-176 | in any run a refusal that the waiting client observes ends it, and nothing later makes it send anything |
| ClientConversation.ReadErrorEndsTheRun | rcopy.c:206-209 | a read error ends the client, which then sends nothing more |
| ClientConversation.TenResends | rcopy.c:280-306 | at a closed window each silent wait resends the lowest packet, and after the tenth the client is done |
| ClientConversation.CountStartsAfresh | rcopy.c:288-291 | an arrival that does not slide the window starts that count again |
| ClientConversation.TenEofs | rcopy.c:330-370 | while no wait brings an EOF_ACK, one EOF with the next number goes out for each wait, ten in all |
| ClientConversation.ConfirmedEof | rcopy.c:360-375 | the first EOF_ACK in the k-th wait ends it after exactly k EOFs and one FINAL_ACK |
| ClientConversation.EofHandshakeIsOver | rcopy.c:324-375 | it is over exactly if one of ten waits brought an EOF_ACK, or ten have passed |
| ClientConversation.AcknowledgedSaysEof | rcopy.c:268-271 | a client with everything read and acknowledged sends EOF, and only that, within two calls after draining what had arrived |
| ClientConversation.LastReadSaysEof | rcopy.c:211-216 | so does one that finds the end of the file with everything acknowledged |
| ClientConversation.HowRunsEnd | rcopy.c:82-119 | a run that is done has sent, if everything was acknowledged, ten EOFs in vain or at most ten and one FINAL_ACK, and otherwise none of either |
| ClientConversation.ControlsAreNumbered | rcopy.c:315-322 | over any run the k-th control PDU carries k modulo 2^32 |
| ClientConversation.ClientTypes | rcopy.c:26-33 | the type bytes on the wire: 7, 3, 32, 34 |
| ServerSpec.EofLoopEnds | server.c:131-151 | after EOF the server returns within ten turns and ten more EOF_ACKs, whatever arrives, and does not touch the file |
| ServerConversation.DeafUntilAsked | server.c:217-232 | until a usable request comes nothing is sent and nothing changes |
| ServerConversation.AnswerToRequest | server.c:65-80 | a request is refused without a byte if too short, with status 1 if the file does not open, accepted with status 0 otherwise |
| ServerConversation.ReceivesUntilEof | server.c:114-130 | while packets come and none is an EOF, the child takes every data packet, answers as the receiver does and in no other way, and anything else changes nothing |
| ServerConversation.SilenceEndsIt | server.c:115-119 | a silent poll of the receive loop ends the child without a word |
| ServerConversation.EofLoopConversation | server.c:134-151 | exactly one EOF_ACK, with the next number, for each turn before the first FINAL_ACK, ten at most; over exactly if one came or ten turns have passed |
| ServerConversation.EofIsAnswered | server.c:131-151 | from the EOF on: one EOF_ACK at once and then those of the loop, numbered without a gap |
| ServerConversation.AcksAreNumbered | buffer.c:176-182 | the n-th RR or SREJ carries its starting number plus n, modulo 2^32 |
| ServerConversation.ServerTypes | buffer.c:176-190 | the type bytes on the wire: 5, 6, 33, 8 |
| FileServer.ServerInfo.ParseFilenamePacket | server.c:156-180 | fills the three fields from the packet, or refuses a short one and changes nothing |
| FileServer.ServerInfo.SendServerControlPacket | server.c:94-101 | one PDU with the next control number |
| FileServer.ServerInfo.GiveToBuffer | server.c:129-130 | a data packet reaches the buffer and its answer goes out on the socket |
| FileServer.ServerInfo.ReceiveFile | server.c:107-154 | the loops follow the step function on every script of in-window packets: received set, file, PDUs sent since the call |
| FileServer.ServerInfo.EofLoop | server.c:134-150 | the inner loop follows the step function |
| FileServer.ServerInfo.AnswerRequest | server.c:65-82 | answers the request and sets up the buffer with the window size it carries |
| FileServer.ServerInfo.ProcessClient | server.c:52-92 | request and receive loop together are one run of the server from its initial state, and the file is what that run has received |
| ServerSpec.HostReceives | server.c:129-130 | only data packets in the receive loop change what has been received |
| Transfer.OnlyOriginalUsable | libcpe464/PacketManager.cpp:346-408 | whatever the channel does, a usable arrival is the PDU that was sent |
| Transfer.DeliverableIsInWindow | buffer.c:204-211 | under the invariant every deliverable data packet is below expected + windowSize and carries its chunk |
| Transfer.ClientStepKeeps | rcopy.c:82-119 | every client step keeps the invariant and sends only genuine PDUs |
| Transfer.ServerStepKeeps | server.c:107-154 | every server step keeps the invariant and sends only genuine PDUs |
| Transfer.NextKeepsInv | rcopy.c:82-119 | every step of either end with every fate of its packet keeps the invariant, and nothing is taken back |
| Transfer.PlayKeepsInv | rcopy.c:82-119 | the invariant holds in every state of every run |
| Safety.PrefixSafety | buffer.c:96-164 | in every reachable state the output is exactly chunks 0..expected-1; lower <= expected <= current <= lower + windowSize; no RR or SREJ on the wire is ahead of expected; no data is sent before the server has the same window size |
| Safety.NoRingCollision | buffer.c:172-211 | in every reachable state every data packet on the wire, however late, is in the receiver's window |
| Safety.NoShortPackets | rcopy.c:162-168 | nothing shorter than a header is ever on the wire |
| Safety.EndOfFileMeansComplete | server.c:131-151 | as soon as either end is in the end of file handshake or one of its packets is on the wire, the output equals the whole input |
| Safety.FileOnlyGrows | buffer.c:192-194 | in every continuation of every run the file so far is a prefix of the file later |
| Safety.SilenceAfterAnyRun | rcopy.c:82-119 | the silent-termination condition is exact in every reachable state |
| Progress.RoundEffect | window.c:118-157 | composing getLowestWindowPacket, bufferProcessPDU and processRR once slides the window, or raises the expected number |
| Progress.TwoRoundsSlide | window.c:118-157 | composing them twice strictly raises lower |
| Progress.RoundsEmptyTheWindow | window.c:118-157 | composing them 2 * (current - lower) times empties the window; rcopy itself stops doing so once the window has reopened |
| Progress.ReachableInStep | window.c:138-157 | every reachable state meets the premise of the round lemmas |
| Progress.ClosedRound | rcopy.c:280-306 | from a closed window four protocol steps are one round |
| Progress.ClosedWindowReopens | rcopy.c:280-306 | a client waiting at a closed window slides it within nine delivered protocol steps |
| Delivery.Handshake | rcopy.c:121-182 | request, answer and its arrival lead to a client ready to send and a server that receives |
| Delivery.OneChunk | rcopy.c:221-278 | four steps over a delivering network take one more chunk across and acknowledge it |
| Delivery.Finish | server.c:131-151 | EOF, EOF_ACK and FINAL_ACK end both programs |
| Delivery.EveryFileCanBeTransferred | rcopy.c:82-119 | from the start, for every file, window size and chunk size, there is a run after which both ends have finished and the output is the input |
| Recovery.ClientWire | rcopy.c:185-306 | a client step adds to the wire exactly the data packet it sends, if that passes |
| Recovery.HostWire | buffer.c:176-202 | a server step adds exactly the RR or SREJ it answers with, if that passes |
| Recovery.PlayKeepsGood | buffer.c:96-164 | in every run, what was received was on the wire, and every SREJ was provoked by a later packet on the wire |
| Recovery.LastStaysLost | rcopy.c:254-306 | once the only copy of the last chunk is lost the client never sends it again |
| Recovery.RejectStaysLost | rcopy.c:254-306 | nor the expected packet near the end of the file, once its SREJ is lost |
| Recovery.HostKeepsLosses | buffer.c:119-202 | nothing that can still be delivered makes the server move past either loss, or reject again |
| Recovery.HopelessForever | rcopy.c:185-375 | past the handshake, no event whatever leads from a state that is not completable to one that is, nor back into the handshake |
| Completion.PassedKeepsHope | buffer.c:142-202 | a step whose packet passes never causes either loss |
| Completion.CatchUp | window.c:138-157 | the client can always be brought up to what the server has |
| Completion.FillAndResend | rcopy.c:280-306 | where the file goes on to fill the window, the client fills it and the timeout resends the lowest packet |
| Completion.ProvokeSrej | buffer.c:106-112 | where no timeout helps, a later packet provokes the SREJ that brings the expected one back |
| Completion.ExpectedOnWire | rcopy.c:185-306 | without either loss, the packet the server waits for can be put on the wire |
| Completion.Drain | rcopy.c:82-119 | without either loss, data transfer between two running programs can be completed |
| Completion.CompletableCompletes | rcopy.c:82-119 | from every completable state, those of the handshake included, some continuation has the whole file acknowledged |
| Outcome.HopelessRun | rcopy.c:185-375 | nor does any run |
| Outcome.CompletableExactly | rcopy.c:185-375 | after any run that is past the handshake, a continuation that completes exists if and only if the state is completable |
| Outcome.CompletableEnds | rcopy.c:82-119 | from every completable state of every run there is a continuation after which both programs have ended and the output is the input |
| Outcome.LossCanBeFatalExactly | rcopy.c:268-306 | a running transfer can be taken beyond repair exactly if the window is wider than one and the file is not empty |
| Outcome.RejectLossExactly | buffer.c:196-202 | both losses of the second kind, the expected packet and its SREJ, can happen in a running transfer exactly if the window is wider than two and the file has at least two chunks |
| Outcome.StuckExactly | rcopy.c:192-277 | the endless cycle is reachable exactly if the window is wider than one and the file is not empty |
| ServerTrace.ServerIsReceiver | server.c:107-154 | over any run of the server: it has received what ReceiverSpec.Run makes of the data packets that reached the buffer, and its RRs and SREJs are Replies to them with consecutive control numbers |
| ServerTrace.RunControlTrace | buffer.c:176-202 | in every run of the protocol the server's control numbers never decrease, no gap is rejected twice, and the number it waits for was announced: by an SREJ if there is a gap, by an RR otherwise |
| Linking.EndsRunTheirPrograms | rcopy.c:82-119 | in every run each end is in the state that its own program reaches on what it observed |
| Linking.ReceiveFileIsSafe | server.c:129-130 | in every run the packets given to the receiving server meet the window condition of ServerInfo.ReceiveFile and Buffer.BufferProcessPDU |
| Linking.ProcessClientIsSafe | server.c:251-261 | in every run the request that ends the listening meets the precondition of ServerInfo.ProcessClient, and so does what follows it |
| Linking.ProcessClientWritesTheFile | server.c:52-92 | in every run what ProcessClient returns as output, stopped anywhere, is the client's file up to the number then expected |
| SingleDelivery.GoKeepsSteady | rcopy.c:82-119 | every run without duplicates is a run of the protocol, and what is in flight was sent |
| SingleDelivery.ClientFlight | rcopy.c:233-263 | a client step takes from the network what it receives, not what it only polls, and adds the data it sends if that passes |
| SingleDelivery.HostFlight | server.c:114-152 | a server step takes what it receives and adds the RR or SREJ it answers with if that passes |
| SingleDelivery.ClientStaysLost | rcopy.c:185-306 | no step of the client repairs any of the four losses |
| SingleDelivery.HostStaysLost | buffer.c:96-202 | nor does any step of the server |
| SingleDelivery.LostForever | rcopy.c:185-375 | past the handshake, no event leads from a state that is not recoverable to one that is |
| SingleCompletion.HelpfulKeepsHope | rcopy.c:233-306 | a step whose packet passes causes none of the four losses, unless the client takes an RR that is not the latest |
| SingleCompletion.LeaveClosed | rcopy.c:280-306 | while the server is there and hope remains, a client at a closed window hears something before it gives up |
| SingleCompletion.CatchUp | window.c:138-157 | where the file goes on to fill the window, resending the lowest packet brings the client up to what the server has |
| SingleCompletion.ExpectedInFlight | rcopy.c:185-306 | while hope remains, the packet the server waits for can be put in flight |
| SingleCompletion.AskForLast | buffer.c:176-190 | while hope remains, a server that has everything can be made to say so |
| SingleCompletion.Drain | rcopy.c:82-119 | while hope remains, data transfer between two running programs can be completed with nothing delivered twice |
| SingleCompletion.RecoverableExactly | rcopy.c:185-375 | after any run without duplicates that is past the handshake, a continuation without duplicates that completes exists if and only if none of the four losses stands in its way |
| SingleOutcome.EveryFileOnce | rcopy.c:82-119 | for every file, window size and chunk size there is a run that completes with nothing delivered twice |
| SingleOutcome.AckLossExactly | rcopy.c:192-277 | the loss of the last RR alone can make a running transfer impossible to complete exactly if the window is wider than one and the file is not empty |
| SingleOutcome.LastTryExactly | rcopy.c:280-306 | the client can reach its last try with nothing to hear or provoke exactly if the file fills the window |
| SingleOutcome.SingleLossExactly | rcopy.c:185-306 | without duplicates a running transfer can be lost exactly if the file is not empty |
| Forking.ClientView | rcopy.c:162 | with a peer, a client turn is a client step of the transfer between the two; what goes to another address is lost for the peer |
| Forking.PeerView | server.c:107-154 | a turn of the peer is a server step of that transfer |
| Forking.IdleStep | server.c:107-154 | a child that is sent no data writes nothing, keeps nothing, and sends only EOF_ACKs after everything was acknowledged |
| Forking.ForkedChild | server.c:251-261 | a request that reaches the parent makes a child that answers with status 0 and receives if the file opens, and answers with status 1 and ends otherwise |
| Forking.GoKeepsSound | server.c:211-261 | in every world, with however many children: the client sends data to its peer only, no other child has received or written anything, and client and peer meet the invariants of a transfer between two |
| Serving.HopelessTurn | server.c:211-261 | no turn of the client, the parent or any child leads from a world that cannot complete to one that can |
| Serving.Lift | rcopy.c:233-278 | a run of the transfer between client and peer that gets everything acknowledged is a run of the world, without a fork |
| Serving.Connects | rcopy.c:121-182 | before there is a peer, a request at the parent or one more try leads to a fresh child and its consent |
| Serving.NoMoreRequests | rcopy.c:162 | once the client has stored the address of a child, no further request gets to the parent |
| Serving.AnyPacketDeflects | rcopy.c:162-172 | any packet that the waiting client receives does that, however damaged |
| Serving.EofGoesToLastSender | rcopy.c:348-358 | an unusable packet in the end of file handshake sends the next EOF to whichever child it came from |
| Serving.FinalAckGoesBack | rcopy.c:348-374 | the FINAL_ACK goes to the child whose EOF_ACK was taken, peer or not |
| Serving.NeverOpens | server.c:70-77 | a child that could not open the file stays so and never becomes the peer |
| Serving.RefusedByChild | rcopy.c:173-176 | a waiting client that takes the answer of such a child is done: nothing more is sent, and no data was ever sent to anybody |
| Serving.CanCompleteExactly | server.c:211-261 | after any run of the whole host, in the handshake or later, a continuation with everything acknowledged exists if and only if a request is at the parent or can be sent, or the transfer with the peer is completable |
| Disk.FlushedIsAppended | buffer.c:145-155 | what the flush writes is what the receiver's output grows by |
| Disk.WriteExtends | server.c:70 | a write through an open descriptor after a truncation leaves zeros in front and appends behind |
| Disk.WriteAtBytes | server.c:70 | byte by byte: the data are at the offset, a gap before them is zero, everything else stays |
| Disk.OnDiskIsWritten | server.c:70 | the disk holds what was written exactly if nothing was cut off, or only zeros with something behind them |
| Disk.DiskAfterAnyRun | server.c:70 | in every world the disk is what the peer has written, chunks 0..expected-1, with what was written before the last truncation replaced by zeros; with a single child nothing is ever truncated |
| Disk.EndOfFileMeansWritten | server.c:131-151 | as soon as the end of file handshake has begun with any child, the peer has written the whole input |
| Disk.PeerOnlyAppends | buffer.c:192-194 | whatever happens, the client keeps its peer and what the peer has written only grows |
| Disk.DeliveredExactly | server.c:65-92 | after any run of the whole host, a continuation with everything acknowledged and the input file on the disk exists if and only if the world can complete and nothing but zeros was cut off |
| Disk.FalseSuccessExactly | server.c:251-261 | everything can be acknowledged without the file being on the disk, the parent being given no packet twice, exactly if the file is not empty |

## Left out

- Sockets, DNS, poll sets and realloc wrappers: a poll is the observation "a packet is there" or "nothing came".
- Signals, the reaping of children, and other clients of the same server: `Forking` has one client, the parent and all children forked for it. A port is not used again after its child has ended.
- A fork between two writes of one flush: a packet is processed in one turn, so a truncation falls between packets.
- The handshake of a network that delivers nothing twice: `SingleCompletion.RecoverableExactly` begins where it ends.
- Command-line parsing and printing: only the range limits are kept, in `Config.Ok`.
- NULL arguments and failed allocation: the objects exist.
- Failing or partial `write`: everything given to it is appended.
- Random numbers and error rates: the choices are parameters, and every choice is covered.
- Sequence numbers that wrap at 2^32: excluded by the stated bound, under which no counter overflows.
- Packets shorter than a header, or RR and SREJ shorter than eleven bytes: the source reads the missing bytes from stale memory, the model ignores the packet. `Safety.NoShortPackets` and `Safety.PrefixSafety` show that none is ever on the wire.
- The history kept by infoSeqNo: it never changes a packet.
- `memcpy` into the fixed slot arrays: a slot holds its bytes as one value of the stored length.
- Receiver.Buffer.BufferProcessPDU: requires the packet to be in the window, which buffer.c does not check; what happens to the ring otherwise is `StoreKeepsOthersIff`, and `Linking.ReceiveFileIsSafe` proves the premise in every run.
- Receiver.Buffer.InOrderState: the same premise.
- Receiver.Buffer.BufferingState: the same premise.
- Receiver.Buffer.BufferingEarly: the same premise.
- FileServer.ServerInfo.GiveToBuffer: the same premise.
- SenderWindow.Window.WindowAddPacket: requires a number below the wrap at 2^32, by the stated bound.
- OldReceiver.OldBuffer.ProcessData: requires numbers at least one window below the wrap at 2^32.
- OldReceiver.OldBuffer.BufferStorePacket: requires a number below the wrap at 2^32.
- RcopyClient.Rcopy.StateHandler: runs on a finite script of observations, because the loop need not end.
- FileServer.ServerInfo.ReceiveFile: runs on a finite script of observations for the same reason, with every data packet of it in the window, which `Linking.ReceiveFileIsSafe` proves of every run.
- FileServer.ServerInfo.ProcessClient: requires a positive window size in the request, as rcopy sends (`Linking.ProcessClientIsSafe`); the source would divide by zero.
- FileServer.ServerInfo.AnswerRequest: the same premise.
- Progress.ClosedWindowReopens: the client has a try left and the server is still receiving; a client at its last try may give up instead.
- rcopyold.c, serverOld.c and the backup of PacketManager.cpp: superseded.
