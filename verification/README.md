# Verified models of Tox protocols

Dafny models of the parts of Tox whose correctness is a matter of whole runs: protocols and data structures
that work by indices, wrap-around, partial writes, eviction or recursion, each proved against a simple
specification.

- **TCP relay link** (`SecureStream`, `SecureLink`, `Nonce`). Frames sealed under a running nonce, written to a
  socket that may take any part of a write, with a one-packet buffer and a priority queue. Specification: a
  FIFO of packets. The cipher is a pair of functions with `open(k, n, seal(k, n, p)) == p`.
- **TCP relay routing table** (`RelayTable`, `RelayServer`, `RelayClient`, `BsList`). Specification: a symmetric
  relation between connections, with a finite map from keys to places; and the packets and ports of a client.
- **File transfer** (`FileTransfer`, `FileSession`, `FilePauses`). Two slots joined by two lossless FIFO channels, with both
  clients free to act in any order. Specification: the receiver has
  `file[seek..transferred]`, and each end knows of the pauses of the other.
- **Group chat** (`GroupClosest`, `PeerList`, `GroupChat`, `LossyWindow`, `Flooding`, `FloodReach`, `FloodOrder`).
  Ring neighbours chosen by eviction, the peer list and its transfer, the replay window, and the flooding of
  messages: it ends, it reaches exactly those that the connections lead to, and in the order of sending.
- **DHT** (`XorMetric`, `CloseNodes`, `NodeCodec`, `SharedKeys`). The closest nodes under the XOR metric, the
  node codec, and the cache of shared keys.
- **Token ring** (`TokenRing`, `RingTableau`, `RingConvergence`). The ring of processes started from arbitrary
  values. Proved for every size: the last token is never lost, a single token stays single, and the ring
  stabilises to a single token within a number of steps that depends only on its size, and the token then
  visits every process.
- **RTP** (`RtpHeader`, `Rtp`, `RtpMixed`, `RtpClock`, `RtpRepeats`, `RtpBounds`, `RtpSession`). Fragmentation and
  reassembly under loss and reordering, within a message and across messages, with pieces that come twice and
  with any clock.
- **Association cache** (`Primes`, `AssocHash`, `AssocProbe`, `AssocTable`). A hash table with multiplicative
  probing, whose bucket size must be prime.

`Bytes`, `Bitwise`, `Sets` and `Wrappers` hold what several of them use. Code that updates its data in place is
modelled by classes, arrays and loops that are proved against pure functions; what the program promises is
proved about these functions and about runs of them.

## Findings

Where the code or its comments promise more than holds, the exact condition is proved:

- Chunk requests are aligned except after a stream of unknown size has been ended by a short piece
  (`FileSession.AlignedExactly`, `FileSession.StreamEndsUnaligned`).
- The group flood filter takes an old number for new at the end of the 32-bit range, and takes number 0 for new
  for ever, so that a message with it never stops (`Flooding.OldNumberReturns`, `Flooding.ZeroNeverEnds`).
- A group message that is overtaken by the next one of its peer is refused (`Flooding.NewIsGreater`). Connections
  that keep the order do not let that happen (`FloodOrder.HeardInOrder`), but one that is made while messages are
  under way does (`FloodOrder.LateConnection`).
- The replay window reaches exactly half a wrap ahead (`LossyWindow.ReachIsExact`); half a wrap or more behind it, a
  number is accepted again and takes the window back (`LossyWindow.ReachBehindIsExact`).
- `id_hash` can be zero, although its comment excludes it, exactly for bucket sizes 5, 17, 257 and 65537
  (`AssocHash.HashNotMultiple`, `AssocHash.FermatSizes`, `AssocHash.ZeroHash`).
- The "different spots" of `hash_collide` are different exactly for bucket sizes other than 5, 17, 5101 and
  10303 (`AssocProbe.TriesDiffer`).
- Reassembly counts bytes, so a piece that comes twice can pass for another one (`Rtp.DuplicatePassesForWhole`): at
  hand-over every piece is there exactly if none was taken twice (`RtpRepeats.AtHandOver`).
- Nothing remembers which messages were handed over: a message of one piece that comes twice is handed over twice
  (`RtpClock.TwiceHandedOver`), and one whose pieces alternate with those of another message of the same
  millisecond is begun again (`RtpClock.BegunAgain`). A part begins its message, also again, exactly if that is
  stamped no earlier than the message taken last (`RtpClock.BeginsExactly`). So after the 32-bit millisecond clock
  of the sender has wrapped, everything is dropped until it has caught up (`RtpClock.HandedExactly`).
- The tests before a part is copied look at its place and at its length, but not at both together, so the copy can
  go beyond the buffer (`RtpBounds.MisplacedOverruns`, and exactly when: `RtpBounds.OverrunsExactly`). It does not
  as long as parts lie inside their messages and agree about the length (`RtpBounds.SoundPacketsStayInside`).
- `get_close_nodes` takes a `want_good` that has no effect: nodes without proof of hardening are sent too
  (`CloseNodes.UntestedIsSent`). The wish is met all the same exactly when every eligible client that is not good has
  four closer eligible ones (`CloseNodes.WishMetExactly`).
- `new_Assoc` says of the odd numbers from 7 to 23 that all but 9 and 15 are prime; the code also handles 21.

Run `dafny verify dfyconfig.toml` to check the project.

## Model

| member | source | states |
|---|---|---|
| `Nonce.AdvanceValue` | toxcore/crypto_core.c:151-192 | adding k to a nonce is addition modulo 256^n on its big-endian value |
| `Nonce.AdvanceTwice` | toxcore/crypto_core.c:169-192 | adding j and then k is adding j + k |
| `Nonce.RepeatedIsAdvance` | toxcore/crypto_core.c:169-192 | k single increments are one addition of k |
| `Nonce.NoncesDistinct` | toxcore/crypto_core.c:151-167 | fewer than 2^192 increments never give the same nonce twice |
| `Nonce.NoncesRepeatAfterAll` | toxcore/crypto_core.c:151-167 | 2^192 increments give the first nonce again, so the bound is exact |
| `Nonce.IncrementNonce` | toxcore/crypto_core.c:151-167 | the byte loop with its carry adds one to the 192-bit number in the array |
| `Nonce.NumberToNonce` | toxcore/crypto_core.c:176-182 | the four bytes of a 32-bit number in network order, at the end of a zero nonce, spell that number |
| `Nonce.IncrementNonceNumber` | toxcore/crypto_core.c:169-192 | the byte loop adds any 32-bit number, with the carry below 2^9 throughout |
| `SecureStream.FramesAppend` | toxcore/TCP_server.c:398-453 | the stream of more packets is the stream of the first ones followed by the others under the nonces that come next |
| `SecureStream.FrameAt` | toxcore/TCP_server.c:398-453 | frame i of the stream is sealed under the i-th nonce after the first one and stands where the frames before it end |
| `SecureStream.NoNonceReused` | toxcore/TCP_server.c:398-453 | two frames among 2^192 have the same nonce only if they are the same frame |
| `SecureStream.Inbox.ReadLength` | toxcore/TCP_server.c:205-228 | two bytes are taken as soon as they are there and read in network order; too long a length is an error |
| `SecureStream.Inbox.ReadBytes` | toxcore/TCP_server.c:235-251 | a packet is taken whole or not at all |
| `SecureStream.Writer.SendPendingNonpriority` | toxcore/TCP_server.c:296-317 | whatever part the socket takes of last_packet, wire and backlog together stay the accepted frames; something is left exactly when the socket took less than it was given |
| `SecureStream.Writer.SendPending` | toxcore/TCP_server.c:331-365 | the same for last_packet and the priority queue; something is left exactly when the socket refused some of it |
| `SecureStream.Writer.SendFirst` | toxcore/TCP_server.c:340-355 | the same for one packet of the queue, which leaves the queue exactly when the socket took all of it |
| `SecureStream.Writer.AddPriority` | toxcore/TCP_server.c:370-392 | the rest of a packet joins the end of the backlog |
| `SecureStream.Writer.SendPriority` | toxcore/TCP_server.c:423-437 | a priority packet is on the wire or in the backlog to the last byte, behind everything accepted before; nothing is left of it if it was its turn and the socket took all |
| `SecureStream.Writer.SendNow` | toxcore/TCP_server.c:439-452 | an ordinary packet is taken whole, on the wire and in last_packet, exactly if the socket took some of it; otherwise not at all |
| `SecureStream.Writer.Accept` | toxcore/TCP_server.c:430-444 | after each accepted frame the nonce is the first one advanced by the number of frames |
| `SecureStream.Writer.Write` | toxcore/TCP_client.c:353-408 | wire ++ rest of last_packet ++ rest of the queue is the concatenation of all accepted frames in nonce order; a packet is put off only when the socket refused something, and without such a refusal it is accepted and nothing is left to send |
| `SecureStream.Writer.Offer` | toxcore/TCP_server.c:423-452 | its second half, once the frame has been made: taken, unless it is an ordinary packet of which the socket took nothing |
| `SecureStream.Reader.ReadNextLength` | toxcore/TCP_server.c:260-270 | the length read next is that of the next accepted frame, and never an error |
| `SecureStream.Reader.NextFrame` | toxcore/TCP_server.c:257-291 | with its length known, the next frame opens under its own nonce to the packet that was sent |
| `SecureStream.Reader.ReadNextPacket` | toxcore/TCP_server.c:272-291 | the next packet is read exactly when all of its frame has arrived |
| `SecureStream.Reader.Read` | toxcore/TCP_server.c:257-291 | the packets returned are the accepted ones in order; nothing is returned before it is complete, and an error means that the next packet is longer than the buffer |
| `SecureLink.Link.Write` | toxcore/TCP_server.c:398-453 | sending keeps the whole link in order: reader behind network behind writer; with a socket that takes everything every packet is accepted and sent at once |
| `SecureLink.Link.Flush` | toxcore/TCP_server.c:331-365 | unless the socket refuses some of it, all that is left goes out |
| `SecureLink.Link.ReadOne` | toxcore/TCP_server.c:257-291 | a read on a link never fails, and gives the next accepted packet |
| `SecureLink.Link.ReceiveAll` | toxcore/TCP_server.c:1100-1119 | however the stream was split, what is received is a prefix of what was accepted, and all of it once everything has been sent and has arrived |
| `SecureLink.Link.StillFollows` | toxcore/TCP_server.c:257-291 | accepting more packets does not disturb a reader that is behind |
| `SecureLink.Link.NothingLeft` | toxcore/TCP_server.c:257-291 | a reader that has to wait although everything has arrived has read everything |
| `BsList.MemcmpIsOrder` | toxcore/list.c:66 | the comparison of keys is that of the numbers they spell |
| `BsList.PlaceUnique` | toxcore/list.c:48-106 | a key that is not in a sorted list has exactly one place in it |
| `BsList.GoRight` | toxcore/list.c:72-87 | a step up stays in the list, ends at the place of the key or goes on with a smaller measure |
| `BsList.GoLeft` | toxcore/list.c:88-104 | the same for a step down |
| `BsList.InsertKeeps` | toxcore/list.c:177-215 | inserting at its place keeps the list sorted and adds one key to the map |
| `BsList.RemoveKeeps` | toxcore/list.c:217-246 | removing an entry keeps the list sorted and takes its key from the map |
| `BsList.List.Step` | toxcore/list.c:65-105 | one round of the search |
| `BsList.List.Find` | toxcore/list.c:48-106 | the step-halving search ends with the index of the key or the complement of its place |
| `BsList.List.FindId` | toxcore/list.c:165-175 | lookup in the map the list stands for |
| `BsList.List.Resize` | toxcore/list.c:114-135 | the entries survive a change of the capacity |
| `BsList.List.InsertAt` | toxcore/list.c:202-212 | the two moves open a gap at the same place in both arrays |
| `BsList.List.RemoveAt` | toxcore/list.c:239-243 | the two moves close it |
| `BsList.List.Add` | toxcore/list.c:177-215 | adds to the map, and refuses exactly a key that is there |
| `BsList.List.Delete` | toxcore/list.c:217-246 | removes from the map exactly a key that is there with this id |
| `BsList.List.Trim` | toxcore/list.c:248-256 | the map is unchanged and the capacity is the number of entries |
| `RelayTable.DataReachesPeerAndReplyReturns` | toxcore/TCP_server.c:839-865 | data sent on a link arrives at the peer that the slot names, and the reply comes back on the original slot |
| `RelayTable.LinkedIffMutual` | toxcore/TCP_server.c:590-663 | two confirmed connections are linked exactly when each holds a slot for the other |
| `RelayTable.RemoveSlotGood` | toxcore/TCP_server.c:695-723 | removing a slot keeps the invariant |
| `RelayTable.TakeSlotGood` | toxcore/TCP_server.c:633-662 | taking a slot for a peer that does not wait keeps it |
| `RelayTable.TakeAndLinkGood` | toxcore/TCP_server.c:633-662 | so does linking with a peer that waits |
| `RelayTable.AcceptGood` | toxcore/TCP_server.c:113-154 | so does a new connection |
| `RelayTable.KillGood` | toxcore/TCP_server.c:471-489 | so does the end of a connection |
| `RelayTable.GrowGood` | toxcore/TCP_server.c:67-95 | so does more room |
| `RelayTable.RequestGood` | toxcore/TCP_server.c:590-663 | so does a routing request |
| `RelayTable.RequestServed` | toxcore/TCP_server.c:590-663 | a request with room for it ends with a slot for the key, linked exactly when the peer is there and holds a slot for the requester |
| `RelayTable.EveryRun` | toxcore/TCP_server.c:113-723 | whatever has happened to a relay that started empty: links are symmetric, each end names the other, and a slot is linked exactly when the peer holds one for its owner |
| `RelayServer.Server.GetConnectionIndex` | toxcore/TCP_server.c:100-103 | the key index gives the place of the confirmed connection with a key |
| `RelayServer.Server.RemoveConnectionIndex` | toxcore/TCP_server.c:695-723 | slot and partner slot are changed and the partner is told; out of range is refused |
| `RelayServer.Server.KillAccepted` | toxcore/TCP_server.c:471-489 | all links of a connection are taken back and each of their other ends is told once, before the connection goes |
| `RelayServer.Server.DeleteAccepted` | toxcore/TCP_server.c:161-180 | a connection leaves table, index and count together |
| `RelayServer.Server.FindPlace` | toxcore/TCP_server.c:122-137 | a free place exists or is made |
| `RelayServer.Server.AddAccepted` | toxcore/TCP_server.c:113-154 | a new connection replaces one with the same key, whose peers are told; the key index keeps mapping exactly the confirmed keys to their places |
| `RelayServer.Server.ScanSlots` | toxcore/TCP_server.c:604-615 | the slot that names the key already, or the first unused one |
| `RelayServer.Server.ScanWaiting` | toxcore/TCP_server.c:640-647 | the first slot of the peer that waits for the requester |
| `RelayServer.Server.TakeSlotFor` | toxcore/TCP_server.c:633-662 | the table after a request, and notifications to both ends exactly when a link came up |
| `RelayServer.Server.HandleRoutingRequest` | toxcore/TCP_server.c:590-663 | result, table, answer and notifications for every request, the failed answers included; what the answered port means is in RelayClient.PortIsHeld |
| `RelayServer.Server.HandleOobSend` | toxcore/TCP_server.c:668-688 | out-of-band data goes to the connection of its key, or nowhere |
| `RelayServer.Server.ForwardData` | toxcore/TCP_server.c:839-865 | data goes to the other end of the link with the port number of that end, or is refused |
| `RelayServer.Server.HandleDisconnect` | toxcore/TCP_server.c:773-778 | a disconnect removes the slot and tells its other end, with the port number taken as a byte; refused exactly for a slot that is not in use |
| `RelayServer.Server.HandlePacket` | toxcore/TCP_server.c:751-869 | for every packet: whether it is refused, what it does to the table, and what is sent |
| `RelayServer.Server.Receive` | toxcore/TCP_server.c:1100-1119 | exactly a refused packet ends its connection, and then the peers of its links are told |
| `RelayServer.ThereAndBack` | toxcore/TCP_server.c:839-865 | what is forwarded over a link and answered on the port it came on returns to the sender on its own port |
| `RelayClient.PortIsHeld` | toxcore/TCP_server.c:590-663 | the port in the answer to a routing request is that of a slot for the key, between 16 and 255; it is 0 exactly for the own key or when there is no room |
| `RelayClient.PortReaches` | toxcore/TCP_client.c:434-458 | data on the answered port reaches the peer with that key as soon as the slot is linked, which is when the peer holds a slot for this connection |
| `RelayClient.NewsExactly` | toxcore/TCP_server.c:637-655 | a connection is told of a port exactly if its slot for that port has just been linked |
| `RelayClient.FarewellExactly` | toxcore/TCP_server.c:695-723 | a connection is told of the end of a link exactly if the link was that of its own port and ends by the removal of the other slot |
| `RelayClient.FarewellsExactly` | toxcore/TCP_server.c:471-489 | when a connection is killed, exactly the ports linked with it are told |
| `RelayClient.KilledAlone` | toxcore/TCP_server.c:471-489 | a connection that is killed is gone, and every other one keeps its place, its key and its slots |
| `RelayClient.RoomIsMade` | toxcore/TCP_server.c:113-135 | the array grows only when it is full; what is there stays, and there is a free place |
| `RelayClient.DisconnectFrees` | toxcore/TCP_server.c:773-778 | a disconnect request frees the slot of its port and no other |
| `RelayClient.RequestAnswered` | toxcore/TCP_server.c:590-663 | a request is answered first; notifications follow exactly for what has been linked |
| `RelayClient.OobReaches` | toxcore/TCP_server.c:668-688 | data for a key goes to whoever is connected with it, under the key of the sender, and to nobody otherwise |
| `RelayClient.DecodedEncoded` | toxcore/TCP_client.c:410-588 | what a client sends can be told from the bytes |
| `RelayClient.EncodedDecoded` | toxcore/TCP_client.c:410-588 | and there is no other way to send it |
| `RelayClient.KeptExactly` | toxcore/TCP_server.c:751-869 | apart from kind 2, which it ignores, the relay keeps a connection exactly for the packets that a client sends, when the slot is in use and the answer can be written |
| `RelayClient.Served` | toxcore/TCP_server.c:751-869 | what each packet of a client is answered and does to the table |
| `FileTransfer.Slot.FileControl` | toxcore/Messenger.c:1137-1217 | which controls are refused with which error, and what the others make of the slot; what that means is in FileTransfer.ControlsAllowed |
| `FileTransfer.Slot.FileSeek` | toxcore/Messenger.c:1230-1282 | a seek is sent only by a receiver that has not accepted, within the file |
| `FileTransfer.Slot.FileData` | toxcore/Messenger.c:1318-1375 | which data is refused with which error, and the slot after data was sent |
| `FileTransfer.Slot.RequestChunks` | toxcore/Messenger.c:1404-1485 | what one slot does with the free packets: the end of a sent file, the single packet of an empty one, or the chunks asked for |
| `FileTransfer.Slot.RequestLoop` | toxcore/Messenger.c:1445-1478 | as many chunks are asked for as there are free packets, unless the slot is paused or all is asked for |
| `FileTransfer.Slot.HandleFileControl` | toxcore/Messenger.c:1506-1590 | what a control packet does to a slot, which are out of order, and that a kill goes back exactly when there is no transfer |
| `FileTransfer.Slot.HandleSendRequest` | toxcore/Messenger.c:2032-2085 | a request opens an idle slot and no other |
| `FileTransfer.Slot.HandleFileData` | toxcore/Messenger.c:2104-2157 | data is taken exactly by a slot that is transferring; it moves the position by what is passed on and closes the slot at its end |
| `FileTransfer.ControlsAllowed` | toxcore/Messenger.c:1137-1217 | a client may accept what was offered to it, resume what it has paused itself, pause what is running and not paused by it, and kill; each error exactly when it applies; and each control that is allowed changes its own flag and no other |
| `FileTransfer.DataAllowed` | toxcore/Messenger.c:1318-1345 | data is allowed exactly at the place where the file has got to, once asked for, in whole chunks before the end of a file of known size |
| `FileTransfer.SeekAllowed` | toxcore/Messenger.c:1230-1262 | a seek is allowed exactly before the transfer is accepted and inside the file |
| `FileTransfer.ControlsHandled` | toxcore/Messenger.c:1506-1590 | which control packets are in order; the others change nothing |
| `FileTransfer.PassedIsMissing` | toxcore/Messenger.c:2110-2130 | no more of a data packet is passed on than is missing |
| `FileTransfer.EmptyIsSent` | toxcore/Messenger.c:1430-1441 | an empty file that has been accepted is sent as soon as one packet may be |
| `FileSession.StepKeeps` | toxcore/Messenger.c:1137-1590 | every step of either end or of a channel keeps the invariant of the whole transfer |
| `FileSession.RunOk` | toxcore/Messenger.c:1137-1590 | so it holds after every run |
| `FileSession.GotIsSent` | toxcore/Messenger.c:2104-2157 | in every run the pieces received are the first pieces sent, with the same positions; if data closed the receiver it has everything, and the last piece is the one that finished the sender |
| `FileSession.GotIsFile` | toxcore/Messenger.c:2104-2157 | in every run in which the sender reads from a file, of known or unknown size, the bytes received are file[seek..transferred]; if data closed the receiver they go up to where the sender stopped, which for a known size is its end |
| `FileSession.ChunksTile` | toxcore/Messenger.c:1404-1485 | in every run transferred <= requested <= size, the chunks asked for lie end to end, and only bytes that were asked for are sent |
| `FileSession.TiledApart` | toxcore/Messenger.c:1404-1485 | chunks that lie end to end are contiguous and disjoint |
| `FileSession.AlignedExactly` | toxcore/Messenger.c:1318-1375 | requested - transferred is a multiple of the chunk size or the rest of the file, in every run, exactly unless a file of unknown size was ended by a piece that is neither empty nor full |
| `FileSession.StreamEndsUnaligned` | toxcore/Messenger.c:1318-1375 | a run in which it is not |
| `FilePauses.SenderHeardStep` | toxcore/Messenger.c:1137-1590 | every step keeps this: what the receiver knows of the pauses of the sending client, with the control packets on the way to it, is true |
| `FilePauses.ReceiverHeardStep` | toxcore/Messenger.c:1137-1590 | and the same for the pauses of the receiving client, until everything has been sent |
| `FilePauses.PausesKnown` | toxcore/Messenger.c:1137-1590 | in every run each end is paused by its client exactly if the other end knows, or will once the control packets under way have arrived |
| `FilePauses.PausesAgree` | toxcore/Messenger.c:1137-1590 | so without control packets under way both ends agree who has paused and whether the transfer goes on |
| `FilePauses.PausedAsksNothing` | toxcore/Messenger.c:1404-1485 | over every run a sender that is paused by its client asks for no chunk until it is resumed |
| `FilePauses.ResumedAsks` | toxcore/Messenger.c:1404-1485 | and then it does, unless the friend has paused it too |
| `GroupClosest.CalculateCompValue` | toxcore/group.c:191-203 | the difference modulo 2^64 of the numbers that begin the two keys |
| `GroupClosest.RingDistance` | toxcore/group.c:191-203 | the distance of a peer is the number of steps from the own key to it on the ring of 2^64 places: down for the first two entries, up for the last two |
| `GroupClosest.EvictionFalls` | toxcore/group.c:274-286 | each eviction lowers the sum of the distances, so the recursion ends for all keys |
| `GroupClosest.AddDistinct` | toxcore/group.c:214-292 | no key is held twice and the own key is never held |
| `GroupClosest.AddPlaces` | toxcore/group.c:214-292 | a peer that was held, or no nearer than any holder in the metric of its slot, stays so |
| `GroupClosest.OfferPlaces` | toxcore/group.c:324-328 | after offering any sequence of peers, no peer that was offered and is not held is nearer than any holder in the metric of that slot |
| `GroupClosest.AddOrigin` | toxcore/group.c:214-292 | whoever is held was held before or was offered |
| `GroupClosest.FindVictim` | toxcore/group.c:240-264 | the two loops find an entry that is farther than the new key in its own metric, if there is one |
| `GroupClosest.Locate` | toxcore/group.c:227-238 | whether a key is held, and the first unused entry |
| `GroupClosest.AddToClosest` | toxcore/group.c:214-292 | the recursive update in place, and when it reports success |
| `GroupClosest.AcceptsExactly` | toxcore/group.c:221-267 | the answer says whether the node was held already or the entries have changed |
| `PeerList.AddGood` | toxcore/group.c:384-435 | adding a peer keeps keys and peer numbers pairwise distinct |
| `PeerList.AddExactly` | toxcore/group.c:384-415 | a peer is refused exactly when it would take the number of another one or change its own, and nobody else is touched |
| `PeerList.DeleteGood` | toxcore/group.c:467-517 | so does deleting one |
| `PeerList.EntryParts` | toxcore/group.c:1451-1503 | the parts of a packed entry are where the reader looks for them |
| `PeerList.HandleEntries` | toxcore/group.c:1505-1546 | reading the entries of peers not yet known adds exactly these peers |
| `PeerList.HandleAllRebuilds` | toxcore/group.c:1505-1546 | so do several packets |
| `PeerList.HandleFramed` | toxcore/group.c:1515-1545 | only whole entries with names of at most 128 bytes are read to the end |
| `PeerList.HandleRefused` | toxcore/group.c:1520-1523 | and reading ends where a peer is refused |
| `PeerList.SendPeers` | toxcore/group.c:1451-1503 | wherever the list is split, no packet is too long, and the packets, read into an empty group, rebuild exactly the list of numbers, keys and names |
| `PeerList.PackPeers` | toxcore/group.c:1461-1500 | the packets carry all peers in order |
| `GroupChat.AddedKeeps` | toxcore/group.c:384-435 | adding a peer keeps the choice of neighbours right |
| `GroupChat.DeletedKeeps` | toxcore/group.c:467-517 | deleting one keeps it right except where a neighbour is missing |
| `GroupChat.ReofferKeeps` | toxcore/group.c:312-328 | offering all peers again makes it right after removals |
| `GroupChat.Group.AddPeer` | toxcore/group.c:384-435 | the peer list and the neighbours after a peer joined |
| `GroupChat.Group.DeletePeer` | toxcore/group.c:467-517 | the peer list and the neighbours after a peer left |
| `GroupChat.Group.VacateEntry` | toxcore/group.c:476-482 | the entry of a neighbour that leaves is vacated and noted |
| `GroupChat.Group.SetNick` | toxcore/group.c:519-543 | the name of one peer changes, if it is not too long |
| `GroupChat.Group.ConnectToClosest` | toxcore/group.c:312-328 | after it no peer left out is nearer than a neighbour |
| `GroupChat.Group.HandleSendPeers` | toxcore/group.c:1505-1546 | the loop over a packet does what reading it entry by entry means, malformed packets included |
| `LossyWindow.StepRefines` | toxcore/group.c:1987-2036 | with numbers within reach, the 256-entry bitmap over wrapping 16-bit numbers is the set of accepted numbers in the window |
| `LossyWindow.NeverAgain` | toxcore/group.c:1987-2036 | over any series of arrivals an accepted number is never accepted again |
| `LossyWindow.AcceptedOnce` | toxcore/group.c:1987-2036 | each number is accepted at most once |
| `LossyWindow.UnseenAccepted` | toxcore/group.c:1987-2036 | a number is accepted exactly when it is new and in the window or ahead of it |
| `LossyWindow.ReachIsExact` | toxcore/group.c:2008-2019 | half a wrap is exactly how far ahead of the window a number may be |
| `LossyWindow.ReachBehindIsExact` | toxcore/group.c:2008-2019 | a number behind the window is accepted again, and takes the window back, exactly when it is half a wrap or more behind |
| `LossyWindow.WrapBehind` | toxcore/group.c:1999-2006 | a whole wrap behind, a number is taken for the one in the window with the same low bits |
| `LossyWindow.PeerEntry.NotReceived` | toxcore/group.c:1987-2036 | the update in place of bitmap, bottom and top |
| `Flooding.NewIsGreater` | toxcore/group.c:1833-1838 | for honest numbers, exactly the next 64 after the last one are new, and any number if there is none yet |
| `Flooding.OldNumberReturns` | toxcore/group.c:1833-1838 | a number no greater than the last one is taken for new exactly at the end of the 32-bit range, or when both are 0 |
| `Flooding.Member.HandleMessage` | toxcore/group.c:1805-1840 | a message is accepted exactly when it is new, and its number is remembered |
| `Flooding.Member.NextNumber` | toxcore/group.c:1717-1749 | the own numbers count up and leave out zero |
| `Flooding.AcceptedOnce` | toxcore/group.c:1805-1930 | over every run and topology, with peers becoming known on the way, each member accepts each message at most once, and the numbers from a peer strictly increase |
| `Flooding.DeliverLowers` | toxcore/group.c:1601-1624 | every arrival over given connections lowers what is under way and may still be sent over them, and no arrival raises it |
| `Flooding.LearnSame` | toxcore/group.c:1855-1865 | nor does a peer that becomes known |
| `Flooding.LearntIsHeard` | toxcore/group.c:384-415 | a member that gets to know a peer accepts its next message, whatever its number, and nothing else changes |
| `Flooding.FloodEnds` | toxcore/group.c:1601-1624 | so a flood ends on any given connections, whatever the order of arrival and whoever becomes known |
| `Flooding.AllFloodsEnd` | toxcore/group.c:1601-1624 | and altogether |
| `Flooding.OneFlood` | toxcore/group.c:1601-1624 | one message crosses each connection at most once, and at most twice if it is one of the sender |
| `Flooding.ZeroNeverEnds` | toxcore/group.c:1833-1838 | a message with number 0 goes back and forth for ever, and is accepted each time |
| `Flooding.Member.AddPeer` | toxcore/group.c:384-435 | a peer that becomes known starts with number 0, and one that is known keeps its number |
| `FloodReach.WayInside` | toxcore/group.c:1601-1624 | what spreads from member to member spreads along every way over the connections |
| `FloodReach.ReachesReady` | toxcore/group.c:1805-1930 | once nothing is under way any more, a message has been accepted by all members to whom a way leads over members that were ready for it, and only where a way over members that have accepted it leads; in any order of arrival |
| `FloodReach.ReachesExactly` | toxcore/group.c:1805-1930 | if all were ready, exactly the members have accepted it to whom some way over the connections leads |
| `FloodOrder.ArrivalKeeps` | toxcore/group.c:1805-1930 | on connections that keep the order, an arrival keeps the invariant: every packet comes in turn, and all that a member has passed on has come or is under way |
| `FloodOrder.SayingKeeps` | toxcore/group.c:1721-1749 | so does a message that is sent, by this peer or another |
| `FloodOrder.HeardInOrder` | toxcore/group.c:1805-1930 | with any number of messages of a peer under way, and others sending too: at any time every member has accepted a beginning of what it sent, in order and without gaps, and once nothing of it is under way, everything that it sent if a way leads to the member |
| `FloodOrder.LateConnection` | toxcore/group.c:1833-1838 | a connection that is made meanwhile lets a later message overtake, and the earlier one is refused for good |
| `XorMetric.DistanceInjective` | toxcore/DHT.c:74-92 | different keys have different distances |
| `XorMetric.FirstDifference` | toxcore/DHT.c:74-92 | the first byte in which two distances differ decides |
| `XorMetric.IdClosest` | toxcore/DHT.c:74-92 | the loop compares the XOR distances as numbers |
| `XorMetric.ComparisonOrders` | toxcore/DHT.c:74-92 | the comparison is 0 exactly for equal keys and turns round with them; nothing is nearer to a key than the key itself |
| `CloseNodes.AddToListEvictsFarthest` | toxcore/DHT.c:473-497 | what is left over of the list and the new node is one of them, and none is farther |
| `CloseNodes.AddInPlace` | toxcore/DHT.c:473-497 | the recursion in place on a full, unsorted list, and its result |
| `CloseNodes.AppendSelected` | toxcore/DHT.c:556-562 | a list with room that holds all keys seen holds all with one more |
| `CloseNodes.ReplaceSelected` | toxcore/DHT.c:563-565 | a full list with the four closest of all keys keeps the four closest with one more |
| `CloseNodes.SearchClient` | toxcore/DHT.c:524-565 | one client is skipped, appended or exchanged for the farthest |
| `CloseNodes.SearchList` | toxcore/DHT.c:513-569 | one client list |
| `CloseNodes.SearchFriends` | toxcore/DHT.c:592-595 | the lists of all friends |
| `CloseNodes.GetCloseNodes` | toxcore/DHT.c:579-608 | the result is exactly the min(4, n) closest of the n different keys for which the close list or a friend list gives an address: one of the family asked for, or the newer one, heard of less than 122 seconds ago, and local only for a local asker; each node has such an address; want_good is not asked for |
| `CloseNodes.GivesExactly` | toxcore/DHT.c:529-554 | a client is eligible exactly if one of its addresses is the one wanted, fresh and not local to a distant asker, and that address is sent |
| `CloseNodes.WishMetExactly` | toxcore/DHT.c:579-608 | the keys of the result are the closest of the good ones exactly when every key that is eligible but not good has four closer eligible ones |
| `CloseNodes.ClosestExactly` | toxcore/DHT.c:473-497 | a key is among the closest exactly when fewer than four are closer |
| `CloseNodes.GoodExactly` | toxcore/DHT.c:579-608 | with the addresses too, the result is one that asks for good nodes exactly when each of its nodes comes from a client eligible for that |
| `CloseNodes.UntestedIsSent` | toxcore/DHT.c:579-608 | an input on which it is not |
| `NodeCodec.PackOfUnpacked` | toxcore/DHT.c:290-354 | whenever unpacking succeeds, packing the result gives exactly the bytes taken, and nothing more could have been taken |
| `NodeCodec.UnpackOfPacked` | toxcore/DHT.c:290-354 | whatever list of expected nodes stands at the front of the bytes is unpacked |
| `NodeCodec.RoundTrip` | toxcore/DHT.c:228-354 | for any mix of the four families every node comes back and every byte is used |
| `NodeCodec.PackedBytes` | toxcore/DHT.c:228-281 | the bytes of a packed node: 2, 10, 130 or 138 for its family, then address, port and key |
| `NodeCodec.PackNodes` | toxcore/DHT.c:228-281 | packing succeeds exactly when every family is known and all fits; the rest of the buffer is untouched |
| `NodeCodec.UnpackAfter` | toxcore/DHT.c:290-354 | nodes already taken do not make up for a malformed rest |
| `NodeCodec.UnpackNodes` | toxcore/DHT.c:290-354 | the loop gives nodes, number and length, and fails exactly on malformed bytes |
| `SharedKeys.RequestKeeps` | toxcore/DHT.c:121-162 | every request keeps entries in the slot of their key with the right shared key, and no key twice |
| `SharedKeys.NotElsewhere` | toxcore/DHT.c:121-162 | a key that its slot does not hold is nowhere in the cache |
| `SharedKeys.RequestStores` | toxcore/DHT.c:153-161 | after a request its slot holds the key, except when it is full of fresh entries requested 2^32 - 1 times |
| `SharedKeys.LeastGivesWay` | toxcore/DHT.c:136-161 | a fresh entry gives way only in its own slot, when all four are fresh, and to no entry requested less often, unless its count has wrapped to 0; nothing else changes |
| `SharedKeys.FoundIsCounted` | toxcore/DHT.c:126-135 | a key that is found is counted, fresh again, and nothing else changes |
| `SharedKeys.Cache.GetSharedKey` | toxcore/DHT.c:121-162 | whatever was evicted or timed out, the result is the precomputed key; the entry replaced is the first of those worth least |
| `TokenRing.StepTokens` | super_donators/grencez_tok5.c:23-39 | a step loses one token if it sends nothing and none otherwise |
| `TokenRing.StepConsistent` | super_donators/grencez_tok5.c:23-39 | the newest message in a pipe is the value of its sender, and an empty pipe leaves nothing to do |
| `TokenRing.SomeoneEnabled` | super_donators/grencez_tok5.c:27-39 | the processes of a ring of any size cannot all be disabled |
| `TokenRing.TokenExists` | super_donators/grencez_tok5.c:23-39 | so the last token is never lost |
| `TokenRing.RunTokens` | super_donators/grencez_tok5.c:23-39 | in every run the tokens gone are exactly the silent steps, and one remains |
| `TokenRing.Actions` | super_donators/grencez_tok5.c:27-39 | which messages make a process take which value, and that it never takes the one it has |
| `TokenRing.SingleTokenForever` | super_donators/grencez_tok5.c:23-39 | a single token stays single |
| `TokenRing.NeverStuck` | super_donators/grencez_tok5.c:23-39 | the ring can always go on, and fewer messages are lost than there are processes |
| `TokenRing.Ring.StartProcess` | super_donators/grencez_tok5.c:26 | a process sends its first value |
| `TokenRing.Ring.ReceiveMessage` | super_donators/grencez_tok5.c:27-39 | one turn of the loop of a process, in place |
| `RingTableau.ColumnOfZeros` | super_donators/grencez_tok5.c:28-39 | when process 0 takes the value 1, all processes took 0 on the message before |
| `RingTableau.Ladder` | super_donators/grencez_tok5.c:28-39 | the values 3 and 4 that a 1 leaves behind in the processes after it |
| `RingTableau.OnesFarApart` | super_donators/grencez_tok5.c:28-39 | while no token is lost, process 0 takes the value 1 at most once in as many turns as there are processes |
| `RingTableau.OneAppears` | super_donators/grencez_tok5.c:28-39 | while no token is lost, it does so some time |
| `RingTableau.SingleToken` | super_donators/grencez_tok5.c:28-39 | values of a run without loss that is long enough belong to a single token |
| `RingConvergence.RunRecorded` | super_donators/grencez_tok5.c:23-39 | a run without loss leaves a record in which each value is the action on the message of the same rank |
| `RingConvergence.AllClose` | super_donators/grencez_tok5.c:23-39 | no process gets ahead of another by more than the tokens there are |
| `RingConvergence.QuietMeansSingle` | super_donators/grencez_tok5.c:1-39 | a ring of n processes that loses no token for n * (7 * n + 1) steps has a single one |
| `RingConvergence.Stabilises` | super_donators/grencez_tok5.c:1-39 | self-stabilisation: for every size, every choice of values and every schedule there is a single token after (n - 1) * n * (7 * n + 1) steps |
| `RingConvergence.EveryoneActs` | super_donators/grencez_tok5.c:23-39 | a single token visits every process within 2 * n steps |
| `RingConvergence.GoesOn` | super_donators/grencez_tok5.c:23-39 | from every choice of values there are runs of any length |
| `RtpHeader.DecodeEncode` | toxav/rtp.h:37-66 | a header survives the wire; the layout is section 5.1 of RFC 3550 with all CSRC places, then cpart and tlen |
| `RtpHeader.EncodeDecode` | toxav/rtp.h:37-66 | no two byte strings stand for the same header |
| `Rtp.PiecesPartition` | toxav/rtp.c:155-180 | the pieces of a message, one after the other, are the message |
| `Rtp.TotalFull` | toxav/rtp.c:318-332 | as many bytes have come as the message has exactly when every piece has come |
| `Rtp.WholeMessage` | toxav/rtp.c:315-332 | with all pieces in place the message is as it was sent |
| `Rtp.HoldsFirst` | toxav/rtp.c:381-388 | what the move of the first piece leaves behind is no part of what has come |
| `Rtp.HoldsMore` | toxav/rtp.c:307-318 | a further piece fits and does not disturb the others |
| `Rtp.ArrivalPacketsAreSent` | toxav/rtp.c:108-185 | the packets that arrive are packets of the message as it was sent |
| `Rtp.OneMessage` | toxav/rtp.c:227-393 | however the pieces of a message are ordered and whichever are lost, the receiver holds exactly those that came, copies nothing outside the buffer, and calls the handler at the last of all |
| `Rtp.Stream` | toxav/rtp.c:227-393 | over whole streams, in which all pieces of a message come before those of the next, the handler is called once for each message of which anything arrived, in order, with all that arrived of it in place, as long as the clock of the sender does not turn back |
| `Rtp.LosslessStream` | toxav/rtp.c:108-393 | without loss a new session calls the handler exactly once for each message with the bytes that were sent, as long as the clock of the sender does not turn back; for every other case see RtpClock.HandedExactly |
| `Rtp.DuplicatePassesForWhole` | toxav/rtp.c:315-332 | a piece that arrives twice can pass for the whole message |
| `RtpRepeats.FullExactly` | toxav/rtp.c:318-332 | when as many bytes were taken as the message has, every piece is there exactly if none was taken twice |
| `RtpRepeats.SameExactly` | toxav/rtp.c:315-332 | the bytes are those that were sent exactly if what stands in place of each missing piece happens to be that piece |
| `RtpRepeats.AtHandOver` | toxav/rtp.c:227-393 | both, for a message at its hand-over, with its pieces in any order and each as often as it likes |
| `RtpMixed.AnyMixture` | toxav/rtp.c:227-393 | with packets lost, reordered and mixed across messages of any times: what is handed over is made of pieces of one message each, in their places, with times that never fall; no piece goes into two of them, and nothing is copied outside a buffer |
| `RtpMixed.InOrderOfSending` | toxav/rtp.c:227-393 | if each message is stamped later than the one before, they are different messages in the order of sending |
| `RtpMixed.WholeOnce` | toxav/rtp.c:227-393 | whatever the times, a message is handed over with all its pieces at most once |
| `RtpMixed.MadeWhole` | toxav/rtp.c:227-393 | those that have all their pieces have the bytes that were sent |
| `RtpClock.CurrentKept` | toxav/rtp.c:227-393 | a message that is being put together is the one taken last |
| `RtpClock.BeginsExactly` | toxav/rtp.c:333-388 | a part of a message that is not being put together begins it, for the first time or again, exactly when its time is no earlier than that of the message taken last, and changes nothing otherwise |
| `RtpClock.HandedExactly` | toxav/rtp.c:227-393 | of messages that arrive whole one after the other, whatever their times and however often, exactly those are handed over that are stamped no earlier than any before them, with the bytes that were sent |
| `RtpClock.AllKept` | toxav/rtp.c:227-393 | with a clock that never turns back, these are all |
| `RtpClock.TwiceHandedOver` | toxav/rtp.c:282-289 | a message of one piece that comes twice is handed over twice |
| `RtpClock.BegunAgain` | toxav/rtp.c:333-388 | two messages of the same time whose pieces alternate are begun again and handed over in parts |
| `RtpBounds.OverrunsExactly` | toxav/rtp.c:302-388 | for any session and packet: the copy of a part overruns its buffer exactly when the tests of the receiver let the part pass and its end lies beyond the message |
| `RtpBounds.MisplacedOverruns` | toxav/rtp.c:302-316 | two packets after which it does |
| `RtpBounds.SoundPacketsStayInside` | toxav/rtp.c:227-393 | packets whose parts lie inside their messages, with one length for each message, never overrun a buffer, in whatever order and however often |
| `RtpSession.Session.SendData` | toxav/rtp.c:108-185 | the packets of a message, each at most 1373 bytes, and the next sequence number |
| `RtpSession.Session.SendPieces` | toxav/rtp.c:155-180 | the loop over the pieces |
| `RtpSession.SentBytes` | toxav/rtp.c:108-185 | every byte of a packet that is sent, with type, version, sequence number, time, source, place and length in network order |
| `RtpSession.Session.HandlePacket` | toxav/rtp.c:227-393 | the update in place of the session for every packet, its result, and whether the copy of a part would overrun its buffer |
| `RtpSession.SentInOrder` | toxav/rtp.c:183 | later messages of a session follow earlier ones as the receiver expects it, as long as the 32-bit clock has not wrapped between them |
| `Primes.OddIsPrime` | toxcore/assoc.c:753-765 | trial division by odd numbers up to the root decides primality |
| `Primes.PrimeUpto` | toxcore/assoc.c:767-776 | the greatest prime up to the limit |
| `Primes.Euclid` | toxcore/assoc.c:216-241 | a prime that divides a product divides a factor |
| `AssocHash.BucketSize` | toxcore/assoc.c:801-827 | the bucket size is the greatest prime other than 101 up to the number asked for, at least 5 and at most 131071 |
| `AssocHash.IdHash` | toxcore/assoc.c:199-212 | the loop on 32-bit numbers |
| `AssocHash.HashNotMultiple` | toxcore/assoc.c:206-209 | a hash is no multiple of the size exactly unless the last 32-bit number is one and the raw hash is that number |
| `AssocHash.FermatSizes` | toxcore/assoc.c:206-209 | among possible bucket sizes that concerns 5, 17, 257 and 65537 |
| `AssocHash.ZeroHash` | toxcore/assoc.c:199-212 | for these there is a key whose hash is zero, which marks an unused place |
| `AssocProbe.FallbackDead` | toxcore/assoc.c:216-241 | hash_collide maps residues other than zero to residues other than zero without its fallback |
| `AssocProbe.FallbackOnlyForMultiples` | toxcore/assoc.c:231-238 | the fallback is taken exactly for multiples of the size |
| `AssocProbe.ProbeFrom` | toxcore/assoc.c:216-241 | d tries on, a position is multiplied by the d-th power of 101 |
| `AssocProbe.TriesDiffer` | toxcore/assoc.c:214-241 | the five tries are at different places exactly for bucket sizes other than 5, 17, 5101 and 10303 |
| `AssocTable.SearchIsExact` | toxcore/assoc.c:349-367 | a key with a hash other than zero is found on its path exactly when it is stored |
| `AssocTable.CreateKeeps` | toxcore/assoc.c:458-507 | a new entry on its path keeps every entry on its own path and every key once, and is found |
| `AssocTable.Search` | toxcore/assoc.c:349-367 | the loop over the five tries |
| `AssocTable.CreateInternal` | toxcore/assoc.c:401-456 | the place is an unset one if there is any, and otherwise the one that is stalest by the times of its entry, if that gives way to the new one |
| `AssocTable.PlaceIsStalest` | toxcore/assoc.c:401-456 | in times: an entry gives way if it was not used for 122 seconds, nor seen for 1800 unless the new one is used, nor heard of for 600 unless the new one is seen; the one chosen gives way to whatever another would |
| `AssocTable.NewEntryStays` | toxcore/assoc.c:458-507 | a new entry does not give way to another one like it |
| `AssocTable.RefreshedStays` | toxcore/assoc.c:369-399 | nor does a refreshed one, and it gives way to nothing to which it did not before |
| `AssocTable.CreateNew` | toxcore/assoc.c:458-507 | the entry at the place that is chosen, and no other, is exchanged; with an unknown address family it is only cleared |
| `AssocTable.AddToBucket` | toxcore/assoc.c:587-595 | a known entry has its times refreshed, another key is created, each at its place; at most one other key is lost, and none if the key was known or found no place |
| `AssocTable.Purge` | toxcore/assoc.c:531-541 | the tries for a key are cleared of it, and other keys stay |
| `AssocTable.Assoc.SelfUpdate` | toxcore/assoc.c:511-542 | once the own key is set, its entries are removed and other keys stay |
| `AssocTable.IdBucket` | toxcore/assoc.c:324-337 | the bucket is the number that the first bits of the key spell |
| `AssocTable.OnlyInItsBucket` | toxcore/assoc.c:344-347 | a key can only be in its own bucket |
| `AssocTable.AddedAfter` | toxcore/assoc.c:587-595 | what the change of one bucket means for the keys in the whole table |
| `AssocTable.Assoc.AddTo` | toxcore/assoc.c:571-596 | the second half of it, for a key that is not the own one |
| `AssocTable.Assoc.AddEntry` | toxcore/assoc.c:552-596 | the result tells whether the key was known, is new or has no place, and one bucket is changed accordingly, for every hash; a key whose hash is zero is not in the table before or after, and any other one is there afterwards unless it has no place; at most one other key gives way, one that was not used for 122 seconds, nor seen for 1800 unless the new one is used, nor heard of for 600 unless the new one is seen; the own key is never there |

## Left out

- Sockets, epoll, handshakes, proxies, timers, threads, logging and failing allocation: time, the outcome of a
  write and the part of a write that is taken are parameters or arbitrary, and allocation succeeds.
- The cipher, the codecs and the network below: only the round trip of the cipher and the FIFO contract of
  `write_cryptpacket` in toxcore/net_crypto.h:313-323 are used.
- The client copy of the stream writer in toxcore/TCP_client.c is line for line that of the server and is
  modelled once; the linked priority queue is a sequence.
- A `recv` that returns fewer bytes than `ioctl` reported.
- Identifiers and counters that tell a relay connection from an older one in the same place, the ping
  bookkeeping, and what an onion request makes the relay send.
- Capacities in toxcore/list.c beyond the range of `int`.
- The number of files being sent, the loop over all 256 pipes (one pipe is modelled, with the number of free
  packets that the speed limit leaves as a parameter), the reuse of a file slot for a second transfer, and file
  names and ids.
- Titles and the own peer number in peer list packets, packets lost while the list is sent, and the
  friend connections that connect_to_closest opens and closes.
- Flooding.AcceptedOnce: peers may become known during the run but are not removed, since a peer that is removed
  and added again starts with an empty memory.
- FloodOrder.HeardInOrder: the connections stay as they are and every copy is written to its connection; members
  know the peer from the start.
- CloseNodes.GetCloseNodes: eligible clients have keys other than zero, which is the key of an unset entry.
- SharedKeys.Cache.GetSharedKey: one secret key for the life of the cache.
- Rtp.Stream: pieces are reordered within a message; RtpMixed.AnyMixture mixes those of different messages.
- RtpSession.SentInOrder: after a wrap of the clock later messages do not follow earlier ones, see
  RtpClock.HandedExactly.
- RtpSession.Session.HandlePacket: what the program does after a copy beyond its buffer is not defined and not
  modelled; the result of the handler and the bandwidth statistics are not modelled.
- AssocTable.Assoc.AddEntry: the addresses of an entry are not modelled; whether a heard address is stored is a
  parameter. The own key does not change.
- Sorting by distance in toxcore/assoc.c, the lists of the DHT's own friends, the containers and jitter buffers
  of toxav, and the sleep count of toxcore/TCP_connection.c.
- The bodies of onion and net_crypto, the clients, the bootstrap programs and other glue.
