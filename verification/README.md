# A verified model of the udap onion router

udap is an onion-routing daemon. This project models the parts of it that carry
the hard guarantees and proves them with Dafny 4.11:

- **IWP transport** (`BitMask`, `IwpTransit`, `IwpEndpoint`, `IwpProtocol`,
  `IwpDuplication`, `IwpWire`): a message is cut into an XMIT header and fragments, acknowledged by a 32-bit mask,
  retransmitted, reassembled, hash-checked and handed to the router. Two endpoints
  and the frames in flight between them form one step system, and every frame of
  every run is carried through its byte layout, padding and cipher.
- **Handshake and frame cipher** (`Crypto`, `Handshake`): intro, introack and
  session start over one work buffer, then sealed frames with padding.
- **Path build and onion relay** (`EncryptedFrame`, `CommitRecord`, `PathContext`,
  `PathExpiry`, `PathBuild`, `RelayCommit`, `OnionRelay`, `BuildThenRelay`): a client seals one
  record per hop, hops open, accept, rotate and forward; then data is relayed with
  one layer of xor per hop.
- **Bencode and router contacts** (`Buffer`, `Bencode`, `RouterContact`,
  `RouterContactDecode`, `RouterContactSign`, `MalformedInput`): the byte buffer with
  its cursor, writers and readers, the signed contact of a router, and what the decoders
  accept whatever arrives.
- **DHT** (`DhtMetric`, `DhtLookup`): nearest-node search in the xor metric,
  recursive forwarding, pending transactions with bounded retry.
- **Timer, CoDel, INI** (`Timer`, `TimerRemoval`, `TimerTime`, `CoDel`, `Ini`,
  `IniRoundTrip`, `IniExact`): the concurrent scheduler, when it runs what and what
  removals do to it, the queue with
  wrap-around times, the parser and printer pair.

`dafny verify dfyconfig.toml` checks everything.

## How to read it

State that the source updates in place is a class whose methods are proved against
functions on values; theorems over whole runs are lemmas about those functions.
Randomness, clocks, the allocator and uninitialised memory are parameters. The
cipher is xor with an arbitrary key stream, hashes are arbitrary functions, and the
curve is known only through the agreement of section 6.1 of RFC 7748. Section
"bencoding" of BEP 3 describes the encoding.

Assumptions of single theorems:

- `IwpProtocol.EveryRunIsSafe`: the network may lose, reorder and duplicate frames
  but delivers only frames that were sent. `IwpProtocol.DeliveredAtMostOnce`: in
  addition XMIT frames are not duplicated, others may be;
  `IwpDuplication.DuplicatedXmitDeliversTwice` shows that this is needed for every
  message. `IwpWire.EveryFrameCrosses`: hashes have 32 bytes.
- `BuildThenRelay.BuildThenRelay`: the ids of the path are distinct and unknown to
  the network, neighbouring routers differ and the client is not a hop.
  `RelayCommit.PathIsBuilt` needs only that neighbouring routers differ: it holds for
  any tables the routers have when the message reaches them, unless one has got the
  very same hop already.
- `PathExpiry.HopLivesItsTime` and `PathExpiry.BuildingLivesItsTime`: the ids are not
  used by anyone else. `RouterContactSign.ChangedContactIsRefused`: the signature
  verifies over one text only. `MalformedInput.DecodedContactIsShaped`: inet_pton fills
  16 bytes.
- `DhtLookup.LookupsAreBounded`: a job is queued once. `Timer.AtMostOnce`: the clock
  is positive.

Where the code does less than one would expect, the exact condition is proved:

- An address is refused by the decoder if its rank or port is 0 or its dialect has
  more than five bytes, and a contact if its update time is 2^64-1
  (`RouterContactSign.RcReadBack`, an equivalence).
- `FindClosest` claims a result it never wrote when the only node is at the distance
  of all ones (`DhtMetric.SearchesAgree`, an equivalence).
- A lookup that is retried never calls its hook
  (`DhtLookup.MissCallsHookOrLosesIt`).
- A removed timer can still be freed if and only if it had been queued by then and the
  scheduler runs (`TimerRemoval.RemovedIsFreedExactly`). A worker calls a cleared
  function pointer if and only if the removal hit between its test and its use of the
  pointer (`TimerRemoval.NullCallExactly`).
- CoDel never drops, whatever the clock does (`CoDel.NothingIsDropped`): the branch
  of Process that deletes an item is dead for queues used through Put and Process.
- A tree survives dump and parse if and only if its names, keys and values are clean,
  siblings differ, no key makes its line a comment, and every section without a name
  has no values and is followed in print by a section with one or by nothing
  (`IniExact.RoundTrip`). Otherwise the brackets without a name run into the next line
  (`IniExact.UnnamedSectionIsMisread`).
- A message is cut into the right fragments if and only if it has fewer than 256 full
  ones (`IwpTransit.CutUnlessWrapped`); a link message has at most 31.
- A router that forwards a recursive lookup is closer to the target than the one that
  asked it if and only if that is another router, and only the first router of a chain
  can ask itself (`DhtLookup.ForwarderIsCloser`).
- The client addresses the first hop by the id on which that hop sends upstream, not
  by the one it listens on; both are in its table (`OnionRelay.UpstreamJourney`).

## Model

| member | source | states |
|---|---|---|
| BitMask.AckOfMask | udap/iwp_link.cpp:262-309 | `ack(get_bitmask())` is exactly the union of the two bit sets |
| BitMask.GetBitmask | udap/iwp_link.cpp:263-273 | the 32-bit mask has exactly the bits of the status |
| BitMask.Ack | udap/iwp_link.cpp:297-309 | acknowledging a mask adds exactly its bits to the status |
| IwpTransit.PutMessage | udap/iwp_link.cpp:380-408 | the loop cuts any message into full pieces under an 8-bit index, the latest piece winning where it wraps, and a last piece |
| IwpTransit.CutUnlessWrapped | udap/iwp_link.cpp:380-408 | every piece is under its own index if and only if there are fewer than 256; a link message has at most 31, sizes within the MTU |
| IwpTransit.IsCompleted | udap/iwp_link.cpp:319-327 | true exactly when every announced fragment is in the status |
| IwpTransit.Reassemble | udap/iwp_link.cpp:362-377 | joins the fragments in order if complete, and the bytes fill exactly the announced size |
| IwpTransit.ReassembledCut | udap/iwp_link.cpp:362-408 | reassembling what was cut gives the message back, for every message |
| IwpTransit.FramesFit | udap/iwp_link.cpp:330-360 | every XMIT, FRAG and ACKS frame with overhead and any padding fits 1500 bytes, and fragment indices fit the status |
| IwpTransit.RetransmitFrags | udap/iwp_link.cpp:343-360 | queues exactly the fragments that were not acknowledged, behind what was queued |
| IwpEndpoint.FrameState.SendTo | udap/iwp_link.cpp:772-797 | any message gets the next id, is cut into `tx` and its XMIT is queued once |
| IwpEndpoint.FrameState.InboundFrameComplete | udap/iwp_link.cpp:1613-1664 | a complete message is handed on exactly if the hash of its bytes is the announced one; the entry is erased unless the hash differs |
| IwpEndpoint.OnlyHashedIsHanded | udap/iwp_link.cpp:1613-1664 | whatever frame arrives, genuine or forged, at most one message is handed on, and only with the hash announced under its id |
| IwpEndpoint.FrameState.GotXmit | udap/iwp_link.cpp:473-523 | a header opens one `rx` entry and is acknowledged; a repeated or malformed one is refused |
| IwpEndpoint.FrameState.GotFrag | udap/iwp_link.cpp:531-586 | a fragment is stored in an open entry only, if it has the right size and number; it completes the message, or is acknowledged when the number stored is a multiple of half the fragments plus one |
| IwpEndpoint.FrameState.GotAcks | udap/iwp_link.cpp:1758-1803 | a mask is added to the status; if every fragment is acknowledged then the message and nothing else is erased, of any other all unacknowledged fragments and nothing else are queued again |
| IwpEndpoint.FrameState.Retransmit | udap/iwp_link.cpp:599-606 | every open message queues its unacknowledged fragments and nothing else changes |
| IwpEndpoint.FrameState.Process | udap/iwp_link.cpp:633-659 | dispatch by message type, tied to the step relation of the protocol |
| IwpProtocol.RunKeeps | udap/iwp_link.cpp:422-606 | the invariant of both directions holds after every run of sends, pumps, losses, duplications and deliveries |
| IwpProtocol.EveryRunIsSafe | udap/iwp_link.cpp:473-606 | in every state of every run: nothing delivered is made up, an acknowledged fragment is stored by the receiver, and a message erased by the sender was handed on byte for byte |
| IwpProtocol.DeliveredAtMostOnce | udap/iwp_link.cpp:473-523 | while no XMIT frame is duplicated, no message id is delivered twice in any run |
| IwpDuplication.DuplicatedXmitDeliversTwice | udap/iwp_link.cpp:473-586 | for every link message a run in which one duplicated XMIT, and no other duplicate, makes the receiver take it twice |
| IwpDuplication.EveryMessageCanFinish | udap/iwp_link.cpp:473-606 | for every link message a run without duplicates in which the receiver takes it once, answers with at most three acknowledgements, and the sender forgets it with the last |
| IwpProtocol.CompletedMeansHanded | udap/iwp_link.cpp:1758-1803 | when an ACKS frame completes a message the receiver has already handed it on |
| IwpWire.InitSendbuf | udap/iwp_link.cpp:137-148 | the six header bytes, and the rest of the buffer as it was |
| IwpWire.Generate | udap/iwp_link.cpp:330-360 | a new buffer of the size of the frame that holds exactly its encoding |
| IwpWire.ReadEncoded | udap/iwp_link.cpp:633-659 | the receiver reads every XMIT, FRAG and ACKS frame back from its bytes, splitting off any padding by the header size |
| IwpWire.RefusedExactly | udap/iwp_link.cpp:473-659 | exactly unknown types, sizes beyond the bytes that came and sizes too small for the fields are refused before a handler looks |
| IwpWire.ProcessBytes | udap/iwp_link.cpp:633-659 | dispatch by the type byte: keepalive and refused frames leave the state alone, any other frame is handled as the protocol says |
| IwpWire.EveryFrameCrosses | udap/iwp_link.cpp:1085-1172 | in every state of every run every frame in flight, encoded, padded and sealed, fits 1500 bytes, authenticates and reads back as that frame |
| Crypto.DhAgrees | udap/crypto_libsodium.cpp:18-56 | `dh_client` with the server's public key equals `dh_server` with the client's: the nonce hashed under the hash of both keys, client first, and their product |
| Crypto.LayersCommute | udap/crypto_libsodium.cpp:11-16 | a layer applied twice cancels, and two layers commute |
| Crypto.XChaCha20 | udap/crypto_libsodium.cpp:11-16 | xors exactly the given region of the array with the key stream |
| Handshake.IntroRecovered | udap/crypto_async.cpp:41-116 | the responder accepts the intro and recovers the initiator's key, over any old buffer contents and padding |
| Handshake.TokenRecovered | udap/crypto_async.cpp:125-199 | the initiator accepts the introack and recovers the responder's token |
| Handshake.SessionAgreed | udap/crypto_async.cpp:209-322 | the responder accepts the session start and both derive the same session key |
| Handshake.Session.Introduce | udap/iwp_link.cpp:1280-1309 | emits the intro packet for the remote key and waits for the ack |
| Handshake.Session.OnIntro | udap/iwp_link.cpp:1222-1250 | packets of 256 bytes or more close the session, those whose keyed hash is wrong stop it, exactly the others are answered with the introack |
| Handshake.Session.OnIntroAck | udap/iwp_link.cpp:1709-1733 | token and session key are set and the session start sent exactly if the packet is short enough and its keyed hash is right |
| Handshake.Session.OnSessionStart | udap/iwp_link.cpp:980-1002 | the session key is set exactly if the keyed hash is right and the box holds our token; otherwise nothing changes |
| Handshake.UndisturbedHandshake | udap/crypto_async.cpp:41-322 | any two sessions end with the initiator's key at the responder, one token and one session key |
| Handshake.FrameRoundTrip | udap/crypto_async.cpp:361-411 | a sealed frame authenticates under the same key and shows the message in front of the padding |
| Handshake.SendFrame | udap/iwp_link.cpp:1161-1172 | the frame buffer holds the sealed message and padding, its size their sum with the overhead |
| Handshake.DecryptFrame | udap/crypto_async.cpp:361-386 | success exactly if the hash of nonce and body under the session key is the one in front; the body is decrypted in place either way |
| EncryptedFrame.OpenedSealed | udap/encrypted_frame.cpp:32-151 | the owner of the public key opens a sealed frame and sees the body |
| EncryptedFrame.EncryptInPlace | udap/encrypted_frame.cpp:32-88 | the array becomes the sealed frame, or only its header is written if the key exchange is refused |
| EncryptedFrame.DecryptInPlace | udap/encrypted_frame.cpp:90-151 | accepted exactly if larger than 96 bytes, the exchange is not refused and the keyed hash is the one in front; refused frames are left alone |
| CommitRecord.BEncode | udap/relay_commit.cpp:66-88 | appends the record's encoding, or reports failure with little room left |
| CommitRecord.EncodedSize | udap/relay_commit.cpp:66-88 | every record takes 166 bytes, so it fits the body of a frame |
| CommitRecord.ReadBack | udap/relay_commit.cpp:96-142 | a record decodes to itself from wherever its encoding lies |
| PathContext.MapGet | udap/path.cpp:76-103 | returns the first value under the key that passes the check |
| PathContext.EntriesAreLive | udap/path.cpp:76-103 | in every run every entry a lookup can pass, found or skipped, is a hop that was not deleted, under one of its own ids |
| PathContext.LookupsAreLive | udap/path.cpp:137-201 | in every run the lookups give the same result whatever deleted memory reads as, and what they return is live and fits the neighbour and the id asked for |
| PathContext.SweepSpares | udap/path.cpp:203-231 | an expiry sweep keeps a reachable hop reachable if and only if it is within its time and shares no id with one that is over it |
| PathContext.StaysReachable | udap/path.cpp:203-231 | a hop that every sweep spares stays reachable under both ids, unchanged, to the end of the run |
| PathContext.AcceptedHopStays | udap/path.cpp:196-231 | from acceptance on, lookups from both neighbours under both ids succeed for as long as sweeps spare the hop |
| PathContext.PathTables.AcceptHop | udap/path.cpp:196-201 | adds the hop under both ids and keeps the invariant |
| PathContext.PathTables.AddOwn | udap/path.cpp:137-143 | adds the path to its set and both ids to the owner map, first entry wins |
| PathContext.PathTables.EraseAll | udap/path.cpp:220-225 | erasing hop by hop removes every entry under an id of an expired hop and deletes exactly those hops |
| PathContext.PathTables.ExpireOwn | udap/pathset.cpp:18-32 | deletes exactly the expired paths from the path sets |
| PathContext.PathTables.Sweep | udap/path.cpp:203-231 | the whole sweep, tied to its function, keeps the invariant, and keeps a hop in the tables exactly up to the end of its lifetime |
| PathExpiry.HopSweptExactly | udap/transit_hop.cpp:14-18 | a sweep keeps a hop in the tables if and only if now is at most its start plus its lifetime |
| PathExpiry.OwnSweptExactly | udap/path.cpp:320-329 | an established path stays for the lifetime of its first hop, one being built for 30 seconds, any other not at all |
| PathExpiry.HopLivesItsTime | udap/path.cpp:137-231 | an accepted hop with ids of its own is the one both neighbours find, in every run whose sweeps fall into its lifetime; the first sweep after deletes it and every entry under its ids |
| PathExpiry.BuildingLivesItsTime | udap/path.cpp:137-231 | a new path is found for 30 seconds of sweeps in every run, and deleted by the first sweep after unless it was confirmed |
| PathExpiry.ConfirmedLivesItsTime | udap/path.cpp:137-231 | a confirmed path is found for the lifetime of its first hop in every run, and deleted by the first sweep after |
| PathBuild.NewPath | udap/path.cpp:261-279 | hop i sends on the id hop i+1 listens on; routers and listening ids are as given |
| PathBuild.KeyExchange.GenerateNextKey | udap/pathbuilder.cpp:33-103 | one more hop has its keys, upstream router and a frame its owner can open to the right record; fails exactly if an exchange is refused |
| PathBuild.KeyExchange.GenerateKeys | udap/pathbuilder.cpp:109-127 | after the chain of jobs every hop is ready and eight frames of one size exist; the path itself is unchanged |
| RelayCommit.CommitFrames | udap/pathbuilder.cpp:130-146 | the message sent after key generation carries, at place i, the frame hop i can open to its record |
| RelayCommit.SizesGoRound | udap/relay_commit.cpp:204-277 | along any route of accepting routers the message has eight frames, and after k hops frame j has the size that frame j + k, counted round, had at first |
| RelayCommit.HandleMessage | udap/relay_commit.cpp:47-277 | acceptance, the new tables and the rotated frames are those of the specification, eight frames whose sizes moved one place on; a refusal changes nothing |
| RelayCommit.AcceptsExactly | udap/relay_commit.cpp:47-277 | accepted exactly with eight frames, transit allowed, a front frame that opens to a record, no such hop yet and an exchange that is not refused |
| RelayCommit.HopAccepts | udap/relay_commit.cpp:204-277 | a willing hop with its frame in front accepts with the client's key and the right ids and routers |
| RelayCommit.FramesArrive | udap/relay_commit.cpp:169-277 | at hop i the frames are the client's from the i-th on, then the junk of the hops passed |
| RelayCommit.PathIsBuilt | udap/relay_commit.cpp:169-277 | over routers in any state hop i ends with the shared key, ids, upstream and downstream the client meant; only the last is farthest; always eight frames of one size |
| OnionRelay.ApplyLayers | udap/path.cpp:305-319 | the loop over the hops applies every layer to the buffer |
| OnionRelay.Peeled | udap/transit_hop.cpp:80-100 | the front hop removes its own layer and leaves the others |
| OnionRelay.Unwrapped | udap/path.cpp:331-340 | the owner's layers undo those all hops put on |
| OnionRelay.HandleUpstream | udap/transit_hop.cpp:80-100 | one layer, then parse at the farthest hop or forward under the upstream id |
| OnionRelay.HandleDownstream | udap/transit_hop.cpp:65-78 | one layer, then on to the downstream neighbour under the listening id |
| OnionRelay.StrangersAreDropped | udap/relay_up_down.cpp:56-131 | a relay message is dropped exactly if nobody knows its sender under its id |
| OnionRelay.UpstreamJourney | udap/relay_up_down.cpp:56-69 | every journey of the owner's message visits the hops in order, and only the last parses it, as plaintext |
| OnionRelay.UpstreamArrives | udap/relay_up_down.cpp:56-69 | such a journey exists for every message |
| OnionRelay.DownstreamJourney | udap/relay_up_down.cpp:118-131 | every journey of the farthest hop's message passes all hops back and reaches the owning path as plaintext |
| OnionRelay.DownstreamArrives | udap/relay_up_down.cpp:118-131 | such a journey exists for every message |
| BuildThenRelay.PreparedIsLinked | udap/path.cpp:261-279 | the prepared hops link: upstream routers and ids of neighbouring hops agree |
| BuildThenRelay.AcceptedAsModelled | udap/relay_commit.cpp:204-277 | each hop of an undisturbed build leaves the tables the network model says |
| BuildThenRelay.BuiltPathStands | udap/path.cpp:137-182 | the tables after an undisturbed build answer every neighbour of every hop, and the owner |
| BuildThenRelay.BuildThenRelay | udap/path.cpp:261-340 | every hop accepts what the client prepared, and then a message sent either way visits the hops in order and ends as plaintext |
| Buffer.Buffer.WriteF | udap/buffer.cpp:17-32 | success exactly if the text is not longer than the room; an exact fit loses its last byte to the terminator |
| Buffer.Buffer.Write | udap/buffer.cpp:34-45 | success exactly if the data fits, and then it is there |
| Bencode.WriteBytestring | udap/bencode.c:3-9 | appends length, colon and bytes, truthfully reporting whether they fit |
| Bencode.ReadUntil | udap/buffer.cpp:47-67 | copies up to the delimiter, the limit or the end, and moves the cursor by that much |
| Bencode.ReadStringAt | udap/bencode.c:88-118 | any string shorter than 10^9 bytes reads back exactly, cursor just past it |
| Bencode.ReadIntegerAt | udap/bencode.c:65-86 | every 64-bit value reads back through its signed decimal form, except 2^64-1, which is refused |
| Bencode.AtolOfSignedDecimal | udap/bencode.c:29-33 | the signed decimal text denotes the number |
| Bencode.ReadDictLoop | udap/bencode.c:120-143 | terminates for every callback that does not move back, and computes the specified result |
| Bencode.ReadListLoop | udap/bencode.c:145-163 | terminates for every callback that advances, and computes the specified result |
| Bencode.RenderedLexes | udap/bencode.c:65-143 | a written sequence of marks, strings and numbers is found again token by token |
| RouterContact.AiBencode | udap/address_info.cpp:130-172 | appends the address, or fails with little room left |
| RouterContact.XiBencode | udap/exit_info.cpp:55-92 | appends the exit, or fails with little room left |
| RouterContact.AiListBencode | udap/address_info.cpp:174-183 | appends the list, or leaves little room although it may report success |
| RouterContact.XiListBencode | udap/exit_info.cpp:36-44 | the same for exits |
| RouterContact.RcBencode | udap/router_contact.cpp:165-218 | success if and only if the canonical encoding fits, and then exactly that lies before the cursor |
| RouterContactDecode.AiReadBack | udap/address_info.cpp:7-128 | an encoded address reads back exactly when rank and port are not 0 and the dialect has at most 5 bytes, else it is refused |
| RouterContactDecode.XiReadBack | udap/exit_info.cpp:94-151 | an encoded exit always reads back |
| RouterContactDecode.AisReadBack | udap/address_info.cpp:99-128 | an address list reads back in order exactly when every address does |
| RouterContactSign.RcReadBack | udap/router_contact.cpp:27-131 | a contact reads back exactly when its addresses do and its update time is not 2^64-1 |
| RouterContactSign.Contact.Sign | udap/router.cpp:890-904 | the signature covers the encoding with a zero signature; a contact too long keeps the zero signature |
| RouterContactSign.Contact.VerifySig | udap/router_contact.cpp:133-163 | true exactly if the encoding with a zero signature fits and the signature verifies over it; the contact is unchanged |
| RouterContactSign.SignedContactIsAccepted | udap/router_contact.cpp:126-218 | signed, encoded, decoded and verified, a contact arrives equal and is accepted exactly if it fits 1024 bytes |
| RouterContactSign.AcceptedExactly | udap/router_contact.cpp:133-163 | any contact, signed by anyone, is accepted after the wire exactly if it fits and its signature verifies over the encoding with a zero signature |
| RouterContactSign.ChangedContactIsRefused | udap/router_contact.cpp:133-218 | different contacts have different encodings, so a signature that verifies over one text admits one contact only |
| MalformedInput.IntegerIsThere | udap/bencode.c:65-86 | an integer is read only from `i` and a text within the input, and is what that text denotes |
| MalformedInput.StringIsThere | udap/bencode.c:88-118 | a string is read only if all its bytes are within the input, behind the text of its length |
| MalformedInput.DecodedContactIsShaped | udap/router_contact.cpp:27-131 | whatever bytes arrive, a decoded contact has keys, signature, addresses and exits of the right sizes and came from a text between `d` and `e` |
| MalformedInput.DecodedRecordIsShaped | udap/relay_commit.cpp:96-142 | the same for a commit record |
| MalformedInput.BadEntryIsRefused | udap/router_contact.cpp:27-131 | unknown keys, other versions, keys and signatures of other sizes and lists without a mark are refused |
| MalformedInput.BadAddressEntryIsRefused | udap/address_info.cpp:7-97 | the same for addresses, with the bounds on rank, port, dialect and ip |
| MalformedInput.BadExitEntryIsRefused | udap/exit_info.cpp:94-151 | the same for exits |
| MalformedInput.BadFieldIsRefused | udap/relay_commit.cpp:96-142 | the same for commit records |
| MalformedInput.DictIsMarked | udap/bencode.c:120-143 | a dictionary that is accepted begins with `d` and ends with `e`, whatever its callback |
| MalformedInput.ListIsMarked | udap/bencode.c:145-163 | the same for lists |
| DhtMetric.NearerIsAStrictTotalOrder | include/udap/dht.hpp:90-101 | the xor metric is a strict total order on keys |
| DhtMetric.LessOrder | include/udap/dht.hpp:42-46 | the key order is irreflexive, transitive and total |
| DhtMetric.LessIsSmaller | include/udap/dht.hpp:42-46 | the order of keys is that of the numbers they denote, most significant byte first |
| DhtMetric.KnownIsClosest | udap/dht.cpp:446-466 | the search yields the target itself exactly if it is a node and not excluded |
| DhtMetric.FindCloseExcluding | udap/dht.cpp:446-466 | true exactly if some node that is not excluded has a distance other than all ones, and then the result is the nearest |
| DhtMetric.ClosestIsUnique | udap/dht.cpp:446-466 | there is only one nearest node |
| DhtMetric.FindClosest | udap/dht.cpp:429-444 | true exactly if there is a node; the result is the nearest eligible one or untouched |
| DhtMetric.SearchesAgree | udap/dht.cpp:429-466 | the two searches agree on no exclusions unless the only node is at all ones, and only then not |
| DhtLookup.ForwarderIsCloser | udap/dht.cpp:504-557 | a router that forwards is strictly closer to the target than the one that asked, if and only if that is another router |
| DhtLookup.NobodyForwardsTwice | udap/dht.cpp:504-557 | no router forwards twice in one chain; the first one forwards only if it asked itself, and then once |
| DhtLookup.ChainIsFinite | udap/dht.cpp:504-557 | a chain visits at most one router more than the network has, two if the first asked itself |
| DhtLookup.ChainFinds | udap/dht.cpp:504-557 | a chain that reaches a router that knows the target, or is it, ends there with its contact, unless the target itself started the chain and asked this router |
| DhtLookup.RetryExactly | udap/dht.cpp:155-165 | a miss is retried exactly if fewer than three peers were asked and there is another, and then the nearest is asked |
| DhtLookup.SweptExactly | udap/dht.cpp:584-601 | a transaction ends 30 seconds after its start and not before, and exactly then its hook is called |
| DhtLookup.LookupsAreBounded | udap/dht.cpp:134-185 | in every run a lookup asks at most three peers, all different, and a hook is called at most once |
| DhtLookup.MissCallsHookOrLosesIt | udap/dht.cpp:146-178 | a miss calls the hook exactly if no further peer is asked; otherwise nothing ever calls it |
| DhtLookup.Context.LookupPeer | udap/dht.cpp:619-645 | records the transaction and the message, or does nothing if a key is zero |
| DhtLookup.Context.LookupViaJob | udap/dht.cpp:647-658 | asks the nearest node, or calls the hook if there is none |
| DhtLookup.Context.HandleFindRouter | udap/dht.cpp:265-284 | refused exactly if transit is not allowed or the request is pending; otherwise own contact, the target's, the nearest other node asked, or not found, by keys and nodes alone |
| DhtLookup.Context.LookupRelayed | udap/dht.cpp:504-557 | the decision and the transaction it starts |
| DhtLookup.Context.HandleGotRouter | udap/dht.cpp:134-185 | completion, retry or end of a pending transaction, which is then removed |
| DhtLookup.Context.CleanupTX | udap/dht.cpp:584-601 | the sweep over the table does what its function says, transaction by transaction |
| Timer.AtMostOnce | udap/timer.cpp:181-214 | in every interleaving a timer has at most one job ever, its handler runs at most once, and it is freed only after its job finished |
| Timer.RemovedBeforeTakenNeverRuns | udap/timer.cpp:94-103 | a handler never runs if its timer is removed before a worker takes the function pointer |
| TimerRemoval.RemovedIsFreedExactly | udap/timer.cpp:94-214 | after a removal some continuation frees the timer if and only if it had been queued and the scheduler runs |
| TimerRemoval.VisitFreesExactly | udap/timer.cpp:181-214 | a visit to a canceled timer frees it if and only if its job has finished |
| TimerRemoval.NullCallExactly | udap/timer.cpp:241-257 | in every interleaving a worker calls a cleared pointer if and only if a removal hit between its test and its taking of the pointer |
| TimerRemoval.RemovalMayRace | udap/timer.cpp:241-257 | from every state in which a worker has tested the pointer, a removal and two steps of that worker make the call |
| TimerTime.VisitedExactly | udap/timer.cpp:181-214 | in every run a visit queues a timer if and only if it was neither queued nor removed before, and its timeout has passed since the call that made it or it was canceled; and frees it if and only if its job has finished and the same holds |
| TimerTime.NeverEarly | udap/timer.cpp:181-257 | while all ticks come before its time and it is not canceled, a timer is neither queued nor called |
| TimerTime.TickQueuesDue | udap/timer.cpp:181-214 | one tick queues every timer that is due and no other |
| Timer.Scheduler.CallLater | udap/timer.cpp:105-112 | the next id, wrapping, maps to the new timer |
| Timer.Scheduler.Cancel | udap/timer.cpp:84-92 | marks the timer canceled, if there is one |
| Timer.Scheduler.Remove | udap/timer.cpp:94-103 | clears its function and marks it canceled |
| Timer.Scheduler.Exec | udap/timer.cpp:241-257 | uninterrupted: calls the handler if set, with 0 or the time left over, and marks the timer done |
| Timer.ExecIsARun | udap/timer.cpp:241-257 | that is the four steps of a run |
| Timer.Scheduler.TickAll | udap/timer.cpp:181-214 | visits every entry of the table exactly once |
| Timer.TickIsARun | udap/timer.cpp:181-214 | a tick is a run of visits, so the run theorems hold across it |
| CoDel.CoDelQueue.Put | udap/codel.hpp:31-39 | the item is queued and the first time set |
| CoDel.CoDelQueue.Process | udap/codel.hpp:41-74 | empties the queue newest first and drops the last, oldest item exactly if every difference to the first time exceeds 20 |
| CoDel.NeverAllLate | udap/codel.hpp:31-74 | a queue used only through Put and Process is never all late |
| CoDel.NothingIsDropped | udap/codel.hpp:22-74 | over every run what came out and what waits is what was put in, and each Process yields exactly the items since the last, newest first |
| Ini.TrimLoop | udap/ini.hpp:121-134 | cuts blanks, including NUL, from both ends |
| Ini.TrimLaws | udap/ini.hpp:121-134 | the result is trimmed, and a trimmed text is left alone |
| Ini.TrimCuts | udap/ini.hpp:121-134 | nothing but blanks, tabs, line ends and NUL is cut, from both ends, until none is left there |
| Ini.ParseSLine | udap/ini.hpp:144-153 | counts the opening brackets and cuts the name out |
| Ini.GoUp | udap/ini.hpp:176-184 | following parent pointers as often as the source counts ends at the ancestor one level above the new section |
| Ini.Parser.ParseLine | udap/ini.hpp:161-206 | one line: comment, blank, section with its three errors, or value |
| Ini.Parser.Parse | udap/ini.hpp:155-208 | the recursive loop yields the nodes or the first error with its line number |
| Ini.DumpLoop | udap/ini.hpp:210-233 | prints header, values and sections in order |
| IniExact.RoundTrip | udap/ini.hpp:144-233 | parsing what dump printed gives the tree back, at any depth, if and only if it is good, and then it gives no other tree |
| IniExact.ParseReadsATree | udap/ini.hpp:155-208 | whatever is parsed without error is one tree with clean names and values, no larger than the number of lines that are neither blank nor comments |
| IniExact.ErrorExactly | udap/ini.hpp:161-206 | which lines are errors and which: too deep, named like a sibling, or neither heading nor value |
| IniExact.FirstError | udap/ini.hpp:155-208 | the error reported is that of the first wrong line, with its number |
| IniRoundTrip.GoodSurvives | udap/ini.hpp:144-233 | every good tree, printed and parsed, is there again with all values and sections in order |
| IniRoundTrip.SectionParsed | udap/ini.hpp:155-208 | one printed section is added below the right ancestor, from wherever the parser was |
| IniExact.UnnamedSectionIsMisread | udap/ini.hpp:210-233 | for every section without a name that has values, brackets and first value make one line, which is read as the heading of a section with a name |

## Left out

- IwpEndpoint.FrameState.Process: the session flags in frame headers, and the invalidation they lead to, are not part of the state; `IwpWire.ProcessBytes` adds keepalive and unknown types.
- IwpEndpoint.FrameState.InboundFrameComplete: the branch for message id 0, which checks the peer's contact and may close the session, is not modelled; whether the router takes a message is a parameter.
- IwpProtocol.RunKeeps: the messages sent are link messages of at most 32768 bytes, the size of the buffers they are built in.
- IwpWire.ProcessBytes: frames too short for their own header fields read memory behind them in the source and have no specified outcome here; both ends use the same order of bytes.
- Handshake.Session.OnIntro: packets shorter than 32 bytes are excluded, because the source then hashes memory beyond its buffer; shorter fields than 96 bytes read stale buffer contents, as in the source.
- Handshake.Session.OnIntroAck: the same bound of 32 bytes.
- Handshake.Session.OnSessionStart: the same bound of 32 bytes.
- PathBuild.KeyExchange.GenerateNextKey: paths have 1 to 8 hops, because the source indexes beyond its frames otherwise.
- Message ids of a session stay below 2^64; std::bitset's exception on positions from 32 on counts as a refusal of the fragment.
- Eventual delivery: XMIT is sent once and finished messages are not acknowledged again, so the code does not promise it.
- Secrecy and unforgeability: nothing is claimed about what an attacker learns or can make.
- CommitRecord.BEncode: records with proof of work (key `w`) are not written, and are refused when read; the client never writes it.
- Link encoding of commit and relay messages, PathConfirm, latency and transfer messages: messages arrive as sent.
- Hop selection, path status other than confirmation, path set sizes and freeing of path sets: builders live as long as the router.
- The maps of all path sets are one map keyed by the set, and unordered or pointer-ordered containers are visited in any order.
- Concurrency of the path tables and of the DHT: each operation is one step, as its mutex or the logic thread makes it.
- Contents of DHT replies and their way back: an answer goes to the router whose message is being handled, so no delivery to the requester is claimed.
- Hooks and handlers that call back into the DHT or the scheduler while they run: such calls are separate steps.
- CoDel's square root is an arbitrary function, and ties of equal times come out in any order.
- atol beyond the range of long clamps as glibc does; inet_pton and inet_ntop are an abstract inverse pair with text of at most 45 bytes and no NUL.
- Ini.Parser.Parse: std::getline is modelled as a function from the text to its lines, and dump takes the depth of a level from its nesting.
- Event loops, sockets, files, node database, configuration, daemon and client programs, addresses, logging, hex encoding, hidden services.
