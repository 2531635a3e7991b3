# A verified model of xfrpc

xfrpc is a reverse-proxy client. This project models the parts of it that are protocols,
state machines and data structures with real invariants, and proves what they promise:

* **the TCP multiplexer** (`tcpmux.c`, `control.c`, `client.c`): 12-byte frames, one transmit
  and one receive ring per stream, send and receive windows, the incremental demultiplexer
  `recv_cb`, the life cycle of a stream, and the stream and client tables;
* **`fastpbkdf2.c`**: PBKDF2 from saved HMAC states, against section 5.2 of RFC 8018 and
  section 2 of RFC 2104, for any compression function;
* **the JSON library** under `thirdparty/json-c`: the linked hash table, the printers, and the
  character-driven tokener with its level stack, against a grammar of its own;
* **`uthash.h`**, the chained hash table behind both registries;
* **the evbuffer chain list and the token buckets** of `thirdparty/libevent-2.1.10`.

Code made of loops and updates in place is a class with methods whose contracts tie the new
state to a function of the old one; what the code promises is then proved about those
functions and states. Code made of expressions is functions and lemmas. Every operation follows
the code, also where the code does not do what its comments say. Where a natural property is
false, the exact condition for it is stated and proved:

* `tmux_stream_write` reads the ring size again after draining the ring, so a write whose window
  ends inside the new data behind a non-empty ring sends the wrong bytes
  (`Streams.WriteFaithfulIff`);
* a window update can leave a sender with no credit if frames may be larger than half a window;
  the ring capacity keeps them below it (`Starvation.StarvationThreshold`);
* a stream can be sent more than its ring holds, in one long frame or because its SOCKS5 client
  waits for a connection, which stops the program (`Delivery.CreditConservation`,
  `Delivery.LongFrameStops`, `Delivery.RingOverflows`);
* session ids start over at the end of 32 bits, and a client is given the control stream's
  (`Registry.RegistryAgreement`, `Registry.SessionIdsWrap`, `Registry.ControlIdTaken`);
* a message handler that deletes the stream it was called for leaves it to be used again
  (`Messages.MessageStopsIff`, `Messages.RefusedTunnelStops`);
* a connection that is lost inside a frame leaves the reader there, so that the next one's first
  frame is taken for payload (`Reconnect.ReconnectIff`);
* resizing the linked hash table to too few slots stores a size that is not the array's
  (`LinkHashTables.LhTable.Resize`, `LinkHashTables.LoseKey`);
* the PBKDF2 block count is cut to 32 bits after rounding up (`Assembly.BlocksCoverIff`);
* the tokener looks at 16 bits only when it tells surrogates, so escaped pairs for U+nD800 to
  U+nDFFF of any supplementary plane are misread (`JsonEscapes.MeaningIff`);
* a call that is cut inside a number loses what it knew about signs (`JsonCuts.CutIff`,
  `JsonCuts.NumberCutIff`);
* a comment that ends with an even number of stars before its slash is not ended
  (`JsonComments.CommentClosedIff`);
* an array that is cut off inside a comment behind its first element is accepted, with that
  element for its value (`JsonCalls.UnclosedArrayAccepted`, `JsonCalls.UnclosedIff`,
  `JsonLexer.UnclosedOnlyInComment`);
* a token bucket that was filled by hand beyond its maximum is not cut off any more and can
  overflow (`RateLimit.RefillIff`, `RateLimit.RefillPositiveIff`).

The tokener accepts more than RFC 8259 in strict mode too: `NaN`, `Infinity` and `-Infinity`, names
in single quotes, control characters in strings, zeros before a zero or behind a minus sign, and
whatever else of digits, signs, points and exponents the C library reads as a real number.
`JsonGrammar.Good` is the exact grammar of both modes.

Assertions of the program are modelled: on values as an outcome of their own (`NoRoom`,
`Aborted`, `Down`), on objects as preconditions of the object methods. Integers are unbounded
and the places where the program's widths matter are written out (`Wrap`, `% 0x1_0000_0000`,
`Signed`, `Room`).

The multiplexer's two ends are taken to run this code, over a link that keeps the order of
bytes. Session messages reach an arbitrary handler in the demultiplexer, one that does any
operations of the registry in the theorems about it, and one that sends nothing in the theorems
about two endpoints. The data handlers are a log of the bytes they were given. The
SOCKS5 handler may take any number of bytes out of the receive ring and report any number up to
the length of the frame as used, at every frame anew.

`dafny verify dfyconfig.toml` checks everything.

## Model

| member | source | states |
|---|---|---|
| `Wire.DecodeEncode` | tcpmux.c:117-126 | decoding an encoded header gives the header back |
| `Wire.EncodeDecode` | tcpmux.c:117-126 | any twelve bytes are the encoding of what they decode to, so headers and 12-byte strings correspond one to one |
| `Wire.EncodeLayout` | tcpmux.h:70-76 | byte by byte: version, type, flags, stream id and length, each most significant byte first |
| `Wire.EncodeExamples` | tcpmux.c:117-126 | the bytes of four frames: a first frame, the answer to a ping, the end of a stream, a farewell |
| `Wire.FlagBits` | tcpmux.h:62-68 | SYN, ACK, FIN and RST are the bits 0 to 3, and adding FIN sets bit 2 and keeps the others |
| `RingBuffers.RingBuffer.Append` | tcpmux.c:502-518 | appending adds to the end of the queue; the result is one less than appended when the ring becomes exactly full |
| `RingBuffers.RingBuffer.Read` | tcpmux.c:520-545 | reading moves the first bytes of the input to the end of the queue |
| `RingBuffers.RingBuffer.Write` | tcpmux.c:547-573 | writing moves the oldest bytes of the queue to the end of the output |
| `RingBuffers.RingBuffer.Pop` | tcpmux.c:310-327 | popping returns the oldest bytes, in order, and removes them |
| `RingBuffers.RingBuffer.Put` | tcpmux.c:506-510 | one byte at the end of the queue keeps end == (cur + sz) mod capacity and everything before it |
| `RingBuffers.RingBuffer.Take` | tcpmux.c:318-325 | one byte from the front likewise |
| `Streams.WriteFaithfulIff` | tcpmux.c:575-626 | a write sends one frame that declares exactly the prefix of ring plus data that the window covers and keeps the rest, if and only if it does not take the branch that splits after the drain |
| `Streams.WriteNoRoomIff` | tcpmux.c:586-614 | outside that branch a write stops at the ring assertion exactly when what the window leaves over exceeds the ring |
| `Streams.MisSplitExample` | tcpmux.c:607-614 | a stream and data for which the split goes wrong |
| `StreamObjects.StreamObject.UpdateWindow` | tcpmux.c:293-308 | receive window and the frame that is sent, if any |
| `StreamObjects.StreamObject.WriteFromRing` | tcpmux.c:601-606 | the window ends in the ring: one frame of ring bytes, the data queued behind the rest |
| `StreamObjects.StreamObject.WriteAcross` | tcpmux.c:607-614 | the window ends in the data: what is sent and kept when the size is read after the drain |
| `StreamObjects.StreamObject.WriteWhole` | tcpmux.c:615-621 | ring and data in one frame, the ring empty afterwards |
| `StreamObjects.StreamObject.Write` | tcpmux.c:575-626 | the object and the bytes sent are those of the value model, in every branch |
| `StreamObjects.StreamObject.Close` | tcpmux.c:628-657 | state, FIN frame, result and request to delete |
| `Demux.ChunkIndependence` | control.c:485-583 | from any point of a frame, for all bytes and any dispatcher, every way to cut the bytes into chunks ends in the same state |
| `Demux.RunExtend` | control.c:495-583 | a reader that stopped for want of input and then gets more goes on as if it had been there from the start |
| `Demux.RunFrame` | control.c:495-583 | a whole frame at the front of the input is read and dispatched as a whole |
| `Demux.RunFrames` | control.c:495-583 | a run of frames likewise, up to a zero-length DATA frame at the very end, which waits for the next call |
| `Demux.ChunkedFrames` | control.c:485-583 | frames in arbitrary chunks reach the state of handling them one by one, lagging by at most that frame |
| `Receivers.Receiver.RecvCb` | control.c:485-583 | the callback's loop over the current header, target and rest of the payload computes the reader function |
| `Receivers.Receiver.ReadBody` | control.c:529-554 | payload into the ring of the current stream or away, whole or in part |
| `Receivers.Receiver.ReadFrame` | control.c:501-541 | header, and what follows from it |
| `Receivers.Receiver.Arrive` | control.c:485-583 | one chunk is one step of the reader |
| `Delivery.CreditConservation` | tcpmux.c:293-371 | over every run of two endpoints, for all writes that do not mis-split, SOCKS5 clients included: an assertion stops them exactly when a write or a frame finds no room in a ring, so never with short writes and without SOCKS5 clients; the sender's window plus data and credit in flight is the receiver's window, so no window exceeds 256 KiB and the next frame is covered; with nothing in flight the sender has credit |
| `Delivery.DeliveryInOrder` | tcpmux.c:329-371 | at every moment of every run, what a stream was handed, what waits in its receive ring, what is on the link and what is in the sender's ring is what was written for it, in this order; only a SOCKS5 client lets anything wait |
| `Delivery.EndToEnd` | control.c:495-583 | the bytes on the wire after any run of writes on several streams, in any chunks, give every stream exactly its own data in order, up to what waits in the two rings, if and only if every frame finds room in its ring |
| `Delivery.RingOverflows` | tcpmux.c:358-360 | a run in which a byte behind a ringful that a SOCKS5 handler has not taken stops the program |
| `Delivery.LongFrameStops` | tcpmux.c:520-545 | a run in which a frame that is longer than a ring stops the program |
| `Delivery.AlwaysRoom` | tcpmux.c:354-364 | without SOCKS5 clients and with writes that no frame longer than a ring comes from, everything finds room |
| `Starvation.OneFrame` | tcpmux.c:293-305 | however much of a frame is used, the unsigned credit does not wrap, the window stays within 256 KiB and lacks less than half of that beside the bytes used |
| `Starvation.NeverStarves` | tcpmux.c:344-371 | with frames of at most half a window, each used in full or in part, the receive window never reaches zero |
| `Starvation.StarvationThreshold` | tcpmux.c:296-305 | half a window is the exact bound for that |
| `FlowControl.WriteKeeps` | tcpmux.c:575-626 | a write that finds room keeps conservation and order on all streams |
| `FlowControl.DeliverKeeps` | tcpmux.c:329-399 | so does handling the next frame of the link, whatever the client takes, credit granted included |
| `FlowControl.DeliverIff` | tcpmux.c:329-399 | the next frame of a link is handled, rather than stopping at an assertion, exactly when the ring has room for it |
| `FlowControl.FlushKeeps` | client.c:85-97 | so does handing on what waits in the ring of a SOCKS5 client when its connection opens |
| `FlowControl.StepKeeps` | tcpmux.c:293-626 | every step keeps the invariant, and stops the program exactly when it finds no room |
| `Registry.RegistryAgreement` | tcpmux.c:46-79 | over every run of connects, tunnels, local events, writes, frames, messages with what their handler does, closes and reconnects: the client table's keys are the stream table's less the control stream, every entry is under its own id, ids are odd and below the next one, in every state if and only if no operation takes the last session id of 32 bits |
| `Registry.LawfulFrames` | tcpmux.c:272-291 | over every such run, with any SOCKS5 handler at every frame, the first frame of a stream carries SYN and no later one does, and no DATA frame follows a FIN |
| `Registry.StateNeverDecreases` | tcpmux.c:236-270 | no step takes a stream back to a lower state |
| `History.StateIsHistory` | tcpmux.c:236-291 | over every run, the state of every stream is told by the flags sent and received since it began: established exactly when SYN was sent and answered with ACK and neither side has said FIN, closed locally exactly when a FIN was sent and none heard, closed remotely exactly the other way round |
| `History.ArriveRemovesIff` | tcpmux.c:244-269 | a frame removes its stream exactly when it resets it, or says FIN to one that has said FIN itself |
| `History.UpdateStopsIff` | tcpmux.c:244-264 | a WINDOW_UPDATE stops the program exactly when it says FIN for the second time, or to a stream that has sent nothing |
| `Session.SessionFrames` | tcpmux.c:415-444 | over every run, the pings and farewells sent since the last reconnect are, in order, one answer with its number to every ping with SYN and one protocol error for every offence; the other side's farewell is remembered exactly if one without an error has arrived |
| `Session.FrameAnswered` | tcpmux.c:329-444 | a DATA frame is complained about exactly if its stream is open and it is empty, or exceeds the window without resetting the stream |
| `Registry.SessionIdsWrap` | tcpmux.c:140-145 | clients that come and stay leave the tables in agreement up to exactly the (2^31 - 2)nd |
| `Registry.ConnectCollidesIff` | client.c:255-263 | a connect keeps the keys of the tables in agreement exactly unless it takes the control stream's id, and the frames of its id in order exactly if there are none yet |
| `Registry.ControlIdTaken` | tcpmux.c:140-145 | the client after 2^31 - 1 others is given the control stream's id, and from then on the tables do not agree |
| `Registry.ConnectKeeps` | control.c:118-145 | a new client keeps all invariants if and only if it does not take the last session id |
| `Registry.ClearKeeps` | control.c:853-866 | a reconnect does if and only if it resets the ids or one is left |
| `Registry.TunnelKeeps` | client.c:128-201 | starting a tunnel keeps all invariants, SOCKS5 or local, and also when the local connection is refused |
| `Registry.LoseLocalKeeps` | client.c:63-84 | so does the loss of a local connection, which closes the stream |
| `Messages.QuietMessage` | tcpmux.c:353-371 | a handler that does nothing leaves the frame as it is handled at once |
| `Messages.MessageStopsIff` | tcpmux.c:353-371 | a frame whose handler does any operations stops the program exactly when one of them does or they leave the frame's stream deleted |
| `Messages.RefusedTunnelStops` | client.c:153-160 | a client that is told to start and is refused its local connection deletes the stream of the message, and the program stops |
| `Reconnect.ReconnectIff` | control.c:496-554 | after a reconnect everything the server may send is read as at the beginning of a connection if and only if the lost one ended between two frames; otherwise not even a ping is answered |
| `Reconnect.ReconnectFrames` | control.c:496-554 | then the first frames are handled one by one |
| `Control.ArriveEffect` | tcpmux.c:457-500 | whatever a frame does to its stream is one lawful move of that stream alone, or its removal |
| `Control.LawfulKeepsOrder` | tcpmux.c:236-291 | lawful moves keep the order of frames |
| `ControlObjects.ControlObject.GetStreamById` | tcpmux.c:71-79 | lookup in the hash table finds the stream of the registry, or nothing exactly if it has none |
| `ControlObjects.ControlObject.NewClientConnect` | control.c:118-132 | both hash tables get the client, at one address and under one id, and hold what the registry's step says |
| `ControlObjects.ControlObject.DelProxyClientByStreamId` | client.c:237-244 | both hash tables lose the same element, if they have it, and hold what the registry holds without the id |
| `ControlObjects.ControlObject.ClearAllProxyClient` | client.c:266-279 | both hash tables are sound and empty |
| `ControlObjects.ControlObject.DelAll` | client.c:273-278 | taking elements out of a hash table while its list is walked empties it |
| `ControlObjects.ControlObject.ClearMainControl` | control.c:853-866 | after a reconnect the hash tables hold the new control stream and nothing else |
| `ControlObjects.TwinsRemoved` | client.c:237-244 | taking one id out of both tables takes out the same element, so that they go on listing the same clients in the same order |
| `ControlObjects.TablesAgree` | client.c:237-263 | the agreement of the two hash tables is that of the registry: the clients are the streams without the control stream |
| `Pbkdf2.HmacIsFast` | fastpbkdf2.c:181-208 | for every key, two compressions from the saved states give HMAC of a digest-sized message |
| `Pbkdf2.TwoBlockDigest` | fastpbkdf2.c:64-70 | the hash of a block and a digest is two compressions, the second of the digest and a fixed tail |
| `Pbkdf2.TailIsPadding` | fastpbkdf2.c:64-70 | that tail is the padding of section 5.1 of FIPS 180-4 for the message length |
| `Pbkdf2.ExtractXor` | fastpbkdf2.c:241-290 | xor of state words is xor of the digests' bytes, for 4- and 8-byte words |
| `Pbkdf2.ShaValid` | fastpbkdf2.c:241-362 | SHA-1, SHA-256 and SHA-512 meet the assumptions, whatever their compression function |
| `Pbkdf2.AbsorbAppend` | fastpbkdf2.c:112-168 | absorbing in pieces is absorbing at once, so a saved state can be continued |
| `Pbkdf2.Int32Bytes` | fastpbkdf2.c:31-41 | the four bytes of the block counter denote it, most significant first |
| `Pbkdf2.FourBytes` | fastpbkdf2.c:31-41 | each of four big-endian bytes by its place |
| `Pbkdf2.WordBytesAre` | fastpbkdf2.c:31-50 | the bytes of a state word of 4 or 8 bytes, each as a shift of it |
| `FastPbkdf2.MdPad` | fastpbkdf2.c:64-70 | the block after the used prefix is zero padding with the marker bit and the length |
| `FastPbkdf2.PrepareKey` | fastpbkdf2.c:115-136 | a key longer than a block is hashed, any other zero-filled |
| `FastPbkdf2.KeyPads` | fastpbkdf2.c:138-146 | the key with both masks |
| `FastPbkdf2.HmacInit` | fastpbkdf2.c:112-154 | the two saved states compute HMAC, by the book and by the fast path |
| `FastPbkdf2.HmacByTheBook` | fastpbkdf2.c:156-168 | finishing the inner hash and feeding its digest to the outer one is HMAC of section 2 of RFC 2104 |
| `FastPbkdf2.NextU` | fastpbkdf2.c:199-206 | two raw compressions of the reused block take one U to the next |
| `FastPbkdf2.XorChain` | fastpbkdf2.c:197-208 | the loop computes U_1 xor ... xor U_c |
| `FastPbkdf2.BlockF` | fastpbkdf2.c:172-212 | one block is F of section 5.2 of RFC 8018 |
| `FastPbkdf2.WriteBlock` | fastpbkdf2.c:232-237 | one block to its place in the output, cut to fit |
| `FastPbkdf2.Derive` | fastpbkdf2.c:214-239 | the output is the first bytes of T_1, T_2, ... as far as the counted blocks go and unchanged behind them, which is all of it if and only if the rounded-up length fits 32 bits |
| `Assembly.BlocksCoverIff` | fastpbkdf2.c:226-227 | the block count covers the output exactly then |
| `Assembly.AnyOrder` | fastpbkdf2.c:229-238 | blocks written in any order, each at least once, give the same output |
| `Assembly.AssembledAnyOrder` | fastpbkdf2.c:229-238 | and that output is the concatenation, cut to length |
| `Assembly.AssembledPart` | fastpbkdf2.c:229-238 | fewer blocks fill what they cover and leave the rest |
| `LinkHash.PlacedSound` | thirdparty/json-c/linkhash.c:578-620 | putting a fresh key in the first free slot of its probe path keeps slots, links, probe paths and unique keys, and appends to the ordered map |
| `LinkHash.UnlinkedSound` | thirdparty/json-c/linkhash.c:664-703 | turning a slot into a tombstone keeps them and removes that entry alone |
| `LinkHash.EmptyEndsProbe` | thirdparty/json-c/linkhash.c:626-643 | a probe that meets an empty slot, or all slots, before the key proves the key absent |
| `LinkHash.Covering` | thirdparty/json-c/linkhash.c:589-600 | a list that names every slot is as long as the table, so an insertion probe finds a free slot |
| `LinkHash.WalkEntries` | thirdparty/json-c/linkhash.c:546-553 | the next links from the head are the entries in insertion order |
| `LinkHashTables.LhTable.LookupEntry` | thirdparty/json-c/linkhash.c:626-643 | finds a slot with the key among those that the size covers; in a valid table exactly when the ordered map has the key |
| `LinkHashTables.LhTable.FindFree` | thirdparty/json-c/linkhash.c:589-600 | the probe without a bound of its own ends at the first free slot |
| `LinkHashTables.LhTable.Resize` | thirdparty/json-c/linkhash.c:535-564 | the entries, in order, in a fresh array, which is doubled until they fit; the table is valid afterwards if and only if no insertion found the new array loaded |
| `LinkHashTables.LhTable.CopyFrom` | thirdparty/json-c/linkhash.c:544-554 | the refilled table holds the list and has the size that doubling at every loaded insertion gives |
| `LinkHashTables.GrownStep` | thirdparty/json-c/linkhash.c:583-589 | one more insertion doubles the size exactly when it finds the table loaded |
| `LinkHashTables.LoseKey` | thirdparty/json-c/linkhash.c:535-564 | of two keys in a table that is resized to one slot both are listed and one is not found any more, whatever the hash |
| `LinkHashTables.LhTable.Insert` | thirdparty/json-c/linkhash.c:578-620 | appends, growing when loaded; fails exactly at the largest size |
| `LinkHashTables.LhTable.DeleteEntry` | thirdparty/json-c/linkhash.c:664-703 | removes the entry of a live slot and refuses others with their codes |
| `LinkHashTables.LhTable.Delete` | thirdparty/json-c/linkhash.c:705-711 | removes the key if it is there |
| `LinkHashTables.LhTable.Add` | thirdparty/json-c/json_object.c:537-572 | an existing key keeps its place and gets the new value, a new one goes to the end; it fails exactly for a new key in a loaded table of the largest size |
| `JsonTheorems.PrintParseRoundTrip` | thirdparty/json-c/json_tokener.c:295-1265 | every value without doubles, printed with any flags and parsed in any mode, comes back equal if its nesting fits the tokener and is refused for its depth if not |
| `JsonTheorems.NormEqual` | thirdparty/json-c/json_object.c:1502-1610 | what the parser returns is equal to what was printed, unsigned integers included |
| `JsonEquality.EqualIff` | thirdparty/json-c/json_object.c:1502-1610 | two values are equal exactly if they stand for the same mathematical value, with integers as numbers, arrays as sequences and objects as maps |
| `JsonTheorems.PrintNoNul` | thirdparty/json-c/json_object.c:179-244 | printed text has no NUL, whatever bytes the strings hold |
| `JsonSound.AcceptedIff` | thirdparty/json-c/json_tokener.c:295-1265 | in every mode, a text is accepted to its end exactly if it is one of the grammar whose nesting fits, and then as the value it means |
| `JsonSound.StrictIff` | thirdparty/json-c/json_tokener.c:295-1265 | in strict mode every success is one of these |
| `JsonSound.SuccessIsGrammar` | thirdparty/json-c/json_tokener.c:1217-1262 | what a success has used is a text of the grammar that means its result, also where trailing characters are left |
| `JsonSound.UsedUp` | thirdparty/json-c/json_tokener.c:1217-1262 | a success that leaves not even the NUL has ended inside a comment |
| `JsonAccepts.GrammarAccepted` | thirdparty/json-c/json_tokener.c:295-1265 | every text of the grammar, with any space and comments around its tokens, is accepted as what it means, or refused for its depth exactly when its nesting does not fit |
| `JsonAccepts.RfcAccepted` | thirdparty/json-c/json_tokener.c:295-1265 | every text of RFC 8259 with any white space is accepted, if its integers fit into 64 bits in strict mode and the C library reads its real numbers |
| `JsonAccepts.ReadTree` | thirdparty/json-c/json_tokener.c:345-1215 | a value of the grammar is read on any level |
| `JsonSound.FindTree` | thirdparty/json-c/json_tokener.c:345-1215 | a value that is read to its end is one of the grammar, on any level |
| `JsonGrammar.RfcIsGood` | thirdparty/json-c/json_tokener.c:878-1048 | the grammar of RFC 8259 is part of the one that is read, numbers of its section 6 included |
| `JsonGrammar.SpaceCodes` | thirdparty/json-c/json_tokener.c:69-75 | white space is the four characters of section 2 of RFC 8259 |
| `JsonNumbers.IntegerRead` | thirdparty/json-c/json_tokener.c:975-1029 | an integer is read as the number its digits denote by their places, cut off at the ends of 64 bits, and refused exactly where the grammar has it |
| `JsonNumbers.NumberParts` | thirdparty/json-c/json_tokener.c:878-1048 | a number that is completed is one of the grammar, less the exponent letters and signs that lenient mode cuts off its end |
| `JsonSpaces.FindGap` | thirdparty/json-c/json_tokener.c:352-373 | what is passed over between tokens is white space, and in lenient mode comments |
| `JsonComments.CommentClosedIff` | thirdparty/json-c/json_tokener.c:555-600 | a comment that the C language would end is ended, and the array around it closed, exactly if an odd number of stars comes before its slash; otherwise the text is accepted for its first element |
| `JsonContainers.ReadValue` | thirdparty/json-c/json_tokener.c:295-1265 | printed text in front of anything that may follow is read as its value, on any level |
| `JsonContainers.ReadItems` | thirdparty/json-c/json_tokener.c:1051-1107 | the elements of an array, with separators and white space |
| `JsonContainers.ReadFields` | thirdparty/json-c/json_tokener.c:1109-1215 | the fields of an object |
| `JsonRoundTrip.ReadText` | thirdparty/json-c/json_tokener.c:605-831 | any bytes, NUL and control bytes included, survive escaping and reading |
| `JsonRoundTrip.DecimalValue` | thirdparty/json-c/json_object.c:673-683 | decimal digits denote the number they were printed from and have no leading zero |
| `JsonRoundTrip.ReadNegative` | thirdparty/json-c/json_tokener.c:878-1048 | negative integers down to the smallest are read back |
| `JsonRoundTrip.ReadUnsigned` | thirdparty/json-c/json_tokener.c:878-1048 | integers up to the largest unsigned one are read back, signed if they fit |
| `JsonTokener.RedoProgress` | thirdparty/json-c/json_tokener.c:345-1215 | a character is looked at again only finitely often |
| `JsonValues.SetFieldRefines` | thirdparty/json-c/json_object.c:537-572 | setting a field is what the linked hash table does |
| `JsonCalls.SuccessIsComplete` | thirdparty/json-c/json_tokener.c:1217-1262 | a call that says success has closed every container, except at the end of a text inside a comment behind a nested value |
| `JsonCalls.UnclosedIff` | thirdparty/json-c/json_tokener.c:1217-1237 | a text is accepted with a container left open exactly when reading it without its end asks for more inside a comment behind a nested value |
| `JsonLexer.UnclosedOnlyInComment` | thirdparty/json-c/json_tokener.c:1217-1237 | such a text ends inside a comment, as a small lexer of strings and comments tells from its characters alone |
| `JsonLexer.CallTracks` | thirdparty/json-c/json_tokener.c:345-1215 | a call that asks for more is in the lexical state of its input |
| `JsonCalls.StrictSuccessIsComplete` | thirdparty/json-c/json_tokener.c:1217-1262 | in strict mode there is no exception |
| `JsonCalls.UnclosedArrayAccepted` | thirdparty/json-c/json_tokener.c:555-590 | otherwise every value in an array cut off in a comment behind it is returned as a success |
| `JsonCalls.StepSane` | thirdparty/json-c/json_tokener.c:345-1215 | the invariant of the tokener's top level |
| `JsonSplits.SplitIndependence` | thirdparty/json-c/json_tokener.c:295-1265 | a text cut into any number of calls outside of numbers ends as in one call |
| `JsonSplits.SplitCall` | thirdparty/json-c/json_tokener.c:268-296 | a call never looks behind the place where it stops, and one that runs out of input leaves all that the next one needs |
| `JsonCuts.CutIff` | thirdparty/json-c/json_tokener.c:878-960 | for every continuation, a cut inside a number goes unnoticed if and only if no sign that is wrongly allowed or refused follows at once, and no i behind at most one more character of a negative number |
| `JsonCuts.NumberCutIff` | thirdparty/json-c/json_tokener.c:878-960 | whatever follows, exactly behind the exponent sign of a number that is not negative |
| `JsonCuts.NumberCutCall` | thirdparty/json-c/json_tokener.c:878-960 | every call of a fresh tokener that asks for more inside a number is in a state that these conditions apply to |
| `JsonCuts.OneCut` | thirdparty/json-c/json_tokener.c:268-296 | one cut anywhere, from any tokener between calls, ends as the whole does if and only if these conditions hold where it is inside a number |
| `JsonCuts.SplitAnywhere` | thirdparty/json-c/json_tokener.c:268-296 | a text cut into any number of calls, also inside numbers, ends as in one call if no cut is noticed |
| `JsonEscapes.MeaningIff` | thirdparty/json-c/json_tokener.c:678-831 | a literal is read as section 7 of RFC 8259 says, lone halves as U+FFFD, exactly when no pair in it stands for a character U+nD800 to U+nDFFF |
| `JsonEscapes.ClashIff` | thirdparty/json-c/json_tokener.c:147-149 | which pairs those are, by their high half alone |
| `JsonEscapes.MachineWellFormed` | thirdparty/json-c/json_tokener.c:678-831 | whatever the escapes, the result is well-formed UTF-8 if the raw characters are |
| `JsonEscapes.ClashExample` | thirdparty/json-c/json_tokener.c:710-769 | the escaped form of U+1D800 is read as U+FFFD |
| `JsonEscapes.HexPlaces` | thirdparty/json-c/json_tokener.c:678-696 | four hex digits in either case denote their number |
| `JsonEscapes.PairEncodes` | thirdparty/json-c/json_tokener.c:147-152 | every character beyond U+FFFF is what its two halves stand for |
| `JsonStrings.LiteralRead` | thirdparty/json-c/json_tokener.c:605-831 | the tokener reads every literal to its end, with a result that is well-formed if the raw characters are, and the meaning exactly when no pair clashes |
| `JsonStrings.ReadPieces` | thirdparty/json-c/json_tokener.c:605-831 | character by character the states of the tokener compute the literal machine |
| `Utf8Text.Utf8Decodes` | thirdparty/json-c/json_tokener.c:730-785 | the bytes written for a scalar value are one character of section 4 of RFC 3629 and carry that value |
| `JsonPrinter.PrintBuf.EscapeStr` | thirdparty/json-c/json_object.c:179-244 | copying plain characters in runs is escaping one by one |
| `JsonPrinter.PrintBuf.PrintArray` | thirdparty/json-c/json_object.c:1374-1409 | the loop appends the printed array |
| `JsonPrinter.PrintBuf.PrintObject` | thirdparty/json-c/json_object.c:456-495 | the loop appends the printed object |
| `JsonPrinter.PrintBuf.PrintValue` | thirdparty/json-c/json_object.c:1216-1224 | and any value |
| `TokenerObjects.Tokener.ParseEx` | thirdparty/json-c/json_tokener.c:295-1265 | the loop with its tight loops ends as the one-character machine does: error, place, value and state; on success the levels start over |
| `TokenerObjects.Tokener.PassRun` | thirdparty/json-c/json_tokener.c:555-640 | a run of text or comment appended at once is the same as character by character |
| `TokenerObjects.Tokener.HexDigits` | thirdparty/json-c/json_tokener.c:678-705 | so are hex digits |
| `TokenerObjects.Tokener.ScanNumber` | thirdparty/json-c/json_tokener.c:878-938 | so is a number, with permissions kept in local variables |
| `UtHash.Unlink` | uthash.h:224-242 | taking an element out of a threaded list leaves the rest threaded in order |
| `UtHash.PushInBucket` | uthash.h:611-622 | an element in front of its chain keeps all chains |
| `UtHash.UnlinkInBucket` | uthash.h:625-635 | so does taking one out |
| `UtHash.FileOne` | uthash.h:173-196 | every element stays in the chain of its hash and the chains' lengths add up |
| `UtHashExpand.MoveOne` | uthash.h:684-699 | moving one element between old and new chains in the same links keeps every element in exactly one of them |
| `UtHashTables.MaskIsRemainder` | uthash.h:198-201 | masking with a power of two less one is the remainder |
| `UtHashTables.IdealLength` | uthash.h:677-679 | shift and mask give the quotient rounded up, and never zero |
| `UtHashTables.AddSound` | uthash.h:173-196 | adding a fresh key keeps all invariants |
| `UtHashTables.DeleteSound` | uthash.h:215-248 | so does deleting |
| `UtHashObjects.FoundIff` | uthash.h:94-105 | a key is in the application's list exactly when it is in the chain its hash leads to |
| `UtHashObjects.HashTable.Find` | uthash.h:94-105 | lookup agrees with the application's list |
| `UtHashObjects.HashTable.FindInBkt` | uthash.h:597-608 | the walk along one chain |
| `UtHashObjects.HashTable.Add` | uthash.h:173-196 | the list gets the element at its end and everything stays in order, also through an expansion |
| `UtHashObjects.HashTable.Delete` | uthash.h:215-248 | the list loses exactly that element; the last one takes the table with it |
| `UtHashObjects.HashTable.ExpandBuckets` | uthash.h:666-712 | twice the buckets, the same elements, no division by zero |
| `UtHashObjects.HashTable.MoveChain` | uthash.h:683-699 | one old chain is moved in place |
| `UtHashObjects.HashTable.Fsck` | uthash.h:278-328 | the integrity check passes in every state |
| `EvChains.AppendHolds` | thirdparty/libevent-2.1.10/buffer.c:888-905 | chains behind the last chain with data: contents, length and the place of the new last chain |
| `EvChains.PrependHolds` | thirdparty/libevent-2.1.10/buffer.c:947-963 | chains in front |
| `EvChains.DropFront` | thirdparty/libevent-2.1.10/buffer.c:1126-1154 | the same after giving up bytes at the front |
| `EvChains.PullHolds` | thirdparty/libevent-2.1.10/buffer.c:1417-1455 | and after gathering bytes in one chain |
| `EvBuffers.EvBuffer.ChainNew` | thirdparty/libevent-2.1.10/buffer.c:156-193 | a chunk with room for the size, unless that is too large |
| `EvBuffers.EvBuffer.FreeTrailingEmptyChains` | thirdparty/libevent-2.1.10/buffer.c:290-303 | everything it drops is empty |
| `EvBuffers.EvBuffer.Add` | thirdparty/libevent-2.1.10/buffer.c:1727-1822 | the bytes are appended, or nothing changes, exactly when frozen or too long |
| `EvBuffers.EvBuffer.Prepend` | thirdparty/libevent-2.1.10/buffer.c:1824-1908 | the bytes are put in front; when the chain for the rest cannot be had, their end stays in the buffer |
| `EvBuffers.EvBuffer.Drain` | thirdparty/libevent-2.1.10/buffer.c:1100-1166 | the first bytes are gone |
| `EvBuffers.EvBuffer.CopyoutFrom` | thirdparty/libevent-2.1.10/buffer.c:1189-1254 | the bytes from a place on are copied, cut to what there is, and nothing else of the output changes |
| `EvBuffers.EvBuffer.Remove` | thirdparty/libevent-2.1.10/buffer.c:1168-1181 | copied and gone; the result is the count cut to 32 bits |
| `EvBuffers.EvBuffer.AddBuffer` | thirdparty/libevent-2.1.10/buffer.c:965-1009 | the other buffer's bytes move behind this one's |
| `EvBuffers.EvBuffer.PrependBuffer` | thirdparty/libevent-2.1.10/buffer.c:1054-1098 | and in front |
| `EvBuffers.EvBuffer.Pullup` | thirdparty/libevent-2.1.10/buffer.c:1349-1459 | the contents are the same and the first bytes in one piece |
| `EvBuffers.EvBuffer.SameAt` | thirdparty/libevent-2.1.10/buffer.c:2676-2710 | comparison across chains is equality with the bytes at the place |
| `EvBuffers.EvBuffer.SearchRange` | thirdparty/libevent-2.1.10/buffer.c:2718-2780 | the first occurrence from the start on that ends by the end, or none |
| `RateLimit.RefillIff` | thirdparty/libevent-2.1.10/bufferevent_ratelim.c:73-111 | the division form is the plain one cut off at the maximum exactly when the bucket is not over its maximum, or so far over that the ticks make up for the rest of the 64 bits |
| `RateLimit.RefillAdds` | thirdparty/libevent-2.1.10/bufferevent_ratelim.c:73-111 | refilling takes nothing away but what is over the maximum, if and only if the sum does not wrap |
| `RateLimit.RefillBeyond` | thirdparty/libevent-2.1.10/bufferevent_ratelim.c:95-98 | a bucket over its maximum grows |
| `RateLimit.RefillPositiveIff` | thirdparty/libevent-2.1.10/bufferevent_ratelim.c:73-111 | a refill empties a bucket exactly when it is over its maximum and the sum leaves the positive 64-bit numbers |
| `RateLimit.OverflowExample` | thirdparty/libevent-2.1.10/bufferevent_ratelim.c:95-98 | a bucket that does |
| `RateLimit.ChargesCovered` | thirdparty/libevent-2.1.10/bufferevent_ratelim.c:73-111 | over every run in which no single charge wraps, bytes charged are at most the limit at the start plus rate times ticks less the limit at the end, which stays within the maximum |
| `RateLimiters.RateLimiter.Update` | thirdparty/libevent-2.1.10/bufferevent_ratelim.c:73-111 | both buckets and the tick, which may wrap around |
| `RateLimiters.RateLimiter.DecrementReadBuckets` | thirdparty/libevent-2.1.10/bufferevent_ratelim.c:272-308 | an exhausted bucket suspends reading; the timer runs exactly while a direction is suspended; limits wrap at 64 bits |
| `RateLimiters.RateLimiter.DecrementWriteBuckets` | thirdparty/libevent-2.1.10/bufferevent_ratelim.c:310-346 | likewise for writing |
| `RateLimiters.RateLimiter.DecrementReadLimit` | thirdparty/libevent-2.1.10/bufferevent_ratelim.c:968-993 | likewise by hand, in either direction |
| `RateLimiters.RateLimiter.GetReadMax` | thirdparty/libevent-2.1.10/bufferevent_ratelim.c:183-247 | how much may be read; nothing only while suspended with the timer running, which holds if and only if no bucket overflowed |
| `RateLimiters.RateLimiter.RefillCallback` | thirdparty/libevent-2.1.10/bufferevent_ratelim.c:393-439 | directions go on exactly when their bucket has something, and the timer is set again for the others; exhausted buckets are suspended if and only if no bucket overflowed |
| `RateLimiters.RateLimiter.SetRateLimit` | thirdparty/libevent-2.1.10/bufferevent_ratelim.c:559-635 | a first configuration fills both buckets with one tick and takes the time, a later one only cuts them down; exactly the exhausted directions are suspended; none lifts everything |

## Left out

- Sockets, DNS, timers, the event loop, threads, locks and callbacks: only the state they change is modelled.
- AES, MD5, SHA and zlib: the compression function of the hash is arbitrary, and finishing a hash is taken to leave its chaining value in the context.
- Command line, logging, configuration files, login and the JSON fields of messages: flat copying.
- FTP address rewriting and SOCKS5 address parsing: the SOCKS5 handler is arbitrary.
- Streams and rings inside the receiver: `Receivers.Receiver` keeps the stream table as a value; `StreamObjects.StreamObject` is one stream as an object, and `ControlObjects.ControlObject` keeps streams and clients as values at their addresses.
- Connections without multiplexing, and the messages that follow a connect.
- Delivery.CreditConservation: streams are established on both ends, writes do not mis-split, and the message handler sends nothing.
- JsonCalls.UnclosedIff: its condition is a run of the tokener; `JsonLexer.UnclosedOnlyInComment` is what can be told from the characters alone.
- ControlObjects.ControlObject.NewClientConnect: a session id that is still in use, which the hash table does not look for; `Registry.RegistryAgreement` says when there is none. Addresses come from the allocator and are fresh.
- Reconnect.ReconnectIff: a connection that is lost while a stream's payload is read leaves a pointer to freed memory, which the model takes for a stop.
- JSON doubles, which are known by their text, locale handling, UTF-8 validation of the input, json_pointer and json_visit.
- JsonTheorems.PrintParseRoundTrip: object keys without NUL, which C strings cannot hold, and distinct, as the table keeps them.
- TokenerObjects.Tokener.ParseEx: states without a loop of their own are applied as functions on the object's fields, and the array of levels is kept as the current level and those below it.
- Load factor of the linked hash table as a fraction, 66 of 100, where the program compares doubles.
- Memory allocation failure, except for sizes that the allocator refuses, and freeing.
- UtHashObjects.HashTable.Add: keys that are already in the table, which the macro does not look for, and more than 2^32 buckets. Bloom filters, sorting and selection are not modelled.
- The next pointers of an evbuffer and its pointer to the last chain: the list is a sequence, and the pointer to the last chain with data is a place in it. Pinned, multicast, referenced and file chains, evbuffer_remove_buffer, expansion for direct reads and writes, and line reading are not modelled.
- EvBuffers.EvBuffer.AddBuffer: lengths that add up to more than a 64-bit size, which cannot be in memory.
- Groups of bufferevents.
- Quality of the hash functions: hashes are arbitrary functions of the key.
