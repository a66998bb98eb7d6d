# A verified model of the wirestorm relay

The relay in `server.c` takes one source client on one port and any number of
destination clients on another. Every buffer read from the source goes through
the same decision. The relay checks the 8-byte frame header (magic byte 0xCC,
options 0x00 or 0x40, a big-endian length, a big-endian checksum and two zero
padding bytes). When the options byte asks for it, the relay also checks the
checksum: a one's-complement sum of big-endian words in the style of RFC 1071,
where the word at offset 4 is always replaced by 0xCCCC. A buffer that passes
is sent, byte for byte, to every entry of the connection set except the
destination listener and the source connection.

The connection set is an array of `pollfd` entries with a count and a capacity.
Adding an entry doubles the capacity when the array is full. Removing an entry
moves the last entry into its slot. Source exclusivity works like this:

- While no source client is connected, a source listener is open.
- Accepting a source client closes that listener.
- When the source client goes away, a fresh listener is opened.

One pass of the event loop walks the set with a cursor. The cursor steps back
after every removal, so that the entry moved into the freed slot is still
examined.

The project has five modules:

- `Wire` (`Wire.dfy`): byte and word types, the size constants,
  `concat_two_bytes`.
- `ChecksumAlgorithm` (`Checksum.dfy`):
  - the checksum as a function over unbounded integers, with an explicit carry fold;
  - the C routine as a method with a 32-bit accumulator that wraps;
  - the lemmas about the checksum.
- `Frame` (`Frame.dfy`): `check_header` and the accept/drop decision as
  `Validate`, which maps the received bytes to `Broadcast(bytes)` or
  `Drop(reason)`.
- `ConnectionSet` (`ConnectionSet.dfy`):
  - `pollfd` entries as values;
  - swap-with-last removal;
  - the bookkeeping of a pass whose cursor moves back after removals.
- `Server` (`Server.dfy`): the `ConnectionsInfo` record and the `pollfd`
  array as one class `Relay`, together with:
  - its handlers;
  - the recipient list of a broadcast;
  - the bookkeeping invariant, which includes source exclusivity.

Every call into the operating system is an input. A value `os: Os` answers
two questions:

- `accept`, and opening a fresh source listener: `os.newFd(n, open)`;
- `recv` on descriptor `fd`: `os.recv(n, fd)`.

Here `n` is the number of ready slots the pass has handled so far, and `open`
is the set of entries at that moment. `Sound(os)` states what the system
guarantees:

- a new descriptor is -1 or is not open in the set;
- recv never fills more than the relay's `MAX_MSG_LENGTH`-byte buffer.

A poll is an input as well: `Relay.Poll` stores the reported events it is
given in every live entry, and none for a negative descriptor. A send is
recorded as a `Send(fd, message)` value in the list a broadcast returns.

A pass is also defined as a value. `Handle` gives the outcome of handling one
ready slot:

- how the set changes (`SlotEffect`: the slot stays, leaves by swap-with-last,
  or gives way to the entry appended last);
- the new source listener and source connection;
- the sends.

`PassFrom` runs the cursor over a `RelayState` with `Handle`. Each handler
method of `Relay` ends in the state `Handle` gives. `ProcessConnections` ends
in the state, sends and handled entries that `PassFrom` gives. The lemmas about
`PassFrom` carry over to the object through those ensures.

Modelling choices the C code calls for:

- The local-pointer realloc at `server.c:279`. `handle_src_client_data` passes
  `&fds`, the address of its own parameter, to `add_to_fds`. A growth there
  would leave the caller's pointer on the freed block. It never happens:
  `close_connection` has just freed a slot, so the array is never full at that
  call. `Relay.HandleSrcClientData` proves that the array and its capacity are
  unchanged.
- The result of `get_listener_socket` at `server.c:278` is not checked. The
  model keeps this as written: a failure (-1) becomes the source listener, and
  an entry with descriptor -1 is appended to the set. `FreshFd` allows -1, and
  the bookkeeping invariant `Tracked` holds in that case too. `Tracked` also
  requires that no non-negative descriptor is in the set twice.
- `main` never initialises the two listeners' `revents`. The constructor sets
  them to the empty set, as `add_to_fds` does for every later entry.
- A `pollfd` bit mask is modelled as the set of its flags (`PollIn` for POLLIN, `PollHup` for
  POLLHUP, ...), so the readiness test `revents & (POLLIN | POLLHUP)` is
  `PollIn in revents || PollHup in revents`.

## Model

| member | source | states |
|---|---|---|
| Wire.ConcatTwoBytes | server.c:174-177 | the word's high byte is the left byte and its low byte the right byte (big-endian `l << 8 \| r`) |
| Wire.ConcatSplit | server.c:174-177 | splitting a word into its two bytes and joining them again gives the word back |
| ChecksumAlgorithm.Fold | server.c:202-205 | the carry fold ends below 0x10000, keeps the value modulo 0xFFFF (so it computes a one's-complement sum), and is zero only for zero |
| ChecksumAlgorithm.FoldStep | server.c:203-204 | one step `(sum & 0xFFFF) + (sum >> 16)` makes a value of 17 or more bits smaller, keeps it positive, and keeps it modulo 0xFFFF, so the loop ends |
| ChecksumAlgorithm.Add32 | server.c:186-199 | `uint32_t` addition wraps modulo 2^32 and is exact when the sum fits |
| ChecksumAlgorithm.CalculateChecksum | server.c:184-209 | the routine, 32-bit wrap-around included, returns Checksum(message) for every buffer of at most MAX_MSG_LENGTH bytes: the 16-bit complement of the folded sum of big-endian words, 0xCCCC at offset 4, and an odd trailing byte shifted left 8 |
| ChecksumAlgorithm.SumFromBound | server.c:189-195 | each stride adds at most 0xFFFF |
| ChecksumAlgorithm.RawSumBound | server.c:17 | for any buffer of at most 65535 bytes the unfolded sum is below 2^32: the accumulator never overflows |
| ChecksumAlgorithm.SumFromAgree | server.c:189-195 | the stride sum reads no byte at offsets 4 and 5 |
| ChecksumAlgorithm.ChecksumIgnoresField | server.c:189-195 | two buffers of one length (at least 6) that differ only in bytes 4-5 have the same checksum |
| ChecksumAlgorithm.SumFromUpdate | server.c:189-195 | changing one byte of a full stride changes the stride sum by the difference, times 256 for a high byte and 1 for a low byte |
| ChecksumAlgorithm.RawSumUpdate | server.c:189-200 | the same for the whole unfolded sum, the odd trailing byte weighing 256 |
| ChecksumAlgorithm.FoldSeparates | server.c:202-205 | two raw sums that differ by a non-zero amount below 0xFFFF fold to different values |
| ChecksumAlgorithm.ChecksumDetectsChange | server.c:184-209 | changing any single byte other than bytes 4-5 always changes the checksum |
| ChecksumAlgorithm.SumFromExtend | server.c:189-195 | appending bytes to an even-length buffer keeps its strides |
| ChecksumAlgorithm.AppendWord | server.c:189-195 | two bytes appended to an even-length buffer add their big-endian word, or 0xCCCC at offset 4 |
| ChecksumAlgorithm.AppendOddByte | server.c:197-200 | an odd trailing byte adds `byte << 8` |
| Frame.CheckHeader | server.c:216-229 | accepts exactly the headers with byte 0 = 0xCC, byte 1 in {0x00, 0x40} and bytes 6-7 zero; otherwise reports the first failing test in the order magic, options, padding |
| Frame.Validate | server.c:282-305 | for n > 0 received bytes: broadcast iff at least 8 bytes, n - 8 at most the big-endian length in bytes 2-3, a well-formed header, and options 0x00 or a checksum equal to the big-endian field in bytes 4-5; what is broadcast is exactly the bytes received; fewer than 8 bytes, too much payload, a bad header and a failed checksum each have their own reason; a short payload is not a reason |
| Frame.EncodeFrameRelayed | server.c:282-305 | every frame built by the header layout (checksum computed or not) is broadcast unchanged, and its header reads back its length and options |
| Frame.TamperedPayloadDropped | server.c:299 | under a checksum request, changing any one payload byte of an accepted frame makes it dropped as BadChecksum |
| Frame.TruncatedFrameRelayed | server.c:293-294 | a frame without a checksum request cut short after its header is still broadcast as received |
| ConnectionSet.NewEntry | server.c:94-96 | a new entry holds the descriptor, asks for POLLIN, has nothing reported, so it is not ready in the current pass |
| ConnectionSet.SwapRemove | server.c:104-109 | removal leaves one entry fewer |
| ConnectionSet.SwapRemoveSlots | server.c:104-109 | after removal the old last entry sits in slot i and every other slot below the new count is unchanged |
| ConnectionSet.SwapRemoveMultiset | server.c:104-109 | removal takes exactly one copy of the removed entry out of the multiset of live entries |
| ConnectionSet.HasFdAppend | server.c:94-98 | appending keeps every descriptor of the set |
| ConnectionSet.HasFdSwapRemove | server.c:104-109 | removal keeps every descriptor other than the removed one |
| ConnectionSet.HasFdSwapRemoveMoved | server.c:106 | the entry moved into slot i stays in the set |
| ConnectionSet.CursorRevisits | server.c:165-167 | after removing slot i the slots below i are untouched and the slots from i on hold exactly the entries that were after slot i, so a cursor that steps back to i - 1 still visits all of them |
| ConnectionSet.CursorAdvanceSkips | server.c:165-167 | a cursor that did not step back would miss the entry moved into slot i |
| ConnectionSet.PassBegins | server.c:314 | a pass starts with the cursor at 0 and nothing handled |
| ConnectionSet.PassCount | server.c:314 | handled plus still-to-handle ready entries are as many as were ready at the start |
| ConnectionSet.PassSkip | server.c:317 | a slot that is not ready is passed over |
| ConnectionSet.PassKeep | server.c:329-330 | handling a ready slot in place, perhaps appending quiet entries, moves the cursor on and keeps the pass bookkeeping |
| ConnectionSet.PassRemove | server.c:274-280 | removing a ready slot, perhaps appending quiet entries (a fresh listener), with the cursor stepped back, keeps the pass bookkeeping |
| ConnectionSet.PassReplace | server.c:320-326 | appending the new source connection and then removing the ready listener slot, with the cursor stepped back, keeps the pass bookkeeping |
| ConnectionSet.PassApply | server.c:317-340 | every quiet effect of handling a ready slot, with the cursor Cursor gives, keeps the pass bookkeeping |
| ConnectionSet.PassEnds | server.c:314 | a finished pass has handled every entry that was ready at its start, each exactly once |
| ConnectionSet.ApplyPending | server.c:314-341 | after a quiet effect on ready slot i, the ready entries from the next cursor on are the ones that were pending after slot i, so each pass step strictly shrinks what is pending and the pass ends |
| ConnectionSet.DistinctAppend | server.c:94-98 | appending a descriptor not in the set (or a negative one) keeps the descriptors distinct |
| ConnectionSet.DistinctSwapRemove | server.c:104-109 | swap-with-last removal keeps the descriptors distinct |
| ConnectionSet.PolledKeepsFds | server.c:389 | poll changes no descriptor, so it keeps membership both ways and distinctness, and a slot with a negative descriptor is never ready afterwards |
| ConnectionSet.SwapRemoveKeepsIdle | server.c:104-109 | removing a ready entry loses no entry that was not ready |
| Server.Deliveries | server.c:234-245 | a broadcast sends the whole message to live descriptors only, never to the destination listener or the source connection |
| Server.DeliveriesReachEvery | server.c:235-243 | every live entry other than those two receives the message |
| Server.DeliveriesConcat | server.c:235 | the sends follow slot order |
| Server.SourceExclusive | server.c:145-147 | under the bookkeeping invariant, a source listener and a source connection are never both open |
| Server.TrackedAppend | server.c:329-330 | accepting a destination client (a fresh descriptor or -1) keeps the bookkeeping invariant, distinctness included |
| Server.TrackedDstClosed | server.c:251-259 | closing a destination client keeps the bookkeeping invariant |
| Server.TrackedSrcAccepted | server.c:320-326 | once the source client is accepted and the listener removed, the new descriptor is the source connection, the listener is -1, and the invariant holds |
| Server.TrackedSrcClosed | server.c:274-280 | once the source client is gone and a fresh listener (or -1) is appended, the source connection is -1 and the invariant holds |
| Server.Handle | server.c:317-340 | handling a ready slot appends only entries that are not ready, and only the source connection's slot yields sends, each of an accepted buffer to a descriptor other than the destination listener |
| Server.HandleKeepsTracked | server.c:317-340 | handling any ready slot keeps the bookkeeping invariant, given the answers the system guarantees |
| Server.PassFromCovers | server.c:313-342 | from any point of a pass that keeps the pass bookkeeping, the rest of the pass handles each pending ready entry once and loses no idle entry |
| Server.PassFromKeeps | server.c:313-342 | from a state that keeps the invariant, the rest of the pass keeps it, keeps the destination listener, and relays only accepted buffers away from it |
| Server.PassSound | server.c:313-342 | a whole pass handles each entry ready at its start exactly once, loses no idle entry, keeps the invariant (source exclusivity and distinct descriptors included) and relays only accepted buffers away from the destination listener |
| Server.TrackedPolled | server.c:389 | a poll keeps the bookkeeping invariant |
| Server.Relay.constructor | server.c:352-382 | start-up: both listeners in the set, no source connection, capacity 5 |
| Server.Relay.AddToFds | server.c:87-99 | appends newfd with events POLLIN and no revents after the earlier entries, which are unchanged; doubles the capacity exactly when the array is full |
| Server.Relay.DelFromFds | server.c:104-109 | the live entries become the swap-with-last removal of slot i |
| Server.Relay.HandleNewConnection | server.c:116-151 | returns -1 exactly when accept fails, and then changes nothing, capacity and array included; otherwise appends the new descriptor, makes it the source connection when accepted on the source listener, doubles the capacity exactly when the array was full, and returns 0 |
| Server.Relay.CloseConnection | server.c:157-168 | removes slot i and hands back the cursor i - 1 |
| Server.Relay.HandleDstClientData | server.c:251-259 | closes the connection exactly when recv returns at most 0; otherwise nothing changes |
| Server.Relay.HandleSrcClientData | server.c:267-307 | on recv of at most 0: the connection is removed, a fresh listener appended and recorded, the source connection is -1, nothing is sent, and the cursor steps back; otherwise the state is unchanged and the sends are the broadcast of the received bytes when Validate accepts them, none when not; the array and its capacity never change |
| Server.Relay.BroadcastMessage | server.c:234-245 | the sends are exactly Deliveries over the live entries, and no state changes |
| Server.Relay.AcceptSource | server.c:320-326 | a ready source listener: the state, cursor and effect are exactly Handle's (the accepted connection takes the listener's slot and the listener becomes -1, or nothing changes when accept fails) |
| Server.Relay.AcceptDestination | server.c:329-330 | a ready destination listener: the state and cursor are exactly Handle's (a new destination client appended, or nothing changes), source fields unchanged |
| Server.Relay.SourceData | server.c:333-334 | a ready source connection: the state, cursor and sends are exactly Handle's |
| Server.Relay.DestinationData | server.c:337-338 | a ready destination client: the state and cursor are exactly Handle's (removed when recv returns at most 0, otherwise nothing changes) |
| Server.Relay.HandleReady | server.c:317-340 | a ready slot dispatched by its descriptor: the state, cursor and sends are exactly Handle's, and the invariant is kept |
| Server.Relay.Visit | server.c:314-341 | one iteration: a ready slot is handled as Handle says and counted, a slot that is not ready changes nothing; the rest of the pass PassFrom gives is the same before and after, and the pass makes progress |
| Server.Relay.ProcessConnections | server.c:313-342 | the pass ends in exactly the state, sends and handled entries PassFrom gives, so every entry ready at its start is handled exactly once, no idle entry is lost, the invariant is kept, and only accepted buffers are sent, to descriptors other than the destination listener |
| Server.Relay.Poll | server.c:389 | every live entry gets the reported events it is given, a negative descriptor none, and the invariant is kept |
| Server.Relay.Serve | server.c:388-398 | one turn of the main loop: a poll and then the pass PassFrom gives over the polled entries, handling each of them that is ready exactly once |

## Left out

- `get_listener_socket` (getaddrinfo, socket, setsockopt, bind, listen) is not part of this model. Its result is the `os.newFd` answer, -1 included.
- `accept`, `recv`, `send`, `close` and `poll` are inputs or recorded effects. There is no model of the sockets. Closing a descriptor is not recorded.
- The `main` start-up and the endlessness of its loop are out of scope. The constructor models the state `main` builds before the loop, and one call of `Serve` models one turn of the loop. The exit on a failed poll (`server.c:391-394`) is left out: the poll is an input.
- Logging through `printf`, `perror` and `fprintf` is left out: its text is not part of the behaviour.
- realloc failure and memory ownership are left out. The array is one owned object.
- The destination clients' 256-byte buffer is left out. Only the sign of recv's result matters to the relay, and the bytes are discarded.
- `tests.py` (an end-to-end socket harness) and `client.py` (socket-connect wrappers) have no logic to model.
- `ProcessConnections` on its own takes whatever `revents` the entries hold. Only through `Poll` (or `Serve`) does a negative descriptor, left by the unchecked failure at `server.c:278`, always come out not ready.
- ChecksumAlgorithm.ChecksumIgnoresField: needs at least six bytes. In a five-byte buffer, byte 4 is the odd trailing byte, which the routine reads (`server.c:189`, `server.c:198-199`). `handle_src_client_data` checksums only buffers of eight bytes or more.
- ChecksumAlgorithm.CalculateChecksum: the method computes the C routine for every buffer, wrap-around included. Its contract relates the result to `Checksum` only for buffers of at most `MAX_MSG_LENGTH` bytes, the only ones recv can deliver. Beyond that, the 32-bit accumulator may wrap.
- Server.Relay.HandleSrcClientData: requires that recv deliver at most `MAX_MSG_LENGTH` bytes. That is recv's guarantee for the relay's buffer (`server.c:269-270`); the C code does not check it.
