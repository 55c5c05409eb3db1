# Room registry of the transcribe/translate WebSocket relay

This project models, in Dafny, the in-memory room registry of the two
WebSocket room servers in `backend/examples/`. Both keep a map from room name
to the room's members. Each member is keyed by the remote socket address of
its connection. A message from one member is fanned out to the others in its
room, and the servers send lifecycle notices when membership changes.

The two servers differ in what they send, so each has its own module:

- `room-server-custom-accept.rs` (module `CustomAccept`). It answers the HTTP
  upgrade itself. It gates non-handshake requests, derives the room, the name
  and two locale hints, and refuses a duplicate name with 409. On join it sends
  `connected` status notices to the joiner and to the others. On close it sends
  `close` notices and then removes the member.
- `room-server.rs` (module `RoomServer`). Admission runs inside the library
  handshake callback. Every insertion and every removal is followed by a
  `count` broadcast and then a `participants` broadcast to the whole room.

The shared pieces are in their own modules:

- `Registry`: rooms as immutable maps of maps, with join, leave, the name test
  and the snapshot that each broadcast takes under the lock.
- `Fanout`: messages and per-address outbound queues. A queue is a FIFO
  `seq<Msg>`. `Broadcast` is the fan-out reference. `Deliver` is the send loop
  over a snapshot.
- `Admission`: room-id derivation, query-pair lookups and the rejection text.

Each connection phase is one atomic step: a function or method from one
`Server` value (registry plus queues) to the next. A phase spans every locked
region it names. Joining and leaving each cover the registry update, every
snapshot and every send of that phase. Hash-map enumeration
order is unspecified. `Registry.SnapshotRoom` therefore picks members in an
arbitrary order. Every property is stated so that it holds for any order, with
sets for recipients and multisets for the participant list.

The two servers differ as follows; the model follows each server's code:

- Only `room-server.rs` sends count and participant-list broadcasts.
- Only `room-server-custom-accept.rs` sends join/leave status notices.
- The default display name is `"Anonymous"` in `room-server.rs` and
  `"participant-name"` in `room-server-custom-accept.rs`.
- `room-server-custom-accept.rs` collects the query pairs into a hash map, so
  the last pair for a repeated key wins. `room-server.rs` searches for the
  first `name` pair, so the first one wins.
- In `room-server.rs`, a URL that fails to parse keeps both defaults, the room
  and the name. In `room-server-custom-accept.rs`, the room comes from the
  parsed URL and the query from the raw URI, independently.
- `room-server-custom-accept.rs` relays while holding the lock. As a single
  atomic step, this is the same as sending after the lock is released.
- Display-name uniqueness is checked at admission only. The check and the
  insertion are separate steps, so two interleaved admissions can both pass.
  `RoomServer.AdmissionRace` exhibits this.
- `room-server-custom-accept.rs` panics when a request passes the gate and the
  name check but has no `Sec-WebSocket-Key` header. The code unwraps the
  derived accept key. The model gives this case the reply `Aborted`, which
  leaves the registry unchanged.

## Model

| member | source | states |
|---|---|---|
| Admission.TrimLeadingSlashes | backend/examples/room-server-custom-accept.rs:286 | the result is the suffix left after the longest all-`/` prefix: the input is an all-slash prefix followed by the result, and the result does not start with `/` |
| Admission.RoomIdFromPath | backend/examples/room-server-custom-accept.rs:282-290 | an unparsable URL or an all-slash path gives `"default"`; otherwise the room id is the path with all leading `/` stripped, with the text unchanged; a room id is never empty and never starts with `/` |
| Admission.FirstValue | backend/examples/room-server.rs:135-137 | `None` iff no pair has the key; otherwise the value of the first pair with that key |
| Admission.CollectPairs | backend/examples/room-server-custom-accept.rs:299-300 | collecting the pairs into a map gives a key iff some pair carries it |
| Admission.CollectPairsLastWins | backend/examples/room-server-custom-accept.rs:299-300 | for a repeated key the collected map keeps the value of the last occurrence |
| Admission.CollectPairsLookup | backend/examples/room-server-custom-accept.rs:304-312 | looking up a key finds it iff some pair has it, and then yields the value of its last occurrence |
| CustomAccept.ParseParticipant | backend/examples/room-server-custom-accept.rs:292-313 | name, translate_to and transcribe_to each default on their own to `"participant-name"`, `"en"` and `"jp"`; each is overridden only by its own key, and the last occurrence wins |
| CustomAccept.HandleRequest | backend/examples/room-server-custom-accept.rs:270-331 | a non-GET request, or one whose Sec-WebSocket-Version is missing or not `"13"`, gets 200 "Hi, you are in the wrong place." whatever the registry holds; otherwise the reply is 409 with body `Name '<name>' is already in use` iff some member of the derived room has exactly that name; an upgrade carries the derived room and participant; a request without Sec-WebSocket-Key aborts |
| CustomAccept.EmptyRoomAdmits | backend/examples/room-server-custom-accept.rs:316-331 | an absent or empty room never rejects a name |
| CustomAccept.Accept | backend/examples/room-server-custom-accept.rs:351-373 | only a granted upgrade that completes reaches the registry, inserting the admitted participant under (room, addr); a refusal, abort or failed upgrade leaves the server unchanged |
| CustomAccept.Connect | backend/examples/room-server-custom-accept.rs:82-135 | the participant is inserted under (room, addr); the joiner's fresh queue holds exactly one `connected` notice "You joined the room '<room>'"; every other member of the room, the joiner's own address excluded, gets exactly one "<name> joined the room"; every other queue is unchanged |
| CustomAccept.Relay | backend/examples/room-server-custom-accept.rs:223-244 | the inbound frame is appended unchanged to every member of the sender's room except the sender; the sender's queue and all non-members' queues are unchanged; the registry is unchanged |
| CustomAccept.Disconnect | backend/examples/room-server-custom-accept.rs:137-190 | the owner gets "You left the room '<room>'"; every other member of the pre-removal membership gets "<name> left the room"; then only the departing address is removed |
| CustomAccept.ConnectThenDisconnect | backend/examples/room-server-custom-accept.rs:212-262 | joining an existing room and then closing restores the registry exactly; the joiner's queue is welcome then farewell; every member present throughout gets the joined notice and then the left notice, and nothing else |
| Registry.Join | backend/examples/room-server-custom-accept.rs:212-216 | insert-or-create: (room, addr) maps to the participant, replacing any earlier entry for that address; the room is created if absent; every other member and every other room is unchanged |
| Registry.Leave | backend/examples/room-server-custom-accept.rs:257-262 | only the address is removed from the room; the set of room entries is unchanged, so an emptied room is kept; every other member and every other room is unchanged |
| Registry.LeaveAbsentIsNoop | backend/examples/room-server.rs:242-247 | removing an address that is absent, or removing from an absent room, leaves the registry unchanged |
| Registry.LeaveIdempotent | backend/examples/room-server.rs:242-247 | removing the same address twice is the same as removing it once |
| Registry.JoinThenLeave | backend/examples/room-server.rs:207-247 | for an address not yet in an existing room, insertion followed by removal restores the registry exactly |
| Registry.JoinMakesNameTaken | backend/examples/room-server.rs:140-153 | right after a join under a name, the admission check for that name in that room reports a collision |
| Registry.HasNameIffListed | backend/examples/room-server.rs:143-144 | the collision test holds iff the name is in the multiset of the room's member names |
| Registry.JoinsThenLeavesEmptyRoom | backend/examples/room-server.rs:207-250 | from an empty or absent room, N sequential joins followed by leaves of the same N addresses leave the room with no members, so the count computed after the last leave is 0 and, with no member left to receive it, reaches no one (when the sole member leaves, `RoomServer.Disconnect` leaves every queue unchanged) |
| Registry.EnumerationNames | backend/examples/room-server.rs:72-75 | any duplicate-free enumeration of a room, with names read in the same order, yields exactly the room's name multiset, whatever the order |
| Registry.SnapshotRoom | backend/examples/room-server.rs:69-79 | the snapshot lists every member's handle exactly once, its length is the member count, the i-th name belongs to the i-th handle, and the names are a permutation of the members' names |
| Registry.SnapshotOthers | backend/examples/room-server.rs:94-105 | the snapshot lists every member except the given address exactly once, and nobody else |
| Fanout.Deliver | backend/examples/room-server.rs:63-65 | sending in turn to each handle of a snapshot appends as many copies as the handle occurs; for a duplicate-free snapshot, in any order, this equals one copy to each listed address with every other queue untouched |
| RoomServer.RequestedName | backend/examples/room-server.rs:125-138 | the display name is the value of the first `name` pair; it is `"Anonymous"` when there is none or the URL does not parse |
| RoomServer.ProcessHeader | backend/examples/room-server.rs:120-156 | Err with status 409 and body `Name '<name>' is already in use` iff some member of the requested room has that name, otherwise Ok((room, name)); the registry is only read |
| RoomServer.CollectRoomSenders | backend/examples/room-server.rs:45-50 | exactly one handle per current member of the room; empty for an absent room |
| RoomServer.BroadcastCount | backend/examples/room-server.rs:53-66 | every member of the room, and nobody else, gets `count` equal to the room's member count in the same snapshot |
| RoomServer.BroadcastParticipants | backend/examples/room-server.rs:69-90 | every member, and nobody else, gets the same list; the list is a permutation of the members' names, and its length is the member count |
| RoomServer.HandleIncoming | backend/examples/room-server.rs:93-110 | the unchanged message is appended to every member except the sender; the sender and non-members get nothing; an absent room sends nothing |
| RoomServer.AnnounceRoom | backend/examples/room-server.rs:224-225 | every current member gets the count and then the participant list, in that order, and nobody else gets anything |
| RoomServer.Connect | backend/examples/room-server.rs:203-225 | after insertion, the joiner's fresh queue holds exactly the count and the list; the count equals the post-insertion size, and the joiner is included; every earlier member gets the same two messages; other queues are unchanged |
| RoomServer.Disconnect | backend/examples/room-server.rs:241-250 | after removal, each remaining member gets the count and the list; the count equals the remaining size; the departing connection gets neither; non-members are unchanged |
| RoomServer.Attempt | backend/examples/room-server.rs:158-225 | a rejected handshake, or one that fails in the transport, returns with the server unchanged; otherwise the requested room and name are inserted |
| RoomServer.SecondAnnRefused | backend/examples/room-server.rs:140-155 | two sequential requests for `/lobby?name=Ann`: the first is admitted, and after it joins the second gets 409 `Name 'Ann' is already in use` |
| RoomServer.AdmissionRace | backend/examples/room-server.rs:140-211 | two requests checked before either insertion are both admitted, and the room ends up with two members named "Ann" |

## Left out

- Networking and process wiring are not modelled: TCP listening, task spawning, the HTTP/1 server, `main` and argument parsing.
- The RFC 6455 handshake details are not modelled: the Sec-WebSocket-Accept derivation (section 4.2.2 of RFC 6455), the headers of the 101 response and the library `accept_hdr_async`. Only whether the upgrade completes is an input (`upgradeOk`, `transportOk`).
- URL parsing and percent-decoding are not modelled. The model takes the parsed path, or `None` when parsing fails, and the decoded query pairs as inputs.
- Concurrency is not modelled: the mutex, the race between the read pump and the write pump, and cancellation. Each connection phase is one atomic step, and interleavings are sequences of whole phases.
- Interleavings inside a phase are not represented. In `room-server.rs`, the count snapshot (line 46) and the list snapshot (line 71) take the lock separately, so a join in between can give a member a count that disagrees with the list that follows it. `RoomServer.AnnounceRoom` always pairs a count with a list of that length. Likewise, `room-server-custom-accept.rs` sends to the joiner (lines 91-100) and to the others (lines 104-134) outside the insertion lock (lines 212-216), and `CustomAccept.Connect` performs all three as one step.
- Timestamps and JSON rendering are abstracted into the `Msg` datatype. Synthesized notices carry no timestamp.
- All console logging is left out, including the room-state dump.
- Draining a queue to the socket (`rx.forward(outgoing)`, `read_received`) is left out. The queue sequence is what is enqueued, in FIFO order. Messages that are dropped because a receiver is already gone are not modelled.
- `get_room_participants` in `room-server-custom-accept.rs` is left out because nothing calls it.
- Global display-name uniqueness is not stated as an invariant, because the code does not maintain it (see `RoomServer.AdmissionRace`).
- RoomServer.BroadcastParticipants: states the list only up to order (as a multiset), because the order is the hash map's unspecified enumeration order.
