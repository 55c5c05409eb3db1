/**
 The server built on the library handshake (room-server): admission inside
 the handshake callback, and the registry steps of one connection: insertion,
 relay of client messages, removal, each membership change followed by a
 count broadcast and a participant-list broadcast to the whole room. These
 steps are methods because the participant list follows the hash map's
 enumeration order, which is chosen arbitrarily.
 */
module RoomServer {
  import opened Wrappers
  import opened Registry
  import opened Fanout
  import opened Admission

  const DefaultName := "Anonymous"

  /** A request URL as parsed: its path and its decoded query pairs. */
  datatype Url = Url(path: string, query: seq<QueryPair>)

  /** The HTTP response that fails the handshake. */
  datatype ErrorResponse = ErrorResponse(status: nat, body: string)

  /** The room a request asks for; "default" when the URL does not parse. */
  function RequestedRoom(url: Option<Url>): RoomName {
    RoomIdFromPath(if url.Some? then Some(url.value.path) else None)
  }

  /** The display name a request asks for: the first `name` pair wins; the
      default when the URL does not parse or has no such pair. */
  function RequestedName(url: Option<Url>): (name: string)
    ensures (url.None? || forall i :: 0 <= i < |url.value.query| ==> url.value.query[i].0 != "name")
              ==> name == DefaultName
    ensures url.Some? ==>
              forall i :: (0 <= i < |url.value.query| && url.value.query[i].0 == "name"
                           && forall j :: 0 <= j < i ==> url.value.query[j].0 != "name")
                          ==> name == url.value.query[i].1
  {
    if url.None? then DefaultName
    else FirstValue(url.value.query, "name").GetOr(DefaultName)
  }

  /**
   The handshake callback's decision: 409 with the exact reason when some
   member of the requested room already has the requested name, otherwise the
   room and name to join under. It only reads the registry.
   */
  function ProcessHeader(rooms: Rooms, url: Option<Url>): (r: Result<(RoomName, string), ErrorResponse>)
    ensures var room, name := RequestedRoom(url), RequestedName(url);
      && (r.Err? <==> exists a | a in Members(rooms, room) :: Members(rooms, room)[a].name == name)
      && (r.Err? ==> r.error == ErrorResponse(ConflictStatus, NameInUse(name)))
      && (r.Ok? ==> r.value == (room, name))
  {
    var room, name := RequestedRoom(url), RequestedName(url);
    if HasName(rooms, room, name) then Err(ErrorResponse(ConflictStatus, NameInUse(name)))
    else Ok((room, name))
  }

  /** The handles of every current member of a room, one each, none for an
      absent room. */
  method CollectRoomSenders(rooms: Rooms, room: RoomName) returns (senders: seq<Addr>)
    ensures Distinct(senders) && |senders| == |Members(rooms, room)|
    ensures forall a :: a in senders <==> a in Members(rooms, room)
  {
    var names;
    senders, names := SnapshotRoom(rooms, room);
  }

  /** The member count, as the length of the collected handles, sent to every
      member of the room. */
  method BroadcastCount(rooms: Rooms, q: Queues, room: RoomName) returns (r: Queues)
    ensures forall a :: Queue(r, a) ==
              if a in Members(rooms, room) then Queue(q, a) + [Count(|Members(rooms, room)|)] else Queue(q, a)
  {
    var senders := CollectRoomSenders(rooms, room);
    r := Deliver(q, senders, Count(|senders|));
  }

  /** The list of member names, taken in the same snapshot as the recipients
      and sent to every member; returned as well so callers can speak of it. */
  method BroadcastParticipants(rooms: Rooms, q: Queues, room: RoomName) returns (r: Queues, list: seq<string>)
    ensures |list| == |Members(rooms, room)| && multiset(list) == NamesOf(Members(rooms, room))
    ensures forall a :: Queue(r, a) ==
              if a in Members(rooms, room) then Queue(q, a) + [Participants(list)] else Queue(q, a)
  {
    var senders;
    senders, list := SnapshotRoom(rooms, room);
    r := Deliver(q, senders, Participants(list));
  }

  /** A message from one connection, relayed unchanged to everybody else in
      its room. */
  method HandleIncoming(rooms: Rooms, q: Queues, room: RoomName, addr: Addr, frame: Frame) returns (r: Queues)
    ensures Queue(r, addr) == Queue(q, addr)
    ensures forall a :: Queue(r, a) ==
              if a in Members(rooms, room) && a != addr then Queue(q, a) + [Relayed(frame)] else Queue(q, a)
  {
    var senders := SnapshotOthers(rooms, room, addr);
    r := Deliver(q, senders, Relayed(frame));
  }

  /** A count broadcast followed by a list broadcast to the same members leaves
      each member with both messages, in that order, and everybody else as before. */
  lemma CountThenList(q0: Queues, q1: Queues, q2: Queues, members: set<Addr>, count: Msg, list: Msg)
    requires forall a :: Queue(q1, a) == if a in members then Queue(q0, a) + [count] else Queue(q0, a)
    requires forall a :: Queue(q2, a) == if a in members then Queue(q1, a) + [list] else Queue(q1, a)
    ensures forall a :: Queue(q2, a) == if a in members then Queue(q0, a) + [count, list] else Queue(q0, a)
  {
  }

  /** The pair of broadcasts that follows every membership change: the count,
      then the participant list, both to every current member. */
  method AnnounceRoom(rooms: Rooms, q: Queues, room: RoomName) returns (r: Queues, list: seq<string>)
    ensures |list| == |Members(rooms, room)| && multiset(list) == NamesOf(Members(rooms, room))
    ensures forall a :: Queue(r, a) ==
              if a in Members(rooms, room) then Queue(q, a) + [Count(|Members(rooms, room)|), Participants(list)]
              else Queue(q, a)
  {
    var q1 := BroadcastCount(rooms, q, room);
    r, list := BroadcastParticipants(rooms, q1, room);
    CountThenList(q, q1, r, Members(rooms, room).Keys, Count(|Members(rooms, room)|), Participants(list));
  }

  /**
   After a successful handshake: a fresh channel, insertion under (room, addr),
   then the count and the participant list to every member, the joiner
   included.
   */
  method Connect(s: Server, room: RoomName, addr: Addr, name: string) returns (r: Server, list: seq<string>)
    ensures r.rooms == Join(s.rooms, room, addr, Participant(name, None))
    ensures |list| == |Members(r.rooms, room)| && multiset(list) == NamesOf(Members(r.rooms, room))
    ensures Queue(r.queues, addr) == [Count(|Members(r.rooms, room)|), Participants(list)]
    ensures forall a :: a != addr && a in Members(s.rooms, room) ==>
              Queue(r.queues, a) == Queue(s.queues, a) + [Count(|Members(r.rooms, room)|), Participants(list)]
    ensures forall a :: a != addr && a !in Members(s.rooms, room) ==> Queue(r.queues, a) == Queue(s.queues, a)
  {
    var rooms := Join(s.rooms, room, addr, Participant(name, None));
    var q;
    q, list := AnnounceRoom(rooms, OpenChannel(s.queues, addr), room);
    r := Server(rooms, q);
  }

  /**
   The end of a connection: removal of this address, then the count and the
   participant list to the members that remain. The departing connection
   receives neither.
   */
  method Disconnect(s: Server, room: RoomName, addr: Addr) returns (r: Server, list: seq<string>)
    ensures r.rooms == Leave(s.rooms, room, addr)
    ensures |list| == |Members(r.rooms, room)| && multiset(list) == NamesOf(Members(r.rooms, room))
    ensures Queue(r.queues, addr) == Queue(s.queues, addr)
    ensures forall a :: a != addr && a in Members(s.rooms, room) ==>
              Queue(r.queues, a) == Queue(s.queues, a) + [Count(|Members(r.rooms, room)|), Participants(list)]
    ensures forall a :: a !in Members(s.rooms, room) ==> Queue(r.queues, a) == Queue(s.queues, a)
  {
    var rooms := Leave(s.rooms, room, addr);
    var q;
    q, list := AnnounceRoom(rooms, s.queues, room);
    r := Server(rooms, q);
  }

  /**
   One connection attempt up to the start of relaying: a rejected handshake,
   or one that fails in the transport, returns before the registry is
   touched; otherwise the admitted participant is connected.
   */
  method Attempt(s: Server, addr: Addr, url: Option<Url>, transportOk: bool) returns (r: Server)
    ensures ProcessHeader(s.rooms, url).Err? || !transportOk ==> r == s
    ensures ProcessHeader(s.rooms, url).Ok? && transportOk ==>
              r.rooms == Join(s.rooms, RequestedRoom(url), addr, Participant(RequestedName(url), None))
  {
    match ProcessHeader(s.rooms, url)
    case Err(_) =>
      r := s;
    case Ok((room, name)) =>
      if !transportOk {
        r := s;
      } else {
        var list;
        r, list := Connect(s, room, addr, name);
      }
  }

  /** The request `/lobby?name=Ann` used by the scenarios below. */
  function AnnInLobby(): Option<Url> {
    Some(Url("/lobby", [("name", "Ann")]))
  }

  lemma AnnInLobbyRequests()
    ensures RequestedRoom(AnnInLobby()) == "lobby" && RequestedName(AnnInLobby()) == "Ann"
  {
  }

  /** Taken one after the other, two requests for room "lobby" under the name
      "Ann": the first is admitted, and once it has joined the second is
      refused with 409 and the exact reason. */
  lemma SecondAnnRefused(a1: Addr)
    ensures ProcessHeader(map[], AnnInLobby()) == Ok(("lobby", "Ann"))
    ensures ProcessHeader(Join(map[], "lobby", a1, Participant("Ann", None)), AnnInLobby())
         == Err(ErrorResponse(409, NameInUse("Ann")))
  {
    AnnInLobbyRequests();
    var one := Join(map[], "lobby", a1, Participant("Ann", None));
    assert a1 in Members(one, "lobby") && Members(one, "lobby")[a1].name == "Ann";
  }

  /**
   The check and the insertion are separate steps: when both requests are
   checked before either joins, both are admitted and the room ends up with
   two members named "Ann". Display names are unique only at admission time.
   */
  lemma AdmissionRace(a1: Addr, a2: Addr)
    requires a1 != a2
    ensures ProcessHeader(map[], AnnInLobby()).Ok?
    ensures var both := Join(Join(map[], "lobby", a1, Participant("Ann", None)), "lobby", a2, Participant("Ann", None));
      && Members(both, "lobby").Keys == {a1, a2}
      && Members(both, "lobby")[a1].name == Members(both, "lobby")[a2].name == "Ann"
  {
  }
}
