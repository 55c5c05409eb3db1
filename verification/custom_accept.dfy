/**
 The server that answers the upgrade request itself (room-server-custom-accept):
 its request gate and admission decision, and the registry steps of one
 connection: insertion with join notices, relay of client messages, and close
 notices followed by removal. Every send goes to the same text for all
 recipients, so each fan-out is a Broadcast (Fanout.Deliver shows that the
 source's send loop over any snapshot order amounts to it).
 */
module CustomAccept {
  import opened Wrappers
  import opened Registry
  import opened Fanout
  import opened Admission

  const DefaultName := "participant-name"
  const DefaultTranslateTo := "en"
  const DefaultTranscribeTo := "jp"

  /** Plain answer to anything that is not a WebSocket upgrade request. */
  const WrongPlace := "Hi, you are in the wrong place."
  const OkStatus: nat := 200

  /** What admission hands to the connection: a participant without a channel. */
  datatype PartialParticipant = PartialParticipant(name: string, transcribeTo: string, translateTo: string)

  datatype HttpMethod = Get | OtherMethod(token: string)

  /** The parts of an incoming HTTP request the handler reads. `urlPath` is the
      path of the parsed request URL (None when it fails to parse); `query` is
      the decoded query string, None when the request has none. */
  datatype Request = Request(
    verb: HttpMethod,
    wsVersion: Option<string>,
    wsKey: Option<string>,
    urlPath: Option<string>,
    query: Option<seq<QueryPair>>)

  /** The handler's answer: a plain response, or 101 Switching Protocols with
      the admitted room and participant, or an abort when the accept key cannot
      be derived because the request carries no Sec-WebSocket-Key. */
  datatype Reply =
    | Plain(status: nat, body: string)
    | Upgrade(room: RoomName, who: PartialParticipant)
    | Aborted

  /** A proper handshake request: GET with Sec-WebSocket-Version exactly "13". */
  predicate GatePasses(req: Request) {
    req.verb == Get && req.wsVersion == Some("13")
  }

  /** A query field: its default when the query is absent or lacks the key,
      otherwise the value of the key's last occurrence. */
  ghost predicate FieldIs(query: Option<seq<QueryPair>>, key: string, default: string, v: string) {
    if query.None? || forall i :: 0 <= i < |query.value| ==> query.value[i].0 != key
    then v == default
    else LastValueIs(query.value, key, v)
  }

  /** Display name and locale hints from the query, each defaulting on its own. */
  function ParseParticipant(query: Option<seq<QueryPair>>): (who: PartialParticipant)
    ensures FieldIs(query, "name", DefaultName, who.name)
    ensures FieldIs(query, "translate_to", DefaultTranslateTo, who.translateTo)
    ensures FieldIs(query, "transcribe_to", DefaultTranscribeTo, who.transcribeTo)
  {
    match query
    case None => PartialParticipant(DefaultName, DefaultTranscribeTo, DefaultTranslateTo)
    case Some(pairs) =>
      var params := CollectPairs(pairs);
      CollectPairsLookup(pairs, "name");
      CollectPairsLookup(pairs, "translate_to");
      CollectPairsLookup(pairs, "transcribe_to");
      PartialParticipant(
        if "name" in params then params["name"] else DefaultName,
        if "transcribe_to" in params then params["transcribe_to"] else DefaultTranscribeTo,
        if "translate_to" in params then params["translate_to"] else DefaultTranslateTo)
  }

  /**
   The request handler's decision. It reads the registry once, for the name
   check, and never changes it.
   */
  function HandleRequest(rooms: Rooms, req: Request): (reply: Reply)
    ensures !GatePasses(req) <==> reply == Plain(OkStatus, WrongPlace)
    ensures GatePasses(req) ==>
              var room := RoomIdFromPath(req.urlPath);
              var who := ParseParticipant(req.query);
              && (reply.Plain? <==> exists a | a in Members(rooms, room) :: Members(rooms, room)[a].name == who.name)
              && (reply.Plain? ==> reply == Plain(ConflictStatus, NameInUse(who.name)))
              && (reply.Aborted? <==> !reply.Plain? && req.wsKey.None?)
              && (reply.Upgrade? ==> reply.room == room && reply.who == who)
  {
    if !GatePasses(req) then Plain(OkStatus, WrongPlace)
    else
      var room := RoomIdFromPath(req.urlPath);
      var who := ParseParticipant(req.query);
      if HasName(rooms, room, who.name) then Plain(ConflictStatus, NameInUse(who.name))
      else if req.wsKey.None? then Aborted
      else Upgrade(room, who)
  }

  /** A room that does not exist, or has no members, never rejects a name. */
  lemma EmptyRoomAdmits(rooms: Rooms, req: Request)
    requires GatePasses(req) && req.wsKey.Some?
    requires Members(rooms, RoomIdFromPath(req.urlPath)) == map[]
    ensures HandleRequest(rooms, req) == Upgrade(RoomIdFromPath(req.urlPath), ParseParticipant(req.query))
  {
  }

  function JoinedSelf(room: RoomName): string { "You joined the room '" + room + "'" }
  function JoinedOther(name: string): string { name + " joined the room" }
  function LeftSelf(room: RoomName): string { "You left the room '" + room + "'" }
  function LeftOther(name: string): string { name + " left the room" }

  /** The registry entry made for an admitted participant. */
  function Member(who: PartialParticipant): Participant {
    Participant(who.name, Some(LocaleHints(who.translateTo, who.transcribeTo)))
  }

  /**
   A connection after a successful upgrade: a fresh channel, the participant
   inserted under (room, addr), then the welcome to the joiner and the joined
   notice to every other member of the room.
   */
  function Connect(s: Server, room: RoomName, addr: Addr, who: PartialParticipant): (r: Server)
    ensures r.rooms == Join(s.rooms, room, addr, Member(who))
    ensures Queue(r.queues, addr) == [HandshakeStatus(Connected, JoinedSelf(room))]
    ensures forall a :: a != addr && a in Members(s.rooms, room) ==>
              Queue(r.queues, a) == Queue(s.queues, a) + [HandshakeStatus(Connected, JoinedOther(who.name))]
    ensures forall a :: a != addr && a !in Members(s.rooms, room) ==> Queue(r.queues, a) == Queue(s.queues, a)
  {
    var rooms := Join(s.rooms, room, addr, Member(who));
    var welcomed := s.queues[addr := [HandshakeStatus(Connected, JoinedSelf(room))]];
    var others := Members(rooms, room).Keys - {addr};
    Server(rooms, Broadcast(welcomed, others, HandshakeStatus(Connected, JoinedOther(who.name))))
  }

  /**
   A request followed by the connection it may open. Only an upgrade that the
   handler granted and that then completes reaches the registry; a refused,
   aborted or failed upgrade leaves the server as it was.
   */
  function Accept(s: Server, req: Request, addr: Addr, upgradeOk: bool): (r: Server)
    ensures !HandleRequest(s.rooms, req).Upgrade? || !upgradeOk ==> r == s
    ensures HandleRequest(s.rooms, req).Upgrade? && upgradeOk ==>
              r.rooms == Join(s.rooms, RoomIdFromPath(req.urlPath), addr, Member(ParseParticipant(req.query)))
  {
    match HandleRequest(s.rooms, req)
    case Upgrade(room, who) => if upgradeOk then Connect(s, room, addr, who) else s
    case _ => s
  }

  /** One message read from the connection, fanned out to the rest of its room. */
  function Relay(s: Server, room: RoomName, addr: Addr, frame: Frame): (r: Server)
    ensures r.rooms == s.rooms
    ensures Queue(r.queues, addr) == Queue(s.queues, addr)
    ensures forall a :: a != addr && a in Members(s.rooms, room) ==>
              Queue(r.queues, a) == Queue(s.queues, a) + [Relayed(frame)]
    ensures forall a :: a !in Members(s.rooms, room) ==> Queue(r.queues, a) == Queue(s.queues, a)
  {
    Server(s.rooms, Broadcast(s.queues, Members(s.rooms, room).Keys - {addr}, Relayed(frame)))
  }

  /**
   The end of a connection: the farewell to the owner, the left notice to
   every other member of the room as it is before removal, then removal of
   this address only.
   */
  function Disconnect(s: Server, room: RoomName, addr: Addr, who: PartialParticipant): (r: Server)
    ensures r.rooms == Leave(s.rooms, room, addr)
    ensures Queue(r.queues, addr) == Queue(s.queues, addr) + [HandshakeStatus(Close, LeftSelf(room))]
    ensures forall a :: a != addr && a in Members(s.rooms, room) ==>
              Queue(r.queues, a) == Queue(s.queues, a) + [HandshakeStatus(Close, LeftOther(who.name))]
    ensures forall a :: a != addr && a !in Members(s.rooms, room) ==> Queue(r.queues, a) == Queue(s.queues, a)
  {
    var farewell := Push(s.queues, addr, HandshakeStatus(Close, LeftSelf(room)));
    var others := Members(s.rooms, room).Keys - {addr};
    var q := Broadcast(farewell, others, HandshakeStatus(Close, LeftOther(who.name)));
    Server(Leave(s.rooms, room, addr), q)
  }

  /**
   A connection that joins an existing room it was not in and then closes
   leaves the registry as it found it; the joiner saw its welcome then its
   farewell, and every member present throughout saw the joined notice then
   the left notice, nothing else.
   */
  lemma ConnectThenDisconnect(s: Server, room: RoomName, addr: Addr, who: PartialParticipant)
    requires room in s.rooms && addr !in s.rooms[room]
    ensures Disconnect(Connect(s, room, addr, who), room, addr, who).rooms == s.rooms
    ensures Queue(Disconnect(Connect(s, room, addr, who), room, addr, who).queues, addr)
         == [HandshakeStatus(Connected, JoinedSelf(room)), HandshakeStatus(Close, LeftSelf(room))]
    ensures forall a :: a in s.rooms[room] ==>
              (Queue(Disconnect(Connect(s, room, addr, who), room, addr, who).queues, a)
               == Queue(s.queues, a) + [HandshakeStatus(Connected, JoinedOther(who.name)),
                                        HandshakeStatus(Close, LeftOther(who.name))])
  {
    JoinThenLeave(s.rooms, room, addr, Member(who));
    var c := Connect(s, room, addr, who);
    var r := Disconnect(c, room, addr, who);
    assert forall a :: a in s.rooms[room] ==> a != addr && a in Members(c.rooms, room);
    NoticePair(s.queues, c.queues, r.queues, s.rooms[room].Keys,
               HandshakeStatus(Connected, JoinedOther(who.name)), HandshakeStatus(Close, LeftOther(who.name)));
  }

  /** Two notices appended one after the other to the same queues. */
  lemma NoticePair(q0: Queues, q1: Queues, q2: Queues, members: set<Addr>, m1: Msg, m2: Msg)
    requires forall a :: a in members ==> Queue(q1, a) == Queue(q0, a) + [m1]
    requires forall a :: a in members ==> Queue(q2, a) == Queue(q1, a) + [m2]
    ensures forall a :: a in members ==> Queue(q2, a) == Queue(q0, a) + [m1, m2]
  {
  }
}
