/**
 The shared room registry: a map from room name to the room's members, each
 member keyed by the remote socket address of its connection. Every operation
 here is one locked region of the servers, taken as a single atomic step.
 */
module Registry {
  import opened Wrappers

  type RoomName = string

  /** Remote socket address of a connection; the membership key inside a room. */
  datatype Addr = Addr(host: string, port: nat)

  /** Locale hints carried for downstream consumers and never interpreted here. */
  datatype LocaleHints = LocaleHints(translateTo: string, transcribeTo: string)

  /** A member of a room. The outbound channel is not a field: it is the queue
      stored under the member's address (see module Fanout). One server keeps
      locale hints, the other does not. */
  datatype Participant = Participant(name: string, hints: Option<LocaleHints>)

  type Room = map<Addr, Participant>
  type Rooms = map<RoomName, Room>

  /** Sequences without repeated elements. */
  predicate Distinct<T(==)>(s: seq<T>) {
    forall i, j :: 0 <= i < j < |s| ==> s[i] != s[j]
  }

  /** The members of a room; an absent room has none. */
  function Members(rooms: Rooms, room: RoomName): Room {
    if room in rooms then rooms[room] else map[]
  }

  /** The multiset of display names of a room's members, independent of any
      enumeration order of the underlying hash map. */
  ghost function NamesOf(members: Room): multiset<string>
    decreases |members.Keys|
  {
    if members == map[] then multiset{}
    else
      var a :| a in members;
      assert (members - {a}).Keys == members.Keys - {a};
      multiset{members[a].name} + NamesOf(members - {a})
  }

  /** Removing any one member, not only the one NamesOf happens to pick first,
      takes exactly that member's name out of the multiset. */
  lemma {:induction false} NamesOfRemove(members: Room, a: Addr)
    requires a in members
    ensures NamesOf(members) == multiset{members[a].name} + NamesOf(members - {a})
    decreases |members.Keys|
  {
    var b :| b in members && NamesOf(members) == multiset{members[b].name} + NamesOf(members - {b});
    if b != a {
      var rest := members - {a} - {b};
      assert (members - {b}).Keys == members.Keys - {b};
      assert (members - {a}).Keys == members.Keys - {a};
      assert (members - {b}) - {a} == rest;
      assert (members - {a}) - {b} == rest;
      NamesOfRemove(members - {b}, a);
      NamesOfRemove(members - {a}, b);
    }
  }

  /** The name multiset has one entry per member. */
  lemma {:induction false} NamesOfSize(members: Room)
    ensures |NamesOf(members)| == |members|
    decreases |members.Keys|
  {
    if members != map[] {
      var a :| a in members;
      NamesOfRemove(members, a);
      assert (members - {a}).Keys == members.Keys - {a};
      NamesOfSize(members - {a});
    }
  }

  /** The admission-time collision test: some current member of the room
      carries exactly this display name. */
  predicate HasName(rooms: Rooms, room: RoomName, name: string) {
    exists a | a in Members(rooms, room) :: Members(rooms, room)[a].name == name
  }

  /** A collision is exactly membership of the name in the room's name multiset. */
  lemma {:induction false} HasNameIffListed(members: Room, name: string)
    ensures (exists a | a in members :: members[a].name == name) <==> name in NamesOf(members)
    decreases |members.Keys|
  {
    if members != map[] {
      var a :| a in members;
      NamesOfRemove(members, a);
      assert (members - {a}).Keys == members.Keys - {a};
      HasNameIffListed(members - {a}, name);
      if name in NamesOf(members - {a}) {
        var b :| b in members - {a} && (members - {a})[b].name == name;
        assert b in members && members[b].name == name;
      } else if name == members[a].name {
        assert name in NamesOf(members);
      } else {
        assert name !in NamesOf(members);
        forall b | b in members ensures members[b].name != name {
          if b != a { assert b in members - {a}; }
        }
      }
    }
  }

  /** Insert-or-create: the participant is stored under (room, addr), replacing
      whatever that address held in that room; the room is created if absent. */
  function Join(rooms: Rooms, room: RoomName, addr: Addr, p: Participant): (r: Rooms)
    ensures r.Keys == rooms.Keys + {room}
    ensures addr in Members(r, room) && Members(r, room)[addr] == p
    ensures Members(r, room).Keys == Members(rooms, room).Keys + {addr}
    ensures forall b :: b in Members(rooms, room) && b != addr ==>
              b in Members(r, room) && Members(r, room)[b] == Members(rooms, room)[b]
    ensures forall other :: other != room ==> Members(r, other) == Members(rooms, other)
  {
    rooms[room := Members(rooms, room)[addr := p]]
  }

  /** Removal of one address from one room. A missing room or address is a
      no-op, and an emptied room entry is kept. */
  function Leave(rooms: Rooms, room: RoomName, addr: Addr): (r: Rooms)
    ensures r.Keys == rooms.Keys
    ensures addr !in Members(r, room)
    ensures Members(r, room).Keys == Members(rooms, room).Keys - {addr}
    ensures forall b :: b in Members(r, room) ==> Members(r, room)[b] == Members(rooms, room)[b]
    ensures forall other :: other != room ==> Members(r, other) == Members(rooms, other)
  {
    if room in rooms then rooms[room := rooms[room] - {addr}] else rooms
  }

  /** Removing an address that is not there leaves the registry as it was. */
  lemma LeaveAbsentIsNoop(rooms: Rooms, room: RoomName, addr: Addr)
    requires addr !in Members(rooms, room)
    ensures Leave(rooms, room, addr) == rooms
  {
    if room in rooms {
      assert rooms[room] - {addr} == rooms[room];
    }
  }

  /** Removal is idempotent: a second removal of the same address changes nothing. */
  lemma LeaveIdempotent(rooms: Rooms, room: RoomName, addr: Addr)
    ensures Leave(Leave(rooms, room, addr), room, addr) == Leave(rooms, room, addr)
  {
    LeaveAbsentIsNoop(Leave(rooms, room, addr), room, addr);
  }

  /** Leave undoes Join: for an address that was not yet in an existing room,
      joining and then leaving restores the registry exactly. */
  lemma JoinThenLeave(rooms: Rooms, room: RoomName, addr: Addr, p: Participant)
    requires room in rooms && addr !in rooms[room]
    ensures Leave(Join(rooms, room, addr, p), room, addr) == rooms
  {
    assert rooms[room][addr := p] - {addr} == rooms[room];
  }

  /** The name collision test succeeds right after a join under that name. */
  lemma JoinMakesNameTaken(rooms: Rooms, room: RoomName, addr: Addr, p: Participant)
    ensures HasName(Join(rooms, room, addr, p), room, p.name)
  {
  }

  /** Sequential joins, the i-th address joining as the i-th participant. */
  function JoinAll(rooms: Rooms, room: RoomName, addrs: seq<Addr>, people: seq<Participant>): Rooms
    requires |addrs| == |people|
    decreases |addrs|
  {
    if addrs == [] then rooms
    else JoinAll(Join(rooms, room, addrs[0], people[0]), room, addrs[1..], people[1..])
  }

  /** Sequential removals of the given addresses from one room. */
  function LeaveAll(rooms: Rooms, room: RoomName, addrs: seq<Addr>): Rooms
    decreases |addrs|
  {
    if addrs == [] then rooms
    else LeaveAll(Leave(rooms, room, addrs[0]), room, addrs[1..])
  }

  lemma {:induction false} JoinAllMembers(rooms: Rooms, room: RoomName, addrs: seq<Addr>, people: seq<Participant>)
    requires |addrs| == |people|
    ensures Members(JoinAll(rooms, room, addrs, people), room).Keys
         == Members(rooms, room).Keys + (set a | a in addrs)
    decreases |addrs|
  {
    if addrs != [] {
      JoinAllMembers(Join(rooms, room, addrs[0], people[0]), room, addrs[1..], people[1..]);
      assert (set a | a in addrs) == {addrs[0]} + (set a | a in addrs[1..]);
    }
  }

  lemma {:induction false} LeaveAllMembers(rooms: Rooms, room: RoomName, addrs: seq<Addr>)
    ensures Members(LeaveAll(rooms, room, addrs), room).Keys
         == Members(rooms, room).Keys - (set a | a in addrs)
    decreases |addrs|
  {
    if addrs != [] {
      LeaveAllMembers(Leave(rooms, room, addrs[0]), room, addrs[1..]);
      assert (set a | a in addrs) == {addrs[0]} + (set a | a in addrs[1..]);
    }
  }

  /** Join/leave symmetry: starting from an empty or absent room, N sequential
      joins followed by leaves of the same N addresses empty the room again, so
      the member count (the count broadcast after the last leave) is 0. */
  lemma JoinsThenLeavesEmptyRoom(rooms: Rooms, room: RoomName, addrs: seq<Addr>, people: seq<Participant>)
    requires Members(rooms, room) == map[]
    requires |addrs| == |people|
    ensures Members(LeaveAll(JoinAll(rooms, room, addrs, people), room, addrs), room) == map[]
  {
    JoinAllMembers(rooms, room, addrs, people);
    LeaveAllMembers(JoinAll(rooms, room, addrs, people), room, addrs);
    var m := Members(LeaveAll(JoinAll(rooms, room, addrs, people), room, addrs), room);
    assert m.Keys == {};
  }

  /** An enumeration of a room's addresses with the matching names. */
  ghost predicate Enumerates(members: Room, senders: seq<Addr>, names: seq<string>) {
    && Distinct(senders) && |names| == |senders|
    && (forall a :: a in senders <==> a in members)
    && (forall i :: 0 <= i < |senders| ==> names[i] == members[senders[i]].name)
  }

  /** Without its last entry, an enumeration enumerates the room minus the
      last entry's member. */
  lemma EnumeratesInit(members: Room, senders: seq<Addr>, names: seq<string>)
    requires Enumerates(members, senders, names) && |senders| > 0
    ensures var n := |senders| - 1;
      Enumerates(members - {senders[n]}, senders[..n], names[..n])
  {
  }

  /** Any duplicate-free enumeration of a room's addresses, with each member's
      name read off in the same order, lists every member once and yields
      exactly the room's name multiset: the result does not depend on the order. */
  lemma {:induction false} EnumerationNames(members: Room, senders: seq<Addr>, names: seq<string>)
    requires Enumerates(members, senders, names)
    ensures multiset(names) == NamesOf(members)
    decreases |senders|
  {
    if senders == [] {
      assert members.Keys == {};
    } else {
      var n := |senders| - 1;
      var last := senders[n];
      assert last in members;
      EnumeratesInit(members, senders, names);
      EnumerationNames(members - {last}, senders[..n], names[..n]);
      assert (members - {last}).Keys == members.Keys - {last};
      NamesOfRemove(members, last);
      assert names == names[..n] + [names[n]];
    }
  }

  /**
   A consistent snapshot of one room taken under the lock: the members'
   addresses (their outbound handles) and the members' names, both in the same
   hash-map order. That order is unspecified, so it is chosen arbitrarily here.
   */
  method SnapshotRoom(rooms: Rooms, room: RoomName) returns (senders: seq<Addr>, names: seq<string>)
    ensures Distinct(senders) && |names| == |senders| == |Members(rooms, room)|
    ensures forall a :: a in senders <==> a in Members(rooms, room)
    ensures forall i :: 0 <= i < |senders| ==> names[i] == Members(rooms, room)[senders[i]].name
    ensures multiset(names) == NamesOf(Members(rooms, room))
  {
    var members := Members(rooms, room);
    var keys := members.Keys;
    senders, names := [], [];
    while keys != {}
      invariant keys <= members.Keys
      invariant Distinct(senders) && |names| == |senders|
      invariant forall a :: a in senders <==> a in members && a !in keys
      invariant forall i :: 0 <= i < |senders| ==> names[i] == members[senders[i]].name
      decreases keys
    {
      var a :| a in keys;
      senders := senders + [a];
      names := names + [members[a].name];
      keys := keys - {a};
    }
    EnumerationNames(members, senders, names);
    NamesOfSize(members);
  }

  /** The same snapshot of addresses with one address left out: the handles of
      everybody in the room except the given connection. */
  method SnapshotOthers(rooms: Rooms, room: RoomName, self: Addr) returns (senders: seq<Addr>)
    ensures Distinct(senders)
    ensures forall a :: a in senders <==> a in Members(rooms, room) && a != self
  {
    var all, _ := SnapshotRoom(rooms, room);
    senders := [];
    var i := 0;
    while i < |all|
      invariant 0 <= i <= |all|
      invariant Distinct(senders)
      invariant forall a :: a in senders <==> a in all[..i] && a != self
    {
      if all[i] != self {
        assert all[i] !in all[..i];
        senders := senders + [all[i]];
      }
      assert all[..i + 1] == all[..i] + [all[i]];
      i := i + 1;
    }
    assert all[..i] == all;
  }
}
