/**
 The per-room versioned state store of `server/rooms.py`: a room keeps a
 version counter, an insertion-ordered player table and the free-form
 `frontend_state` object; every mutation bumps the counter by one, stamps
 it into the state together with the player list, and wakes the long-poll
 waiters. The registry maps room ids to rooms and backs the three handlers.
 */
module Rooms {
  import opened Frontend
  import opened LongPoll

  /** Raised by `add_player` for a username that is already in the room. */
  datatype KeyError = KeyError

  /** The observable state of one room: counter, player table (keys in insertion order), state object. */
  datatype RoomState = RoomState(counter: int, players: seq<string>, frontend: FrontendState)

  predicate NoDuplicates(names: seq<string>)
  {
    forall i, j :: 0 <= i < j < |names| ==> names[i] != names[j]
  }

  /** `[key for key in self.players.keys()]` as a JSON list. */
  function PlayerList(players: seq<string>): Json
  {
    JArray(seq(|players|, i requires 0 <= i < |players| => JStr(players[i])))
  }

  /**
   The stamped list determines the table: two tables with the same
   `players` value are the same usernames in the same order.
   */
  lemma PlayerListDeterminesTable(a: seq<string>, b: seq<string>)
    ensures PlayerList(a) == PlayerList(b) <==> a == b
  {
    if PlayerList(a) == PlayerList(b) {
      assert |a| == |PlayerList(a).items| == |PlayerList(b).items| == |b|;
      forall i | 0 <= i < |a| ensures a[i] == b[i] {
        assert PlayerList(a).items[i] == JStr(a[i]);
        assert PlayerList(b).items[i] == JStr(b[i]);
      }
    }
  }

  /** The keys the room itself writes into every published state. */
  const STAMPED: set<string> := {VERSION_KEY, PLAYERS_KEY}

  /**
   What holds of a room between operations: the counter is at least 1 and
   stamped into the state, usernames are unique, every player's arrival
   bumped the counter, and once anything was published the state lists
   exactly the room's players in order.
   */
  ghost predicate Consistent(s: RoomState)
  {
    && s.counter >= 1
    && VERSION_KEY in s.frontend && s.frontend[VERSION_KEY] == JInt(s.counter)
    && NoDuplicates(s.players)
    && |s.players| < s.counter
    && (s.counter > 1 ==> PLAYERS_KEY in s.frontend && s.frontend[PLAYERS_KEY] == PlayerList(s.players))
  }

  /** A new room: counter 1, `version` 1 in the state, no players. */
  function Initial(): (r: RoomState)
    ensures r.counter == 1 && r.players == []
    ensures VERSION_KEY in r.frontend && r.frontend[VERSION_KEY] == JInt(1)
    ensures Consistent(r)
  {
    RoomState(1, [], InitialFrontendState())
  }

  /**
   `update_frontend_state(state)`: a truthy state replaces the stored one,
   otherwise the stored one is kept; either way the counter goes up by one
   and `version` and `players` are overwritten from the room itself.
   */
  function Published(s: RoomState, state: Option<FrontendState>): (r: RoomState)
    ensures r.counter == s.counter + 1 && r.players == s.players
    ensures VERSION_KEY in r.frontend && r.frontend[VERSION_KEY] == JInt(r.counter)
    ensures PLAYERS_KEY in r.frontend && r.frontend[PLAYERS_KEY] == PlayerList(s.players)
    ensures Truthy(state) ==> r.frontend - STAMPED == state.value - STAMPED
    ensures !Truthy(state) ==> r.frontend - STAMPED == s.frontend - STAMPED
  {
    var base := if Truthy(state) then state.value else s.frontend;
    var counter := s.counter + 1;
    var stamped := base[VERSION_KEY := JInt(counter)][PLAYERS_KEY := PlayerList(s.players)];
    assert stamped - STAMPED == base - STAMPED;
    RoomState(counter, s.players, stamped)
  }

  /**
   `add_player(username)`: a username already in the table raises KeyError;
   otherwise it is appended to the table and a new version is published
   with the previous state object kept.
   */
  function WithPlayer(s: RoomState, username: string): (r: Result<RoomState, KeyError>)
    ensures r.Err? <==> username in s.players
    ensures r.Ok? ==> r.value.players == s.players + [username] && r.value.counter == s.counter + 1
    ensures r.Ok? ==> PLAYERS_KEY in r.value.frontend && r.value.frontend[PLAYERS_KEY] == PlayerList(s.players + [username])
    ensures r.Ok? ==> r.value.frontend - STAMPED == s.frontend - STAMPED
  {
    if username in s.players then Err(KeyError)
    else Ok(Published(s.(players := s.players + [username]), None))
  }

  lemma PublishedKeepsConsistent(s: RoomState, state: Option<FrontendState>)
    ensures Consistent(s) ==> Consistent(Published(s, state))
  {
  }

  lemma WithPlayerKeepsConsistent(s: RoomState, username: string)
    requires Consistent(s)
    ensures WithPlayer(s, username).Ok? ==> Consistent(WithPlayer(s, username).value)
  {
  }

  /**
   Whatever `players` (and `version`) the caller pushes is overwritten: two
   truthy payloads that agree on every other key publish the same room.
   */
  lemma {:induction false} SuppliedStampsIgnored(s: RoomState, a: FrontendState, b: FrontendState)
    requires |a| > 0 && |b| > 0
    requires a - STAMPED == b - STAMPED
    ensures Published(s, Some(a)) == Published(s, Some(b))
  {
    var ra := Published(s, Some(a)).frontend;
    var rb := Published(s, Some(b)).frontend;
    assert ra.Keys == rb.Keys by {
      forall k ensures k in ra <==> k in rb {
        if k !in STAMPED {
          assert k in ra <==> k in ra - STAMPED;
          assert k in rb <==> k in rb - STAMPED;
        }
      }
    }
    forall k | k in ra ensures ra[k] == rb[k] {
      if k !in STAMPED {
        assert ra[k] == (ra - STAMPED)[k];
        assert rb[k] == (rb - STAMPED)[k];
      }
    }
  }

  /** The operations a room accepts from its handlers. */
  datatype Op = Join(username: string) | Push(state: Option<FrontendState>)

  predicate Accepts(s: RoomState, op: Op)
  {
    op.Join? ==> op.username !in s.players
  }

  /** One operation as the handlers apply it: a rejected join (HTTP 400) changes nothing. */
  function Step(s: RoomState, op: Op): (r: RoomState)
    ensures Accepts(s, op) ==> r.counter == s.counter + 1
    ensures !Accepts(s, op) ==> r == s
  {
    match op
    case Join(username) =>
      (match WithPlayer(s, username)
       case Ok(t) => t
       case Err(_) => s)
    case Push(state) => Published(s, state)
  }

  function Run(s: RoomState, ops: seq<Op>): RoomState
    decreases |ops|
  {
    if ops == [] then s else Run(Step(s, ops[0]), ops[1..])
  }

  /**
   Over any sequence of operations the counter never decreases and grows by
   at most one per operation, players are never removed or reordered, and
   the room stays consistent.
   */
  lemma {:induction false} RunMonotone(s: RoomState, ops: seq<Op>)
    requires Consistent(s)
    ensures s.counter <= Run(s, ops).counter <= s.counter + |ops|
    ensures s.players <= Run(s, ops).players
    ensures Consistent(Run(s, ops))
    decreases |ops|
  {
    if ops != [] {
      var t := Step(s, ops[0]);
      match ops[0] {
        case Join(username) => WithPlayerKeepsConsistent(s, username);
        case Push(state) => PublishedKeepsConsistent(s, state);
      }
      RunMonotone(t, ops[1..]);
    }
  }

  /**
   A waiter once released stays released: no sequence of joins and pushes
   takes the counter back to a version the client already had.
   */
  lemma {:induction false} ReleasedStaysReleased(s: RoomState, ops: seq<Op>, lastSeen: int)
    requires Consistent(s) && !MustWait(s.counter, lastSeen)
    ensures !MustWait(Run(s, ops).counter, lastSeen)
  {
    RunMonotone(s, ops);
  }

  /**
   A waiter that is blocked before an operation is released by it exactly
   when the operation is accepted and the waiter had seen the latest
   version: no spurious wake on a rejected join, no missed wake on a bump.
   */
  lemma StepReleases(s: RoomState, op: Op, lastSeen: int)
    requires MustWait(s.counter, lastSeen)
    ensures !MustWait(Step(s, op).counter, lastSeen) <==> Accepts(s, op) && lastSeen == s.counter
  {
  }

  class Room {
    const roomId: string
    var stateVersionCounter: int
    var players: seq<string>
    var frontendState: FrontendState

    ghost function Abstract(): RoomState
      reads this
    {
      RoomState(stateVersionCounter, players, frontendState)
    }

    ghost predicate Valid()
      reads this
    {
      Consistent(Abstract())
    }

    constructor (roomId: string)
      ensures Valid() && this.roomId == roomId
      ensures Abstract() == Initial()
    {
      this.roomId := roomId;
      frontendState := InitialFrontendState();
      stateVersionCounter := 1;
      players := [];
    }

    method AddPlayer(username: string) returns (r: Result<(), KeyError>)
      requires Valid()
      modifies this
      ensures Valid()
      ensures r.Err? <==> username in old(players)
      ensures r.Err? ==> Abstract() == old(Abstract())
      ensures r.Ok? ==> Abstract() == WithPlayer(old(Abstract()), username).value
    {
      ghost var before := Abstract();
      if username in players {
        return Err(KeyError);
      }
      players := players + [username];
      UpdateFrontendState(None);
      WithPlayerKeepsConsistent(before, username);
      r := Ok(());
    }

    method UpdateFrontendState(state: Option<FrontendState>)
      modifies this
      ensures Abstract() == Published(old(Abstract()), state)
      ensures old(Valid()) ==> Valid()
    {
      PublishedKeepsConsistent(Abstract(), state);
      if Truthy(state) {
        frontendState := state.value;
      }
      stateVersionCounter := stateVersionCounter + 1;
      frontendState := frontendState[VERSION_KEY := JInt(stateVersionCounter)];
      frontendState := frontendState[PLAYERS_KEY := PlayerList(players)];
    }

    function GetLastUpdateId(): (r: int)
      reads this
      requires Valid()
      ensures r >= 1 && VERSION_KEY in frontendState && frontendState[VERSION_KEY] == JInt(r)
      ensures |players| < r
    {
      stateVersionCounter
    }

    function GetFrontendState(): (r: FrontendState)
      reads this
      requires Valid()
      ensures VERSION_KEY in r && r[VERSION_KEY] == JInt(stateVersionCounter)
      ensures stateVersionCounter > 1 ==> PLAYERS_KEY in r && r[PLAYERS_KEY] == PlayerList(players)
    {
      frontendState
    }
  }

  /** The module-level `rooms_db` dictionary and the handlers that use it. */
  class Registry {
    var rooms: map<string, Room>

    ghost predicate Valid()
      reads this, rooms.Values
    {
      && (forall id :: id in rooms ==> rooms[id].roomId == id && rooms[id].Valid())
      && (forall a, b :: a in rooms && b in rooms && a != b ==> rooms[a] != rooms[b])
    }

    constructor ()
      ensures Valid() && rooms == map[]
    {
      rooms := map[];
    }

    /** The first step of `RoomHandler.get`: look the room up, creating it if unknown. */
    method GetOrCreate(roomId: string) returns (room: Room)
      requires Valid()
      modifies this
      ensures Valid()
      ensures roomId in rooms && room == rooms[roomId]
      ensures rooms.Keys == old(rooms.Keys) + {roomId}
      ensures forall id :: id in old(rooms) ==> rooms[id] == old(rooms[id]) && rooms[id].Abstract() == old(rooms[id].Abstract())
      ensures roomId in old(rooms) ==> rooms == old(rooms)
      ensures roomId !in old(rooms) ==> fresh(room) && rooms == old(rooms)[roomId := room] && room.Abstract() == Initial()
    {
      if roomId !in rooms {
        var created := new Room(roomId);
        rooms := rooms[roomId := created];
      }
      room := rooms[roomId];
    }

    /** `RoomHandler.get`: get or create the room, then add the player; a taken name is HTTP 400. */
    method Join(roomId: string, username: string) returns (r: Result<(), HttpError>)
      requires Valid()
      modifies this, rooms.Values
      ensures Valid()
      ensures rooms.Keys == old(rooms.Keys) + {roomId}
      ensures forall id :: id in old(rooms) ==> rooms[id] == old(rooms[id])
      ensures forall id :: id in old(rooms) && id != roomId ==> rooms[id].Abstract() == old(rooms[id].Abstract())
      ensures var before := if roomId in old(rooms) then old(rooms[roomId].Abstract()) else Initial();
              && (r.Err? <==> username in before.players)
              && rooms[roomId].Abstract() == (if r.Err? then before else WithPlayer(before, username).value)
    {
      ghost var before := if roomId in rooms then rooms[roomId].Abstract() else Initial();
      var room := GetOrCreate(roomId);
      assert rooms[roomId].Abstract() == before;
      r := AddToExisting(roomId, username);
    }

    /** The second step of `RoomHandler.get`: add the player to a room that exists; a taken name is HTTP 400. */
    method AddToExisting(roomId: string, username: string) returns (r: Result<(), HttpError>)
      requires Valid() && roomId in rooms
      modifies rooms.Values
      ensures Valid()
      ensures r.Err? <==> username in old(rooms[roomId].players)
      ensures forall id :: id in rooms && id != roomId ==> rooms[id].Abstract() == old(rooms[id].Abstract())
      ensures rooms[roomId].Abstract() ==
              if r.Err? then old(rooms[roomId].Abstract()) else WithPlayer(old(rooms[roomId].Abstract()), username).value
    {
      var added := rooms[roomId].AddPlayer(username);
      if added.Err? {
        return Err(BadRequest);
      }
      r := Ok(());
    }

    /** `UpdateRoomStateHandler.post`: an unknown room is HTTP 400 and nothing changes. */
    method UpdateState(roomId: string, newState: Option<FrontendState>) returns (r: Result<(), HttpError>)
      requires Valid()
      modifies rooms.Values
      ensures Valid()
      ensures r.Err? <==> roomId !in rooms
      ensures forall id :: id in rooms && id != roomId ==> rooms[id].Abstract() == old(rooms[id].Abstract())
      ensures roomId in rooms ==> rooms[roomId].Abstract() == Published(old(rooms[roomId].Abstract()), newState)
    {
      if roomId !in rooms {
        return Err(BadRequest);
      }
      rooms[roomId].UpdateFrontendState(newState);
      r := Ok(());
    }

    /**
     `RoomStateNotificationHandler.post` on arrival: an unknown room is HTTP
     400; a client that already has the current version waits; otherwise the
     current state goes back at once.
     */
    function Poll(roomId: string, lastSeen: int): (r: PollResult)
      reads this, rooms.Values
      requires Valid()
      ensures r == UnknownRoom <==> roomId !in rooms
      ensures r == Waiting <==> roomId in rooms && MustWait(rooms[roomId].stateVersionCounter, lastSeen)
      ensures r.Ready? ==> roomId in rooms && r.state == rooms[roomId].frontendState
      ensures r.Ready? ==> VERSION_KEY in r.state && r.state[VERSION_KEY] == JInt(rooms[roomId].stateVersionCounter)
      ensures r.Ready? && rooms[roomId].stateVersionCounter > 1 ==>
                PLAYERS_KEY in r.state && r.state[PLAYERS_KEY] == PlayerList(rooms[roomId].players)
    {
      if roomId !in rooms then UnknownRoom
      else if MustWait(rooms[roomId].GetLastUpdateId(), lastSeen) then Waiting
      else Ready(rooms[roomId].GetFrontendState())
    }
  }
}
