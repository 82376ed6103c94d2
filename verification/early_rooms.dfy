/**
 The earlier room store of `server/main.py`: a room holds only a version
 counter and the `frontend_state` object, every update replaces the whole
 object and stamps the bumped counter into it, and there are no players.
 */
module EarlyRooms {
  import opened Frontend
  import opened LongPoll

  /** The observable state of one room. */
  datatype RoomState = RoomState(counter: int, frontend: FrontendState)

  /** Between operations the counter is at least 1 and stamped into the state. */
  ghost predicate Consistent(s: RoomState)
  {
    s.counter >= 1 && VERSION_KEY in s.frontend && s.frontend[VERSION_KEY] == JInt(s.counter)
  }

  /** A new room: counter 1 and `version` 1 in the state. */
  function Initial(): (r: RoomState)
    ensures r.counter == 1 && Consistent(r)
  {
    RoomState(1, InitialFrontendState())
  }

  /**
   `update_frontend_state(state)`: the supplied object replaces the stored one
   whatever it holds (an empty one included), the counter goes up by one and
   `version` is overwritten with it.
   */
  function Replaced(s: RoomState, state: FrontendState): (r: RoomState)
    ensures r.counter == s.counter + 1
    ensures r.frontend.Keys == state.Keys + {VERSION_KEY}
    ensures r.frontend[VERSION_KEY] == JInt(r.counter)
    ensures forall k :: k in state && k != VERSION_KEY ==> r.frontend[k] == state[k]
    ensures Consistent(s) ==> Consistent(r)
  {
    RoomState(s.counter + 1, state[VERSION_KEY := JInt(s.counter + 1)])
  }

  /** A sequence of updates, one after another. */
  function Run(s: RoomState, states: seq<FrontendState>): RoomState
    decreases |states|
  {
    if states == [] then s else Run(Replaced(s, states[0]), states[1..])
  }

  /**
   After n updates the counter has gone up by exactly n, and the state is
   the last supplied one with that counter stamped in: nothing from earlier
   updates survives a later one.
   */
  lemma {:induction false} RunCounts(s: RoomState, states: seq<FrontendState>)
    ensures Run(s, states).counter == s.counter + |states|
    ensures states != [] ==>
      Run(s, states).frontend == states[|states| - 1][VERSION_KEY := JInt(s.counter + |states|)]
    decreases |states|
  {
    if states != [] {
      RunCounts(Replaced(s, states[0]), states[1..]);
      if |states| > 1 {
        assert states[1..][|states| - 2] == states[|states| - 1];
      }
    }
  }

  /**
   A waiter once released stays released, and any waiter is released after
   enough updates: n updates move the counter exactly n versions on.
   */
  lemma {:induction false} RunReleases(s: RoomState, states: seq<FrontendState>, lastSeen: int)
    ensures !MustWait(s.counter, lastSeen) ==> !MustWait(Run(s, states).counter, lastSeen)
    ensures |states| > lastSeen - s.counter ==> !MustWait(Run(s, states).counter, lastSeen)
  {
    RunCounts(s, states);
  }

  /**
   A waiter blocked before an update is released by it exactly when it had
   seen the latest version: every update wakes the clients that were current.
   */
  lemma ReplacedReleases(s: RoomState, state: FrontendState, lastSeen: int)
    requires MustWait(s.counter, lastSeen)
    ensures !MustWait(Replaced(s, state).counter, lastSeen) <==> lastSeen == s.counter
  {
  }

  class Room {
    const roomId: string
    var stateVersionCounter: int
    var frontendState: FrontendState

    ghost function Abstract(): RoomState
      reads this
    {
      RoomState(stateVersionCounter, frontendState)
    }

    ghost predicate Valid()
      reads this
    {
      Consistent(Abstract())
    }

    constructor (roomId: string)
      ensures Valid() && this.roomId == roomId
      ensures Abstract() == Initial()
    {
      this.roomId := roomId;
      frontendState := InitialFrontendState();
      stateVersionCounter := 1;
    }

    method UpdateFrontendState(state: FrontendState)
      modifies this
      ensures Abstract() == Replaced(old(Abstract()), state)
      ensures old(Valid()) ==> Valid()
    {
      frontendState := state;
      stateVersionCounter := stateVersionCounter + 1;
      frontendState := frontendState[VERSION_KEY := JInt(stateVersionCounter)];
    }

    function GetLastUpdateId(): (r: int)
      reads this
      requires Valid()
      ensures r >= 1 && VERSION_KEY in frontendState && frontendState[VERSION_KEY] == JInt(r)
    {
      stateVersionCounter
    }

    function GetFrontendState(): (r: FrontendState)
      reads this
      requires Valid()
      ensures VERSION_KEY in r && r[VERSION_KEY] == JInt(stateVersionCounter)
    {
      frontendState
    }
  }

  /** The module-level `rooms_db` dictionary and the handlers that use it. */
  class Registry {
    var rooms: map<string, Room>

    ghost predicate Valid()
      reads this, rooms.Values
    {
      && (forall id :: id in rooms ==> rooms[id].roomId == id && rooms[id].Valid())
      && (forall a, b :: a in rooms && b in rooms && a != b ==> rooms[a] != rooms[b])
    }

    constructor ()
      ensures Valid() && rooms == map[]
    {
      rooms := map[];
    }

    /** `RoomHandler.get`: create the room if its id is unknown, otherwise leave everything as it is. */
    method GetOrCreate(roomId: string) returns (room: Room)
      requires Valid()
      modifies this
      ensures Valid()
      ensures roomId in rooms && room == rooms[roomId]
      ensures roomId in old(rooms) ==> rooms == old(rooms)
      ensures roomId !in old(rooms) ==> fresh(room) && rooms == old(rooms)[roomId := room] && room.Abstract() == Initial()
    {
      if roomId !in rooms {
        var created := new Room(roomId);
        rooms := rooms[roomId := created];
      }
      room := rooms[roomId];
    }

    /** `UpdateRoomStateHandler.post`: an unknown room is HTTP 400 and nothing changes. */
    method UpdateState(roomId: string, newState: FrontendState) returns (r: Result<(), HttpError>)
      requires Valid()
      modifies rooms.Values
      ensures Valid()
      ensures r.Err? <==> roomId !in rooms
      ensures forall id :: id in rooms && id != roomId ==> rooms[id].Abstract() == old(rooms[id].Abstract())
      ensures roomId in rooms ==> rooms[roomId].Abstract() == Replaced(old(rooms[roomId].Abstract()), newState)
    {
      if roomId !in rooms {
        return Err(BadRequest);
      }
      rooms[roomId].UpdateFrontendState(newState);
      r := Ok(());
    }

    /**
     `RoomStateNotificationHandler.post` on arrival: an unknown room is HTTP
     400; a client that already has the current version waits; otherwise the
     current state goes back at once.
     */
    function Poll(roomId: string, lastSeen: int): (r: PollResult)
      reads this, rooms.Values
      requires Valid()
      ensures r == UnknownRoom <==> roomId !in rooms
      ensures r == Waiting <==> roomId in rooms && MustWait(rooms[roomId].stateVersionCounter, lastSeen)
      ensures r.Ready? ==> roomId in rooms && r.state == rooms[roomId].frontendState
      ensures r.Ready? ==> VERSION_KEY in r.state && r.state[VERSION_KEY] == JInt(rooms[roomId].stateVersionCounter)
    {
      if roomId !in rooms then UnknownRoom
      else if MustWait(rooms[roomId].GetLastUpdateId(), lastSeen) then Waiting
      else Ready(rooms[roomId].GetFrontendState())
    }
  }
}
