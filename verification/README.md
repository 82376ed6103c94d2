# Room state store and deck, in Dafny

This project models the core of a small multiplayer card-game server. Clients
share a room's state by long-polling rather than through persistent
connections. The model covers three parts of the server:

- **The room store of `server/rooms.py`** (module `Rooms`). A `Room` holds a
  version counter that starts at 1, an insertion-ordered player table and the
  free-form `frontend_state` object. `add_player` rejects a username already
  in the table. `update_frontend_state` replaces the object only when given a
  truthy one. It always bumps the counter by exactly one and stamps `version`
  and `players` from the room itself. The `Registry` class is the module-level
  `rooms_db` dictionary and carries the three handlers:
  - get-or-create plus join, which turns a taken name into HTTP 400;
  - the state push, which rejects an unknown room with HTTP 400;
  - the entry check of the long poll.
- **The earlier room store of `server/main.py`** (module `EarlyRooms`). Its
  rooms have no players, and every update replaces the whole state object.
  Its registry offers get-or-create, the state push and the long-poll entry
  check.
- **The deck of `server/deck.py`** (module `Decks`). It builds the 13 × 4
  cards, shuffles them and pops from the end.

Two modules are shared. `Frontend` holds the JSON values of the state
object, the initial state and the result types. `LongPoll` holds the guard
of the notification handler's wait loop (`MustWait`) and the loop itself
(`Await`).

Rooms, registries and decks are classes whose methods update their fields in
place. Each method's contract ties the new state to a function on values:
`Published`, `WithPlayer`, `Replaced`, or a `Result` for the error path. The
properties of those functions are proved as lemmas:

- the counter never decreases and every accepted operation adds exactly one;
- for pushes that carry an object or nothing, the stamped `version` always
  equals the counter;
- for the same pushes, once anything was published the `players` list
  always equals the room's table, whatever the caller pushed;
- a rejected join changes nothing;
- a waiter is released exactly when the counter passes the version it saw;
- a new deck is a permutation of the 52 distinct cards, so 52 draws return
  every card once and the 53rd fails.

Three behaviours of the code are worth stating plainly, and the model
follows them:

- A username already in a room's table is rejected
  (`server/rooms.py:27-28`), whatever became of that player. The code keeps
  no record of connections: `Player` holds only the username, the TODO at
  `server/rooms.py:48` asks for a connection check, and
  `ROOM_PLAYER_CONN_UPDATE_MS` (`server/constants.py:16`) is never used.
- A state push whose object is empty, or that has no object, keeps the
  stored object (`if state:` at `server/rooms.py:34`); only the counter and
  the two stamps change.
- A room has no operation that draws a card and keeps no log of drawn cards.
  The `drawn_cards`, `suit`, `value` and `owner` key names at
  `server/constants.py:10-13` are never used.

## Model

| member | source | states |
|---|---|---|
| `Frontend.InitialFrontendState` | server/rooms.py:21 | a new room's state holds `version` 1 and no `players` key |
| `Frontend.Truthy` | server/rooms.py:34 | definition of `if state:` on an optional object; what it decides is stated by `Rooms.Published` (a truthy state replaces the other keys, no object or `{}` keeps them) |
| `LongPoll.MustWait` | server/rooms.py:87 | definition of the wait loop's guard; what it decides is stated by `LongPoll.Await`, `Rooms.StepReleases` and `Rooms.ReleasedStaysReleased` |
| `LongPoll.Await` | server/rooms.py:87-92 | the wait loop releases at the first check where the counter exceeds the client's last version, never before; it releases at once if that already holds on arrival, and keeps waiting while it never holds |
| `Rooms.PlayerList` | server/rooms.py:38 | definition of the stamped `players` value; `Rooms.PlayerListDeterminesTable` states what it preserves |
| `Rooms.PlayerListDeterminesTable` | server/rooms.py:38 | two tables give the same stamped `players` value exactly when they hold the same usernames in the same order, so the stamp records the table without loss |
| `Rooms.Initial` | server/rooms.py:17-24 | a new room has counter 1, `version` 1 and no players, and satisfies the room invariant |
| `Rooms.Published` | server/rooms.py:33-38 | an update bumps the counter by exactly 1 and stamps it as `version`; `players` becomes the room's own table; a truthy state replaces the other keys, while None or `{}` keeps the previous ones |
| `Rooms.WithPlayer` | server/rooms.py:26-30 | a username already present is a KeyError; otherwise it is appended, the counter goes up by 1, `players` lists the new table, and the other keys are kept |
| `Rooms.PublishedKeepsConsistent` | server/rooms.py:33-38 | an update preserves the room invariant (counter ≥ 1 and stamped, unique usernames, stamped player list) |
| `Rooms.WithPlayerKeepsConsistent` | server/rooms.py:26-30 | a successful join preserves the room invariant, including unique usernames |
| `Rooms.SuppliedStampsIgnored` | server/rooms.py:34-38 | whatever `players` or `version` a caller pushes is overwritten: truthy payloads that agree on the other keys publish the same room |
| `Rooms.Step` | server/rooms.py:26-36 | an accepted operation bumps the counter by exactly 1; a rejected join leaves the room unchanged |
| `Rooms.RunMonotone` | server/rooms.py:26-38 | over any sequence of joins and updates the counter never decreases and grows at most one per call, players are only appended, and the invariant holds throughout |
| `Rooms.ReleasedStaysReleased` | server/rooms.py:36 | a client already past its version is never made to wait again by any sequence of joins and pushes, because the counter never decreases |
| `Rooms.StepReleases` | server/rooms.py:87 | a blocked waiter is released by an operation exactly when the operation is accepted and the waiter had the latest version |
| `Rooms.Room.constructor` | server/rooms.py:17-24 | a new Room is the initial room state for its id |
| `Rooms.Room.AddPlayer` | server/rooms.py:26-30 | KeyError exactly when the name is present, with nothing changed; otherwise the room becomes `WithPlayer` of the old one |
| `Rooms.Room.UpdateFrontendState` | server/rooms.py:33-38 | the room becomes `Published` of the old one, and the invariant is kept |
| `Rooms.Room.GetLastUpdateId` | server/rooms.py:41-42 | returns the counter without changing anything; it is at least 1, equals the stamped `version`, and exceeds the number of players |
| `Rooms.Room.GetFrontendState` | server/rooms.py:44-45 | returns the state object, which carries the current `version` and, once anything was published, the player list; nothing changes |
| `Rooms.Registry.constructor` | server/rooms.py:14 | the registry starts empty |
| `Rooms.Registry.GetOrCreate` | server/rooms.py:58-60 | an unknown id gets a fresh initial room; a known id returns its existing room and leaves the registry unchanged; every existing room stays in place with its state |
| `Rooms.Registry.Join` | server/rooms.py:55-64 | gets or creates the room, then adds the player; a taken name is HTTP 400 with the room unchanged; other rooms are never affected |
| `Rooms.Registry.AddToExisting` | server/rooms.py:60-64 | adding to a known room: HTTP 400 exactly when the name is taken, with the room unchanged; otherwise the room becomes `WithPlayer` of the old one; other rooms are never affected |
| `Rooms.Registry.UpdateState` | server/rooms.py:69-75 | an unknown room is HTTP 400 and nothing changes; otherwise only that room is updated |
| `Rooms.Registry.Poll` | server/rooms.py:82-95 | an unknown room is HTTP 400; a client with the current version waits; otherwise it gets the current state back at once, with the current `version` and, once anything was published, the room's player list |
| `EarlyRooms.Initial` | server/main.py:20-26 | a new room has counter 1 and `version` 1 |
| `EarlyRooms.Replaced` | server/main.py:28-31 | an update replaces the whole state with the supplied one, bumps the counter by exactly 1 and stamps it as `version` |
| `EarlyRooms.RunCounts` | server/main.py:28-31 | after n updates the counter has grown by exactly n, and the state is the last supplied one with that counter stamped |
| `EarlyRooms.RunReleases` | server/main.py:30 | a released client stays released over any updates, and a waiting client is released once enough updates have happened to pass its version |
| `EarlyRooms.ReplacedReleases` | server/main.py:73 | a blocked waiter is released by an update exactly when it had the latest version |
| `EarlyRooms.Room.constructor` | server/main.py:20-26 | a new Room is the initial room state for its id |
| `EarlyRooms.Room.UpdateFrontendState` | server/main.py:28-31 | the room becomes `Replaced` of the old one, and the invariant is kept |
| `EarlyRooms.Room.GetLastUpdateId` | server/main.py:34-35 | returns the counter, equal to the stamped `version`, without changing anything |
| `EarlyRooms.Room.GetFrontendState` | server/main.py:37-38 | returns the state object with the current `version`; nothing changes |
| `EarlyRooms.Registry.constructor` | server/main.py:16 | the registry starts empty |
| `EarlyRooms.Registry.GetOrCreate` | server/main.py:48-50 | an unknown id gets a fresh initial room; a known id keeps its room and the registry unchanged |
| `EarlyRooms.Registry.UpdateState` | server/main.py:55-61 | an unknown room is HTTP 400 and nothing changes; otherwise only that room is updated |
| `EarlyRooms.Registry.Poll` | server/main.py:68-81 | an unknown room is HTTP 400; a client with the current version waits; otherwise it gets the current state back at once |
| `Decks.SuitNamesDistinct` | server/constants.py:3-6 | the four suit constants are four different strings, so naming a suit by an enumeration value (`SuitName`) loses nothing |
| `Decks.SuitIndex` | server/deck.py:20 | each suit has its position in the comprehension's suit tuple |
| `Decks.Unshuffled` | server/deck.py:17-21 | the built list has 52 cards, each with value 1..13, no two alike, and every (value, suit) pair among them |
| `Decks.UnshuffledDistinct` | server/deck.py:17-21 | the comprehension never builds the same (value, suit) pair twice |
| `Decks.UnshuffledComplete` | server/deck.py:17-21 | every (value, suit) pair with value 1..13 is built |
| `Decks.Shuffle` | server/deck.py:22 | whatever the random generator returns, shuffling preserves the length and the multiset of cards |
| `Decks.DistinctCountsAtMostOne` | server/deck.py:17-22 | in a list without repeats, each card occurs at most once |
| `Decks.RepeatCountsTwice` | server/deck.py:17-22 | a card at two positions occurs at least twice |
| `Decks.CountsAtMostOneDistinct` | server/deck.py:17-22 | a list in which each card occurs at most once has no repeats |
| `Decks.PermutationKeepsDistinct` | server/deck.py:22 | shuffling a list without repeats leaves no repeats |
| `Decks.CardCount` | server/deck.py:17-22 | a permutation of the full deck has exactly 52 cards |
| `Decks.Deck.constructor` | server/deck.py:16-22 | a new deck is a permutation of the 52 distinct cards |
| `Decks.Deck.DrawCard` | server/deck.py:24-25 | on an empty deck it fails as `pop` does; otherwise it returns the last card, which is a valid card no longer in the deck, and the deck is the old one minus its last element |
| `Decks.DrawUntilEmpty` | server/deck.py:24-25 | drawing until the deck is empty returns exactly the cards the deck held |
| `Decks.DrawAll` | server/deck.py:17-25 | from a new deck, 52 draws return 52 pairwise-distinct cards covering every (value, suit) pair, and the 53rd draw fails |

## Left out

- Condition variables, `await`, `notify_all`, cancellation through `on_connection_close`, and the closed-stream check are concurrency and I/O. Only the wait loop's guard and its re-checks are modelled (`LongPoll.Await`, `Poll`). The sequence of counters a waiter sees after each notification is a parameter.
- In `server/main.py:77` the wait loop catches `asyncio.CancelledException`, a name `asyncio` does not define. A cancelled wait therefore raises an error instead of returning quietly. This is part of the cancellation path, which is not modelled.
- Tornado plumbing is not modelled: argument parsing, `json_decode`, `render`, `write`, `HTTPError` mapping beyond the 400 result, and the application setup in `main()`.
- `int(last_seen_update)` can fail on a non-numeric argument. The model takes the version as an integer.
- Pushes of a JSON value other than an object or null are not modelled in `server/rooms.py`; the model takes an optional object. A falsy value (`0`, `false`, `""`, `[]`) behaves as no object under `if state:` (`server/rooms.py:34`), which `None` covers. A truthy one (`true`, a non-empty list or string, a non-zero number) replaces `frontend_state` (line 35) and bumps the counter (line 36), then fails at the `version` stamp (line 37) before `notify_all` (line 39). The room is left with a counter no `version` records, and later joins append the player and bump the counter before failing the same way. The invariants of `Rooms.Consistent` are claimed only for object and null pushes.
- `server/main.py:29-31` has no `if state:` test, so every non-object `new_state` (null, `true`, `false`, a number, a string, a list, empty or not) is stored, bumps the counter and then fails at the `version` stamp (line 31), leaving the room in the same broken state. The model takes an object there and does not model this failure.
- JSON numbers with a fraction are not modelled: `Frontend.Json` holds integers only.
- `frontend_state` is held by reference in the source, so it aliases the caller's dictionary. The model holds it as a value.
- The `cards=[]` constructor argument is never used and is not modelled. `room_id` is kept as the constant `roomId`. The `cond` field serves only the wait and `notify_all`, which are listed above. The `Player` object is reduced to its username.
- `random.shuffle` is modelled by the generator's draws as a parameter `randbelow`, reduced into range. Only the permutation property is claimed, not any distribution.
- `server/cards.py` and the top-level `main.py` are not part of this model. The first is an unfinished stub and the second is setup code plus field assignment.
- Presence tracking, heartbeats, a presence sweeper, drawing a card from a room and a drawn-cards log do not exist in the code, so they are not modelled.
