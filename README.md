# Room membership actor and session registries — a Dafny model

This project models the room core of a real-time party-game server, written
in Go. It covers:

- **The room actor.** `roomCycle` runs one per room. It takes commands off the
  room's channel one at a time. `Joined` tells the current members that a
  player is joining, then adds the joiner without creating a repetition.
  `Leave` removes the leaver, then tells the remaining members. Any other
  command type does nothing.
- **The two slice helpers it uses.** `uniqueSliceElements` drops repeated
  elements. `deleteElement` drops the players with a given ID.
- **The room registry.** `roomsIndex` maps a room ID to the room's inbound
  command channel. `InitRooms` and `CreateRoom` fill it; `GetChannelByRoom`
  reads it.
- **The request side of joining and leaving a room.** `JoinRoom` and
  `LeaveRoom` work on a room record fetched from the database, then route a
  command to the room's channel.
- **The player registry.** `players` maps a player ID to the player's outbound
  event channel, guarded by `playersMutex`. `AddPlayerConnection` is
  get-or-create on it.

Modules, one per component:

- `Entities` (`entities.dfy`): identifiers, the `Player` and `RoomRecord`
  records, channel values (`NilChan`, or a made channel with a handle),
  commands, events, errors.
- `Slices` (`slices.dfy`): `UniqueSliceElements` and `DeleteElement` as loops.
  Each is proved against a specification function (`Dedup`, `FilterOut`), and
  lemmas state what those functions promise.
- `RoomActor` (`room_actor.dfy`): `Room` (the member list the actor owns);
  `PlayersIndex` (the process-wide map from player ID to event queue); and
  `Room.Step`, one iteration of the actor loop. A send on a player's channel
  is an append to that player's queue. `Deliver` specifies a fan-out to a
  list of recipients. All sends of one fan-out carry the same event, so
  `Deliver` gives each queue one copy per recipient entry with that ID. That
  makes it independent of the order in which the concurrent sends land.
- `Rooms` (`room_registry.dfy`): `RoomRegistry` with `InitRooms`,
  `CreateRoom` and `GetChannelByRoom`, plus `JoinRoom` and `LeaveRoom`.
  Database results are inputs.
- `Players` (`player_registry.dfy`): `PlayerRegistry`, where `playersMutex`
  is a flag. `Lock` on a held mutex returns `Blocked`: nothing in the
  registry can release the mutex then, so the call never returns.

A Go nil map is `None` and lazy initialisation is `Some(map[])`. `make(chan …)`
returns `Chan(nextChan)` and increments a counter. Both registries keep the
invariant that every made channel has a handle below the counter and that no
two keys share a made channel.

The code disagrees with the design description in a few places. The model
follows the code:
- Joins are deduplicated on whole `Player` values (Go struct equality), not
  on player IDs. Two entries with the same ID and different field values can
  therefore both be members. The fan-out contract counts entries per ID for
  this reason.
- `CreateRoom` registers a channel that was never made (see Findings).
- The registry check-then-insert of `AddPlayerConnection` is one critical
  section, but its early return keeps the mutex (see Findings).
- `roomCycle` sends events through `playersIndex` with the `PlayerEvent`
  type, while `internal/core/player.go` declares `players` with channels of
  `string`. The model gives the actor its own `PlayersIndex` of
  `PlayerEvent` queues and keeps `PlayerRegistry` separate.

## Model

| member | source | states |
|---|---|---|
| `Slices.UniqueSliceElements` | internal/core/room.go:152-165 | The result is the input with every repetition after the first dropped (`Dedup`). It has no repetition and holds exactly the input's elements. The flag is true iff the input had no repetition, and then the result is the input itself. |
| `Slices.DedupElements` | internal/core/room.go:156-163 | An element is in the deduplicated list iff it is in the input. |
| `Slices.DedupNoDuplicates` | internal/core/room.go:157-160 | The deduplicated list never holds an element twice. |
| `Slices.DedupIdentity` | internal/core/room.go:153-162 | Deduplication leaves a list unchanged iff the list has no repetition. This is the meaning of the returned flag. |
| `Slices.DedupOrderPair` | internal/core/room.go:156-163 | Of two kept elements, the earlier one in the result occurs first earlier in the input. |
| `Slices.DedupFirstOccurrenceOrder` | internal/core/room.go:156-163 | The result lists its elements in the order of their first occurrence in the input. |
| `Slices.DeleteElement` | internal/core/room.go:167-175 | Needs a non-empty input (the capacity `len(players)-1` makes `make` panic on an empty one). The result is `FilterOut` of the input. It holds exactly the players whose ID is not `elem`, and its length is the input's minus the number of matching entries. |
| `Slices.FilterOutElements` | internal/core/room.go:169-173 | A player survives the filter iff it is in the input and its ID differs from the removed one. |
| `Slices.FilterOutLength` | internal/core/room.go:167-175 | The filter removes exactly as many entries as carry the removed ID. |
| `Slices.FilterOutConcat` | internal/core/room.go:169-173 | Filtering a concatenation is concatenating the filtered parts, so survivors keep their original order. |
| `Slices.FilterOutSingle` | internal/core/room.go:170-172 | One player is kept iff its ID differs from the removed one. |
| `Slices.FilterOutNoDuplicates` | internal/core/room.go:169-173 | Filtering a list without repetition gives a list without repetition. |
| `RoomActor.FilterOutDistinct` | internal/core/room.go:169-173 | Filtering a list with distinct IDs gives a list with distinct IDs. |
| `RoomActor.PlayersIndex.Broadcast` | internal/core/room.go:184-192 | The `iter.ForEach` fan-out leaves the queues equal to `Deliver` of the old queues: each recipient entry whose ID has a channel adds one copy of the event to that queue. |
| `RoomActor.DeliverSnoc` | internal/core/room.go:188-191 | One more recipient appends exactly one event to its own queue, if it has one, and to no other queue. |
| `RoomActor.DeliverNone` | internal/core/room.go:184-192 | A fan-out to nobody changes no queue. |
| `RoomActor.DeliverKeys` | internal/core/room.go:188-191 | A fan-out sends only on registered channels: it creates and drops no queue. |
| `RoomActor.DeliverSkips` | internal/core/room.go:184-192 | A player with no entry among the recipients receives nothing. |
| `RoomActor.DeliverOnce` | internal/core/room.go:184-192 | With distinct recipient IDs, each recipient with a channel receives exactly one event. |
| `RoomActor.Room.constructor` | internal/core/room.go:177 | The actor starts with the room's ID, name and member list. |
| `RoomActor.Room.Step` | internal/core/room.go:179-214 | `Joined`: queues become `Deliver` to the old members (before the joiner is added), and members become `Dedup(old ++ [joiner])`. `Leave` on a non-empty list: members become `FilterOut(old, leaver)`, then queues become `Deliver` to the new members. `Leave` on an empty list panics and changes nothing. Any other command type changes nothing. A member list without repetition stays without repetition. |
| `RoomActor.JoinerNotNotified` | internal/core/room.go:183-196 | A joiner who was not yet a member gets no event about itself, because the fan-out happens before the append. |
| `RoomActor.JoinedMembersUnique` | internal/core/room.go:194-196 | After `Joined`, the member list has no repetition and holds exactly the old members plus the joiner. |
| `RoomActor.JoinIdempotent` | internal/core/room.go:194-196 | For a list without repetition, re-joining an existing member leaves the list unchanged, and a new joiner is appended at the end. |
| `RoomActor.LeaverNotNotified` | internal/core/room.go:199-210 | The leaver is removed before the fan-out, so the leaver receives no `RoomLeave`. |
| `RoomActor.RemainingNotifiedOnce` | internal/core/room.go:199-210 | With distinct member IDs, every remaining member with a channel receives exactly one `RoomLeave` carrying the leaver's ID. |
| `Rooms.RoomRegistry.constructor` | internal/core/room.go:14 | The registry starts nil, and no channel has been made yet. |
| `Rooms.RoomRegistry.MakeChan` | internal/core/room.go:41 | `make` returns a channel with a handle never used before. |
| `Rooms.RoomRegistry.RegisterRoom` | internal/core/room.go:36-42 | One InitRooms body initialises the nil map, registers the room's ID with a freshly made channel and keeps the channel invariants. |
| `Rooms.RoomRegistry.GetChannelByRoom` | internal/core/room.go:139-150 | Returns the stored channel for a registered ID and a not-found error otherwise. A nil map becomes empty and no entry changes. |
| `Rooms.RoomRegistry.CreateRoom` | internal/core/room.go:50-79 | If the creator lookup fails, it returns that error and changes nothing. Otherwise it adds exactly one entry, the new ID bound to the nil channel, leaves all other entries as they were, and starts an actor whose only member is the creator. |
| `Rooms.RoomRegistry.CreateRoomFixed` | internal/core/room.go:67-76 | The corrected creation: the new ID is bound to a freshly made channel that no other room shares. Everything else is as in `CreateRoom`. |
| `Rooms.RoomRegistry.InitRooms` | internal/core/room.go:28-48 | If the listing fails, it returns that error and changes nothing. Otherwise the keys become the old keys plus the listed IDs, and unlisted entries are unchanged. Every listed room gets a freshly made channel, distinct rooms get distinct channels, and each room gets an actor holding its members. |
| `Rooms.JoinSavesOnlyRejoin` | internal/core/room.go:99-107 | The save decision as written, for a member list without repetition: it saves iff the joiner was already a member. What it saves is then the unchanged list, and a new member is never saved. |
| `Rooms.JoinSavesRoomFixedExactlyOnChange` | internal/core/room.go:99-107 | The corrected decision saves iff joining changes the member list, and it then saves the list with the joiner appended. |
| `Rooms.JoinRoom` | internal/core/room.go:87-117 | A failed room or player lookup is returned and nothing else happens. Otherwise the list is saved exactly as `JoinSavesRoom` decides. A `Joined` command carrying the joiner goes to the registered channel, or a not-found error is returned. |
| `Rooms.LeaveRoom` | internal/core/room.go:119-137 | A failed lookup is returned. An empty member list panics in `deleteElement`. Otherwise a `Leave` command carrying the leaver's ID goes to the registered channel, or a not-found error is returned. Nothing is saved. |
| `Rooms.CreatedRoomHasNilChannel` | internal/core/room.go:67-76 | After `CreateRoom`, looking the room up yields the nil channel. |
| `Rooms.CreatedRoomFixedHasChannel` | internal/core/room.go:67-76 | After the corrected creation, looking the room up yields a made channel. |
| `Players.PlayerRegistry.constructor` | internal/core/player.go:10-11 | The registry starts nil and unlocked. |
| `Players.PlayerRegistry.AddPlayerConnection` | internal/core/player.go:26-39 | On a held mutex, it blocks and nothing changes. A registered ID gets its stored channel back, nothing is replaced, and the mutex stays held. An unregistered ID is stored with one freshly made channel, which is returned, and the mutex is released. A nil map is initialised first. Every returning path has a nil error. |
| `Players.PlayerRegistry.AddPlayerConnectionFixed` | internal/core/player.go:26-39 | The same get-or-create with the mutex released on every path. Entries for other IDs never change and never share the returned channel. |
| `Players.ReconnectLeavesMutexHeld` | internal/core/player.go:31-34 | As written, two calls for one ID return the same channel, and a third call blocks for ever. |
| `Players.ReconnectFixedIsIdempotent` | internal/core/player.go:26-39 | With the mutex released, repeated calls for one ID return the same channel, and another ID gets a different one. |

## Left out

- Persistence: `AddPlayer`, `GetPlayer`, `GetAllRooms` and the database calls in `CreateRoom`, `JoinRoom` and `LeaveRoom` are not modelled. Their results are inputs. The ignored result of `database.Db.Create` in `CreateRoom` and the `Save` result in `JoinRoom` are not modelled either. The latter is never checked, because the code tests an earlier `err`.
- UUID generation is an input (`newId`). The failure of `uuid.NewUUID` is only logged, and the source then uses whatever ID it returned.
- Goroutines are not modelled: the `go roomCycle` starts and the endless receive loop. An actor is a `Room` object, and one loop iteration is `Room.Step`.
- Channel blocking is not modelled. A send is an append to a queue. A send or receive on the nil channel blocks for ever; this appears only in the Findings.
- `RoomActor.Room.Step`: the per-send locking of `playersMutex` inside the fan-out is not modelled. If the player registry's mutex has leaked (Findings), every fan-out in the real program would block.
- `RoomActor.PlayersIndex.Broadcast`: the fan-out is specified per queue by count, not by the order in which concurrent sends interleave. Within one fan-out all events are equal, so every order gives the same queues.
- `Rooms.RoomRegistry.InitRooms`: rooms are registered in list order while the source registers them concurrently. The contract states only what holds in every order. With repeated IDs in the listing, the channel that wins is not specified.
- `roomsMutex` is not modelled. Every critical section on it unlocks with `defer`, and each call is atomic in the sequential model.
- The JSON logging of each command after it is handled is left out.
- The `uint` command type is an unbounded `nat`. Only equality with the two tags matters.
- The record timestamps (`CreatedAt`, `UpdatedAt`, `DeletedAt`) are not fields of `Player`. They only take part in the struct equality that deduplication uses.
- The network transport, authentication, configuration loading and server bootstrap are not modelled.

## Findings

| source | as written | input that shows it | evidently intended | confidence | as-written member | corrected member |
|---|---|---|---|---|---|---|
| internal/core/player.go:31-34 | The early return for an already registered ID leaves `playersMutex` locked. | Two connections for the same player ID. The next `AddPlayerConnection`, and every fan-out in `roomCycle`, then blocks for ever. | Release the mutex on every path (a deferred unlock). | not executed; high | `Players.ReconnectLeavesMutexHeld` | `Players.ReconnectFixedIsIdempotent` |
| internal/core/room.go:67-76 | `CreateRoom` registers `var c chan RoomCmd`, a channel that is never made. | Create a room, then join it: `JoinRoom` sends on the nil channel and blocks for ever, and the room's actor never receives. | Make the channel, as `InitRooms` does at line 41. | not executed; high | `Rooms.CreatedRoomHasNilChannel` | `Rooms.CreatedRoomFixedHasChannel` |
| internal/core/room.go:99-107 | The member list is saved only when `uniqueSliceElements` reports a repetition. That is when the joiner was already a member, and then the list is unchanged. | A new player joins a room with members `[a]`: `[a, b]` has no repetition, so nothing is saved. | Save when the joiner is new, i.e. when the list changed. | not executed; high | `Rooms.JoinSavesOnlyRejoin` | `Rooms.JoinSavesRoomFixedExactlyOnChange` |

`Rooms.JoinRoom`, `Rooms.RoomRegistry.CreateRoom` and
`Players.PlayerRegistry.AddPlayerConnection` model the code as written. The
corrected members stand beside them.
