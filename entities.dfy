/**
 The value types the room actor and the two registries work on: identifiers,
 the `Player` and `Room` records, channel references, commands, events and
 the error type.
 */
module Entities {

  /** A 128-bit UUID; only equality matters to the core. */
  type Uuid = x: int | 0 <= x < 0x1_0000_0000_0000_0000_0000_0000_0000_0000

  /** `uuid.Nil`, the zero value of a UUID. */
  const NilUuid: Uuid := 0

  /** A player record as the persistence layer stores it (ID, Name, RoomId). */
  datatype Player = Player(id: Uuid, name: string, roomId: Uuid)

  /** The zero value of a `Player`, carried by commands that do not set one. */
  const ZeroPlayer: Player := Player(NilUuid, "", NilUuid)

  /** A room record with its members preloaded (ID, Name, Players, State). */
  datatype RoomRecord = RoomRecord(id: Uuid, name: string, players: seq<Player>, state: nat)

  /**
   A channel value: `NilChan` is the zero value of a channel type (a channel
   that was declared but never made); `Chan(h)` is a channel created by `make`,
   told apart from every other made channel by its handle `h`.
   */
  datatype ChanRef = NilChan | Chan(handle: nat)

  /** Every made channel in `m` has a handle below `next`, the next one `make` hands out. */
  ghost predicate ChannelsBelow(m: map<Uuid, ChanRef>, next: nat)
  {
    forall k :: k in m && m[k].Chan? ==> m[k].handle < next
  }

  /** No made channel is registered under two keys. */
  ghost predicate ChannelsDistinct(m: map<Uuid, ChanRef>)
  {
    forall k1, k2 :: k1 in m && k2 in m && k1 != k2 && m[k1].Chan? ==> m[k1] != m[k2]
  }

  datatype Option<T> = None | Some(value: T)

  /** The entries of a map that may still be nil; a nil map reads as empty. */
  function Entries<K, V>(m: Option<map<K, V>>): map<K, V>
  {
    if m.Some? then m.value else map[]
  }

  /** The errors the core reports or passes on. */
  datatype Error =
    | RoomChannelNotFound(roomId: Uuid)  // GetChannelByRoom on an unregistered room
    | DbError(reason: string)            // an error returned by the persistence layer

  datatype Result<T> = Ok(value: T) | Err(error: Error)

  /** Command type tags of `RoomCmd.Type`. */
  const Joined: nat := 0
  const Leave: nat := 1

  /** A command sent into a room's inbound channel. */
  datatype RoomCmd = RoomCmd(cmdType: nat, playerId: Uuid, player: Player)

  /** An event pushed into a player's outbound channel. */
  datatype PlayerEvent =
    | RoomJoined(player: Player)
    | RoomLeave(playerId: Uuid)
}
