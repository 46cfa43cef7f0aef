/**
 The room registry (`roomsIndex`, guarded by `roomsMutex`) and the parts of
 the room requests that do not belong to persistence: `InitRooms`,
 `CreateRoom`, `GetChannelByRoom`, and the decisions `JoinRoom` and
 `LeaveRoom` make before they route a command to a room. Results of the
 database calls are inputs. Every critical section on `roomsMutex` releases
 the lock with `defer`, so the lock is not modelled.
 */
module Rooms {
  import opened Entities
  import opened Slices
  import opened RoomActor

  /** The IDs of a list of room records. */
  function RoomIds(rooms: seq<RoomRecord>): set<Uuid>
  {
    set i | 0 <= i < |rooms| :: rooms[i].id
  }

  lemma RoomIdsSnoc(rooms: seq<RoomRecord>, i: nat)
    requires i < |rooms|
    ensures RoomIds(rooms[..i + 1]) == RoomIds(rooms[..i]) + {rooms[i].id}
  {
    assert forall j :: 0 <= j < i ==> rooms[..i + 1][j] == rooms[..i][j];
    assert rooms[..i + 1][i] == rooms[i];
  }

  /**
   `m` is `m0` after every room of `rooms` has been registered with a channel
   made at handle `n0` or later: the keys are those of `m0` plus the listed
   IDs, unlisted entries are untouched, and every listed room has a fresh
   channel.
   */
  ghost predicate RegisteredFresh(m0: map<Uuid, ChanRef>, m: map<Uuid, ChanRef>, rooms: seq<RoomRecord>, n0: nat)
  {
    && m.Keys == m0.Keys + RoomIds(rooms)
    && (forall k :: k in m0 && k !in RoomIds(rooms) ==> m[k] == m0[k])
    && (forall k :: k in RoomIds(rooms) ==> m[k].Chan? && m[k].handle >= n0)
  }

  /** Registering one more room with a channel made at or after `n0`. */
  lemma RegisteredFreshSnoc(m0: map<Uuid, ChanRef>, m: map<Uuid, ChanRef>, rooms: seq<RoomRecord>, i: nat, n0: nat, h: nat)
    requires i < |rooms|
    requires RegisteredFresh(m0, m, rooms[..i], n0)
    requires h >= n0
    ensures RegisteredFresh(m0, m[rooms[i].id := Chan(h)], rooms[..i + 1], n0)
  {
    RoomIdsSnoc(rooms, i);
  }

  /** Registering a freshly made channel keeps the channel invariants. */
  lemma FreshChannelKeepsDistinct(m: map<Uuid, ChanRef>, next: nat, k: Uuid)
    requires ChannelsBelow(m, next) && ChannelsDistinct(m)
    ensures ChannelsBelow(m[k := Chan(next)], next + 1) && ChannelsDistinct(m[k := Chan(next)])
    ensures forall k' :: k' in m && k' != k ==> m[k'] != Chan(next)
  {
  }

  class RoomRegistry {
    /** `roomsIndex`: room ID to inbound command channel; `None` while still nil. */
    var roomsIndex: Option<map<Uuid, ChanRef>>
    /** The handle the next `make(chan RoomCmd)` returns. */
    var nextChan: nat

    ghost predicate Valid()
      reads this
    {
      ChannelsBelow(Entries(roomsIndex), nextChan) && ChannelsDistinct(Entries(roomsIndex))
    }

    constructor ()
      ensures Valid() && roomsIndex == None && nextChan == 0
    {
      roomsIndex := None;
      nextChan := 0;
    }

    /** `make(chan RoomCmd)`: a channel distinct from every channel made before. */
    method MakeChan() returns (c: ChanRef)
      modifies this`nextChan
      ensures c == Chan(old(nextChan)) && nextChan == old(nextChan) + 1
    {
      c := Chan(nextChan);
      nextChan := nextChan + 1;
    }

    /**
     The registration in one body of the InitRooms fan-out: register `room`
     under its ID with a freshly made channel.
     */
    method RegisterRoom(room: RoomRecord)
      requires Valid()
      modifies this
      ensures Valid()
      ensures roomsIndex == Some(Entries(old(roomsIndex))[room.id := Chan(old(nextChan))])
      ensures nextChan == old(nextChan) + 1
    {
      if roomsIndex.None? {
        roomsIndex := Some(map[]);
      }
      var c := MakeChan();
      FreshChannelKeepsDistinct(roomsIndex.value, old(nextChan), room.id);
      roomsIndex := Some(roomsIndex.value[room.id := c]);
    }

    /**
     GetChannelByRoom: the channel registered for `roomId`, or a not-found
     error. The nil map is replaced by an empty one; no entry changes.
     */
    method GetChannelByRoom(roomId: Uuid) returns (r: Result<ChanRef>)
      modifies this`roomsIndex
      ensures roomsIndex == Some(Entries(old(roomsIndex)))
      ensures roomId in Entries(old(roomsIndex)) ==> r == Ok(Entries(old(roomsIndex))[roomId])
      ensures roomId !in Entries(old(roomsIndex)) ==> r == Err(RoomChannelNotFound(roomId))
    {
      if roomsIndex.None? {
        roomsIndex := Some(map[]);
      }
      var index := roomsIndex.value;
      if roomId in index {
        r := Ok(index[roomId]);
      } else {
        r := Err(RoomChannelNotFound(roomId));
      }
    }

    /**
     CreateRoom: `newId` is what the UUID generator returned and `creator` what
     the player lookup returned. On success the room is registered under
     `newId` with the zero (nil) channel the source declares but never makes,
     and the actor for the room starts with the creator as its only member.
     */
    method CreateRoom(newId: Uuid, name: string, creator: Result<Player>) returns (r: Result<Uuid>, actor: Room?)
      requires Valid()
      modifies this`roomsIndex
      ensures Valid()
      ensures creator.Err? ==> r == Err(creator.error) && actor == null && roomsIndex == old(roomsIndex)
      ensures creator.Ok? ==>
                && r == Ok(newId)
                && roomsIndex == Some(Entries(old(roomsIndex))[newId := NilChan])
                && actor != null && fresh(actor)
                && actor.id == newId && actor.name == name && actor.members == [creator.value]
    {
      if creator.Err? {
        return Err(creator.error), null;
      }
      var room := RoomRecord(newId, name, [creator.value], 0);
      var c := NilChan;
      if roomsIndex.None? {
        roomsIndex := Some(map[]);
      }
      roomsIndex := Some(roomsIndex.value[room.id := c]);
      actor := new Room(room);
      r := Ok(room.id);
    }

    /**
     CreateRoom with the channel made as in InitRooms: the room is registered
     under `newId` with a fresh channel that no other room shares.
     */
    method CreateRoomFixed(newId: Uuid, name: string, creator: Result<Player>) returns (r: Result<Uuid>, actor: Room?)
      requires Valid()
      modifies this
      ensures Valid()
      ensures creator.Err? ==>
                r == Err(creator.error) && actor == null &&
                roomsIndex == old(roomsIndex) && nextChan == old(nextChan)
      ensures creator.Ok? ==>
                && r == Ok(newId)
                && roomsIndex == Some(Entries(old(roomsIndex))[newId := Chan(old(nextChan))])
                && (forall k :: k in Entries(roomsIndex) && k != newId ==>
                      Entries(roomsIndex)[k] != Entries(roomsIndex)[newId])
                && actor != null && fresh(actor)
                && actor.id == newId && actor.name == name && actor.members == [creator.value]
    {
      if creator.Err? {
        return Err(creator.error), null;
      }
      var room := RoomRecord(newId, name, [creator.value], 0);
      var c := MakeChan();
      if roomsIndex.None? {
        roomsIndex := Some(map[]);
      }
      FreshChannelKeepsDistinct(roomsIndex.value, old(nextChan), room.id);
      roomsIndex := Some(roomsIndex.value[room.id := c]);
      actor := new Room(room);
      r := Ok(room.id);
    }

    /**
     InitRooms: `all` is what the room listing returned. Each listed room is
     registered under its ID with a freshly made channel and gets its own actor
     holding its members. The source registers the rooms concurrently, so the
     contract states only what holds in every order: which keys exist, that
     every listed room has a fresh channel, that distinct rooms have distinct
     channels, and that unlisted entries are untouched.
     */
    method InitRooms(all: Result<seq<RoomRecord>>) returns (err: Option<Error>, actors: seq<Room>)
      requires Valid()
      modifies this
      ensures Valid()
      ensures all.Err? ==>
                err == Some(all.error) && actors == [] &&
                roomsIndex == old(roomsIndex) && nextChan == old(nextChan)
      ensures all.Ok? && all.value == [] ==> err == None && actors == [] && roomsIndex == old(roomsIndex)
      ensures all.Ok? && all.value != [] ==> err == None && roomsIndex.Some?
      ensures all.Ok? ==>
                && RegisteredFresh(Entries(old(roomsIndex)), Entries(roomsIndex), all.value, old(nextChan))
                && |actors| == |all.value|
                && (forall i :: 0 <= i < |actors| ==>
                      fresh(actors[i]) && actors[i].id == all.value[i].id &&
                      actors[i].members == all.value[i].players)
    {
      if all.Err? {
        return Some(all.error), [];
      }
      err := None;
      var rooms := all.value;
      ghost var m0 := Entries(roomsIndex);
      ghost var m := m0;
      ghost var n0 := nextChan;
      actors := [];
      var i := 0;
      while i < |rooms|
        invariant 0 <= i <= |rooms|
        invariant Valid()
        invariant Entries(roomsIndex) == m
        invariant i > 0 ==> roomsIndex.Some?
        invariant i == 0 ==> roomsIndex == old(roomsIndex)
        invariant nextChan >= n0
        invariant RegisteredFresh(m0, m, rooms[..i], n0)
        invariant |actors| == i
        invariant forall j :: 0 <= j < i ==>
                    fresh(actors[j]) && actors[j].id == rooms[j].id && actors[j].members == rooms[j].players
      {
        var room := rooms[i];
        RegisteredFreshSnoc(m0, m, rooms, i, n0, nextChan);
        RegisterRoom(room);
        m := m[room.id := Chan(nextChan - 1)];
        var actor := new Room(room);
        actors := actors + [actor];
        i := i + 1;
      }
      assert rooms[..i] == rooms;
    }
  }

  // ---------------------------------------------------------------------------
  // JoinRoom and LeaveRoom, after the database lookups
  // ---------------------------------------------------------------------------

  /** A command put into a room's inbound channel. */
  datatype Send = Send(channel: ChanRef, cmd: RoomCmd)

  /**
   What a room request did: the member list it had saved to the database (if
   any), the command it sent (if any) and the error it returned (if any); or
   a panic.
   */
  datatype Outcome =
    | Outcome(saved: Option<seq<Player>>, sent: Option<Send>, err: Option<Error>)
    | Panicked

  /**
   JoinRoom's save decision as written: save only when `uniqueSliceElements`
   reports a repetition, i.e. when the joiner is already in the list.
   */
  function JoinSavesRoom(players: seq<Player>, joiner: Player): bool
  {
    !NoDuplicates(players + [joiner])
  }

  /**
   For a member list without repetitions, the written decision saves exactly
   when the joiner was already a member, and what it saves is the unchanged
   list; a new member is never saved.
   */
  lemma JoinSavesOnlyRejoin(players: seq<Player>, joiner: Player)
    requires NoDuplicates(players)
    ensures JoinSavesRoom(players, joiner) <==> joiner in players
    ensures JoinSavesRoom(players, joiner) ==> Dedup(players + [joiner]) == players
    ensures !JoinSavesRoom(players, joiner) ==> Dedup(players + [joiner]) != players
  {
    NoDuplicatesSnoc(players, joiner);
    JoinIdempotent(players, joiner);
  }

  /** The evidently intended decision: save when the joiner is new. */
  function JoinSavesRoomFixed(players: seq<Player>, joiner: Player): bool
  {
    NoDuplicates(players + [joiner])
  }

  /**
   The intended decision saves exactly when joining changes the member list,
   and then saves the list with the joiner appended.
   */
  lemma JoinSavesRoomFixedExactlyOnChange(players: seq<Player>, joiner: Player)
    requires NoDuplicates(players)
    ensures JoinSavesRoomFixed(players, joiner) <==> Dedup(players + [joiner]) != players
    ensures JoinSavesRoomFixed(players, joiner) ==> Dedup(players + [joiner]) == players + [joiner]
  {
    NoDuplicatesSnoc(players, joiner);
    JoinIdempotent(players, joiner);
  }

  /**
   JoinRoom after its two lookups: `room` is the preloaded room record and
   `player` the joiner's record. It decides whether to save the member list,
   then routes a Joined command to the room's channel.
   */
  method JoinRoom(reg: RoomRegistry, roomId: Uuid, room: Result<RoomRecord>, player: Result<Player>)
    returns (out: Outcome)
    modifies reg`roomsIndex
    ensures room.Err? ==> out == Outcome(None, None, Some(room.error)) && reg.roomsIndex == old(reg.roomsIndex)
    ensures room.Ok? && player.Err? ==>
              out == Outcome(None, None, Some(player.error)) && reg.roomsIndex == old(reg.roomsIndex)
    ensures room.Ok? && player.Ok? ==>
              && out.Outcome?
              && out.saved == (if JoinSavesRoom(room.value.players, player.value)
                               then Some(Dedup(room.value.players + [player.value])) else None)
              && reg.roomsIndex == Some(Entries(old(reg.roomsIndex)))
              && (roomId in Entries(old(reg.roomsIndex)) ==>
                    out.sent == Some(Send(Entries(old(reg.roomsIndex))[roomId], RoomCmd(Joined, NilUuid, player.value))) &&
                    out.err == None)
              && (roomId !in Entries(old(reg.roomsIndex)) ==>
                    out.sent == None && out.err == Some(RoomChannelNotFound(roomId)))
  {
    if room.Err? {
      return Outcome(None, None, Some(room.error));
    }
    if player.Err? {
      return Outcome(None, None, Some(player.error));
    }
    var newPlayers, onlyUnique := UniqueSliceElements(room.value.players + [player.value]);
    var saved := if !onlyUnique then Some(newPlayers) else None;
    var c := reg.GetChannelByRoom(roomId);
    if c.Err? {
      return Outcome(saved, None, Some(c.error));
    }
    out := Outcome(saved, Some(Send(c.value, RoomCmd(Joined, NilUuid, player.value))), None);
  }

  /**
   LeaveRoom after its lookup: `room` is the preloaded room record. The member
   list is filtered (and the result discarded, the source never saves it); an
   empty list makes `deleteElement` panic. Then a Leave command is routed to
   the room's channel.
   */
  method LeaveRoom(reg: RoomRegistry, leaverId: Uuid, roomId: Uuid, room: Result<RoomRecord>)
    returns (out: Outcome)
    modifies reg`roomsIndex
    ensures room.Err? ==> out == Outcome(None, None, Some(room.error)) && reg.roomsIndex == old(reg.roomsIndex)
    ensures room.Ok? && room.value.players == [] ==> out == Panicked && reg.roomsIndex == old(reg.roomsIndex)
    ensures room.Ok? && room.value.players != [] ==>
              && reg.roomsIndex == Some(Entries(old(reg.roomsIndex)))
              && (roomId in Entries(old(reg.roomsIndex)) ==>
                    out == Outcome(None, Some(Send(Entries(old(reg.roomsIndex))[roomId], RoomCmd(Leave, leaverId, ZeroPlayer))), None))
              && (roomId !in Entries(old(reg.roomsIndex)) ==>
                    out == Outcome(None, None, Some(RoomChannelNotFound(roomId))))
  {
    if room.Err? {
      return Outcome(None, None, Some(room.error));
    }
    if room.value.players == [] {
      return Panicked;
    }
    var newPlayers := DeleteElement(room.value.players, leaverId);
    var c := reg.GetChannelByRoom(roomId);
    if c.Err? {
      return Outcome(None, None, Some(c.error));
    }
    out := Outcome(None, Some(Send(c.value, RoomCmd(Leave, leaverId, ZeroPlayer))), None);
  }

  /**
   As written, a room made by CreateRoom is registered with the nil channel:
   the command JoinRoom sends to it, and the receive of its actor, block for
   ever.
   */
  method CreatedRoomHasNilChannel(newId: Uuid, name: string, creator: Player) returns (r: Result<ChanRef>)
    ensures r == Ok(NilChan)
  {
    var reg := new RoomRegistry();
    var _, _ := reg.CreateRoom(newId, name, Ok(creator));
    r := reg.GetChannelByRoom(newId);
  }

  /** With the channel made, a created room is reachable through a real channel. */
  method CreatedRoomFixedHasChannel(newId: Uuid, name: string, creator: Player) returns (r: Result<ChanRef>)
    ensures r.Ok? && r.value.Chan?
  {
    var reg := new RoomRegistry();
    var _, _ := reg.CreateRoomFixed(newId, name, Ok(creator));
    r := reg.GetChannelByRoom(newId);
  }
}
