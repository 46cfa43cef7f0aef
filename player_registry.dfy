/**
 The player registry: `players`, from player ID to that player's outbound
 channel, guarded by `playersMutex`. `AddPlayerConnection` is get-or-create
 on it. The mutex is a flag: `Lock` on a held mutex blocks, and in this
 registry nothing else could release it, so such a call never returns.
 */
module Players {
  import opened Entities

  /** How a call ended: blocked for ever on the mutex, or returned. */
  datatype Call = Blocked | Returned(channel: ChanRef, err: Option<Error>)

  class PlayerRegistry {
    /** `players`: player ID to event channel; `None` while still nil. */
    var players: Option<map<Uuid, ChanRef>>
    /** Whether `playersMutex` is held. */
    var locked: bool
    /** The handle the next `make(chan string)` returns. */
    var nextChan: nat

    /** Every registered channel was made, and no two players share one. */
    ghost predicate Valid()
      reads this
    {
      && (forall k :: k in Entries(players) ==> Entries(players)[k].Chan?)
      && ChannelsBelow(Entries(players), nextChan)
      && ChannelsDistinct(Entries(players))
    }

    constructor ()
      ensures Valid() && players == None && !locked && nextChan == 0
    {
      players := None;
      locked := false;
      nextChan := 0;
    }

    /**
     AddPlayerConnection as written. The early return for an already
     registered ID returns without unlocking, so the mutex stays held.
     */
    method AddPlayerConnection(id: Uuid) returns (r: Call)
      requires Valid()
      modifies this
      ensures Valid()
      ensures old(locked) ==>
                r == Blocked && players == old(players) && locked && nextChan == old(nextChan)
      ensures !old(locked) && id in Entries(old(players)) ==>
                && r == Returned(Entries(old(players))[id], None)
                && players == Some(Entries(old(players)))
                && locked
                && nextChan == old(nextChan)
      ensures !old(locked) && id !in Entries(old(players)) ==>
                && r == Returned(Chan(old(nextChan)), None)
                && players == Some(Entries(old(players))[id := Chan(old(nextChan))])
                && !locked
                && nextChan == old(nextChan) + 1
    {
      if locked {
        return Blocked;
      }
      locked := true;
      if players.None? {
        players := Some(map[]);
      }
      var index := players.value;
      if id in index {
        return Returned(index[id], None);
      }
      var c := Chan(nextChan);
      nextChan := nextChan + 1;
      players := Some(index[id := c]);
      locked := false;
      r := Returned(c, None);
    }

    /**
     AddPlayerConnection with the mutex released on every path, as a deferred
     unlock would: check and insert stay one critical section.
     */
    method AddPlayerConnectionFixed(id: Uuid) returns (r: Call)
      requires Valid()
      requires !locked
      modifies this
      ensures Valid() && !locked
      ensures id in Entries(old(players)) ==>
                && r == Returned(Entries(old(players))[id], None)
                && players == Some(Entries(old(players)))
                && nextChan == old(nextChan)
      ensures id !in Entries(old(players)) ==>
                && r == Returned(Chan(old(nextChan)), None)
                && players == Some(Entries(old(players))[id := Chan(old(nextChan))])
                && nextChan == old(nextChan) + 1
      ensures forall k :: k in Entries(old(players)) && k != id ==>
                Entries(players)[k] == Entries(old(players))[k] && Entries(players)[k] != r.channel
    {
      locked := true;
      if players.None? {
        players := Some(map[]);
      }
      var index := players.value;
      if id in index {
        locked := false;
        return Returned(index[id], None);
      }
      var c := Chan(nextChan);
      nextChan := nextChan + 1;
      players := Some(index[id := c]);
      locked := false;
      r := Returned(c, None);
    }
  }

  /**
   As written, a second connection of the same player leaves the mutex held,
   so a third connection attempt blocks for ever.
   */
  method ReconnectLeavesMutexHeld(id: Uuid) returns (first: Call, second: Call, third: Call)
    ensures first.Returned? && first.channel.Chan? && first.err == None
    ensures second == first
    ensures third == Blocked
  {
    var registry := new PlayerRegistry();
    first := registry.AddPlayerConnection(id);
    second := registry.AddPlayerConnection(id);
    third := registry.AddPlayerConnection(id);
  }

  /**
   With the mutex released, registration is idempotent: every call for the
   same ID returns the one channel stored for it, and a call for another ID
   gets a different channel.
   */
  method ReconnectFixedIsIdempotent(id: Uuid, other: Uuid) returns (first: Call, second: Call, third: Call, another: Call)
    requires other != id
    ensures first.Returned? && first.channel.Chan? && first.err == None
    ensures second == first && third == first
    ensures another.Returned? && another.channel.Chan? && another.channel != first.channel
  {
    var registry := new PlayerRegistry();
    first := registry.AddPlayerConnectionFixed(id);
    second := registry.AddPlayerConnectionFixed(id);
    another := registry.AddPlayerConnectionFixed(other);
    third := registry.AddPlayerConnectionFixed(id);
  }
}
