/**
 The room actor: one iteration of `roomCycle`, which takes one command off the
 room's inbound channel and acts on it. Player event channels are modelled as
 queues in `PlayersIndex` (the process-wide `playersIndex` map from player ID
 to channel); a send appends to the recipient's queue.
 */
module RoomActor {
  import opened Entities
  import opened Slices

  /** `n` copies of `ev`. */
  function Repeat(ev: PlayerEvent, n: nat): (r: seq<PlayerEvent>)
    ensures |r| == n
    ensures forall i :: 0 <= i < n ==> r[i] == ev
  {
    if n == 0 then [] else Repeat(ev, n - 1) + [ev]
  }

  /**
   The queues after `ev` has been sent once per entry of `recipients` whose ID
   has a registered channel. Every send of one fan-out carries the same event,
   so the order in which the concurrent sends land does not matter: a queue
   gains one copy of `ev` per recipient entry with its ID.
   */
  function Deliver(queues: map<Uuid, seq<PlayerEvent>>, recipients: seq<Player>, ev: PlayerEvent)
    : map<Uuid, seq<PlayerEvent>>
  {
    map k | k in queues :: queues[k] + Repeat(ev, CountId(recipients, k))
  }

  /** Sending to nobody leaves every queue as it was. */
  lemma DeliverNone(queues: map<Uuid, seq<PlayerEvent>>, ev: PlayerEvent)
    ensures Deliver(queues, [], ev) == queues
  {
    forall k | k in queues ensures Deliver(queues, [], ev)[k] == queues[k] {
      assert queues[k] + [] == queues[k];
    }
  }

  /** One more recipient: its queue (if it has one) gains exactly one event. */
  lemma DeliverSnoc(queues: map<Uuid, seq<PlayerEvent>>, recipients: seq<Player>, p: Player, ev: PlayerEvent)
    ensures var before := Deliver(queues, recipients, ev);
            Deliver(queues, recipients + [p], ev) ==
              if p.id in queues then before[p.id := before[p.id] + [ev]] else before
  {
    var s := recipients + [p];
    assert s[..|s| - 1] == recipients;
    var before := Deliver(queues, recipients, ev);
    var after := Deliver(queues, s, ev);
    if p.id in queues {
      var n := CountId(recipients, p.id);
      assert after[p.id] == queues[p.id] + Repeat(ev, n + 1);
      assert queues[p.id] + Repeat(ev, n + 1) == (queues[p.id] + Repeat(ev, n)) + [ev];
      assert after == before[p.id := before[p.id] + [ev]];
    } else {
      assert after == before;
    }
  }

  /** A channel is never created or dropped by a fan-out. */
  lemma DeliverKeys(queues: map<Uuid, seq<PlayerEvent>>, recipients: seq<Player>, ev: PlayerEvent)
    ensures Deliver(queues, recipients, ev).Keys == queues.Keys
  {
  }

  /** A player none of whose entries is among the recipients receives nothing. */
  lemma DeliverSkips(queues: map<Uuid, seq<PlayerEvent>>, recipients: seq<Player>, ev: PlayerEvent, k: Uuid)
    requires k in queues
    requires forall p :: p in recipients ==> p.id != k
    ensures Deliver(queues, recipients, ev)[k] == queues[k]
  {
    CountIdZero(recipients, k);
    assert queues[k] + [] == queues[k];
  }

  /** With distinct IDs, every recipient with a channel receives exactly one event. */
  lemma DeliverOnce(queues: map<Uuid, seq<PlayerEvent>>, recipients: seq<Player>, ev: PlayerEvent, p: Player)
    requires IdsDistinct(recipients)
    requires p in recipients && p.id in queues
    ensures Deliver(queues, recipients, ev)[p.id] == queues[p.id] + [ev]
  {
    CountIdDistinct(recipients, p);
    assert Repeat(ev, 1) == [ev];
  }

  /** The per-player event channels, keyed by player ID. */
  class PlayersIndex {
    var queues: map<Uuid, seq<PlayerEvent>>

    constructor (queues: map<Uuid, seq<PlayerEvent>>)
      ensures this.queues == queues
    {
      this.queues := queues;
    }

    /**
     The `iter.ForEach` fan-out: for each recipient whose ID has a channel,
     push `ev` into that channel.
     */
    method Broadcast(recipients: seq<Player>, ev: PlayerEvent)
      modifies this
      ensures queues == Deliver(old(queues), recipients, ev)
    {
      DeliverNone(queues, ev);
      var i := 0;
      while i < |recipients|
        invariant 0 <= i <= |recipients|
        invariant queues == Deliver(old(queues), recipients[..i], ev)
      {
        var player := recipients[i];
        assert recipients[..i + 1] == recipients[..i] + [player];
        DeliverSnoc(old(queues), recipients[..i], player, ev);
        if player.id in queues {
          queues := queues[player.id := queues[player.id] + [ev]];
        }
        i := i + 1;
      }
      assert recipients[..i] == recipients;
    }
  }

  /**
   The state a room actor owns: the room's identity and its member list
   (`room.Players`), which only the actor itself reassigns.
   */
  class Room {
    const id: Uuid
    const name: string
    var members: seq<Player>

    /** The member list holds no player twice. */
    ghost predicate Valid()
      reads this
    {
      NoDuplicates(members)
    }

    /** Initial state of the actor started for `room`. */
    constructor (room: RoomRecord)
      ensures id == room.id && name == room.name && members == room.players
    {
      id := room.id;
      name := room.name;
      members := room.players;
    }

    /**
     One iteration of the actor loop for command `cmd`.
       Joined: notify the current members, then add the joiner without repetition.
       Leave:  remove the leaver, then notify the members who remain.
       other:  nothing.
     `alive` is false when the step panics: `deleteElement` on an empty member
     list cannot allocate its result, which stops the process; nothing is
     changed in that case.
     */
    method Step(cmd: RoomCmd, index: PlayersIndex) returns (alive: bool)
      modifies this, index
      ensures alive <==> !(cmd.cmdType == Leave && old(members) == [])
      ensures cmd.cmdType == Joined ==>
                && index.queues == Deliver(old(index.queues), old(members), RoomJoined(cmd.player))
                && members == Dedup(old(members) + [cmd.player])
      ensures cmd.cmdType == Leave && alive ==>
                && members == FilterOut(old(members), cmd.playerId)
                && index.queues == Deliver(old(index.queues), members, RoomLeave(cmd.playerId))
      ensures cmd.cmdType != Joined && !(cmd.cmdType == Leave && alive) ==>
                members == old(members) && index.queues == old(index.queues)
      ensures old(Valid()) ==> Valid()
    {
      alive := true;
      if cmd.cmdType == Joined {
        var joiner := cmd.player;
        index.Broadcast(members, RoomJoined(joiner));
        var newPlayers, _ := UniqueSliceElements(members + [joiner]);
        members := newPlayers;
      } else if cmd.cmdType == Leave {
        var leaver := cmd.playerId;
        if members == [] {
          alive := false;
        } else {
          var newPlayers := DeleteElement(members, leaver);
          if NoDuplicates(members) {
            FilterOutNoDuplicates(members, leaver);
          }
          members := newPlayers;
          index.Broadcast(members, RoomLeave(leaver));
        }
      }
    }
  }

  // ---------------------------------------------------------------------------
  // What the two membership commands promise
  // ---------------------------------------------------------------------------

  /**
   Joined broadcasts before the joiner is added: a joiner that was not yet a
   member gets no event about itself.
   */
  lemma JoinerNotNotified(queues: map<Uuid, seq<PlayerEvent>>, members: seq<Player>, joiner: Player)
    requires joiner.id in queues
    requires forall p :: p in members ==> p.id != joiner.id
    ensures Deliver(queues, members, RoomJoined(joiner))[joiner.id] == queues[joiner.id]
  {
    DeliverSkips(queues, members, RoomJoined(joiner), joiner.id);
  }

  /** Joined: after the step, the member list holds no repetition. */
  lemma JoinedMembersUnique(members: seq<Player>, joiner: Player)
    ensures NoDuplicates(Dedup(members + [joiner]))
    ensures forall p :: p in Dedup(members + [joiner]) <==> p in members || p == joiner
  {
    DedupNoDuplicates(members + [joiner]);
    DedupElements(members + [joiner]);
  }

  /** Joined is idempotent: re-joining a member leaves the list unchanged. */
  lemma JoinIdempotent(members: seq<Player>, joiner: Player)
    requires NoDuplicates(members)
    ensures joiner in members ==> Dedup(members + [joiner]) == members
    ensures joiner !in members ==> Dedup(members + [joiner]) == members + [joiner]
  {
    DedupIdentity(members);
    assert (members + [joiner])[..|members + [joiner]| - 1] == members;
  }

  /** Leave removes the leaver first, so the leaver gets no RoomLeave event. */
  lemma LeaverNotNotified(queues: map<Uuid, seq<PlayerEvent>>, members: seq<Player>, leaver: Uuid)
    requires leaver in queues
    ensures Deliver(queues, FilterOut(members, leaver), RoomLeave(leaver))[leaver] == queues[leaver]
  {
    FilterOutElements(members, leaver);
    DeliverSkips(queues, FilterOut(members, leaver), RoomLeave(leaver), leaver);
  }

  /**
   Leave: with distinct member IDs, every remaining member with a channel
   receives exactly one RoomLeave carrying the leaver's ID.
   */
  lemma RemainingNotifiedOnce(queues: map<Uuid, seq<PlayerEvent>>, members: seq<Player>, leaver: Uuid, p: Player)
    requires IdsDistinct(members)
    requires p in members && p.id != leaver && p.id in queues
    ensures Deliver(queues, FilterOut(members, leaver), RoomLeave(leaver))[p.id] ==
              queues[p.id] + [RoomLeave(leaver)]
  {
    var rest := FilterOut(members, leaver);
    FilterOutElements(members, leaver);
    assert IdsDistinct(rest) by {
      FilterOutDistinct(members, leaver);
    }
    DeliverOnce(queues, rest, RoomLeave(leaver), p);
  }

  /** Filtering keeps IDs distinct. */
  lemma {:induction false} FilterOutDistinct(players: seq<Player>, id: Uuid)
    requires IdsDistinct(players)
    ensures IdsDistinct(FilterOut(players, id))
    decreases |players|
  {
    if players != [] {
      var q := players[..|players| - 1];
      var x := players[|players| - 1];
      assert IdsDistinct(q) by {
        forall i, j | 0 <= i < j < |q| ensures q[i].id != q[j].id {
          assert q[i] == players[i] && q[j] == players[j];
        }
      }
      FilterOutDistinct(q, id);
      FilterOutElements(q, id);
      var f := FilterOut(q, id);
      if x.id != id {
        forall r | r in f ensures r.id != x.id {
          var i :| 0 <= i < |q| && q[i] == r;
          assert players[i] == r;
        }
        forall i, j | 0 <= i < j < |f + [x]| ensures (f + [x])[i].id != (f + [x])[j].id {
          if j == |f| {
            assert (f + [x])[i] in f;
          } else {
            assert (f + [x])[i] == f[i] && (f + [x])[j] == f[j];
          }
        }
      }
    }
  }
}
