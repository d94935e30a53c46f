/**
 * The hub server's room bookkeeping (Game.Server/Rooms): players with a fixed id and
 * name and a movable position, rooms that number their players 1, 2, 3, … and a
 * registry that creates rooms by name on first use.
 */
module Rooms {
  import opened Numerics
  import opened Contracts

  class PlayerState {
    const playerId: int32
    const name: string
    var position: Vector3

    constructor (id: int32, playerName: string, initial: Vector3)
      ensures playerId == id && name == playerName && position == initial
    {
      playerId := id;
      name := playerName;
      position := initial;
    }

    /** The position is replaced; id and name are constants and cannot change. */
    method UpdatePosition(p: Vector3)
      modifies this`position
      ensures position == p
    {
      position := p;
    }
  }

  class RoomState {
    const name: string
    var players: map<int32, PlayerState>
    var nextPlayerId: int32
    /** How many ids `AddPlayer` has handed out. */
    ghost var issued: nat

    /**
     * Every player is stored under its own id, and until the counter wraps it equals
     * the ids issued and every stored id is one of them.
     */
    ghost predicate Valid()
      reads this
    {
      && (forall k :: k in players ==> players[k].playerId == k)
      && (issued < TWO_31 ==> nextPlayerId == issued && forall k :: k in players ==> 1 <= k <= issued)
    }

    constructor (roomName: string)
      ensures name == roomName && players == map[] && issued == 0 && Valid()
    {
      name := roomName;
      players := map[];
      nextPlayerId := 0;
      issued := 0;
    }

    /**
     * `AddPlayer`: the next id, a new player with the given name and position stored
     * under it (replacing whatever was there). Before the counter wraps the id is
     * always one never handed out before.
     */
    method AddPlayer(playerName: string, initial: Vector3) returns (p: PlayerState)
      requires Valid()
      modifies this`players, this`nextPlayerId, this`issued
      ensures Valid() && issued == old(issued) + 1
      ensures nextPlayerId == Wrap32(old(nextPlayerId) + 1)
      ensures fresh(p) && p.playerId == nextPlayerId && p.name == playerName && p.position == initial
      ensures players == old(players)[p.playerId := p]
      ensures issued < TWO_31 ==> p.playerId == issued && p.playerId !in old(players)
    {
      nextPlayerId := Wrap32(nextPlayerId + 1);
      issued := issued + 1;
      p := new PlayerState(nextPlayerId, playerName, initial);
      players := players[nextPlayerId := p];
    }

    /** `TryRemove`: true with the removed player iff the id was present; otherwise nothing changes. */
    method TryRemove(id: int32) returns (ok: bool, p: PlayerState?)
      requires Valid()
      modifies this`players
      ensures Valid()
      ensures ok <==> id in old(players)
      ensures ok ==> p == old(players)[id] && players == old(players) - {id}
      ensures !ok ==> p == null && players == old(players)
    {
      if id in players {
        ok, p := true, players[id];
        players := players - {id};
      } else {
        ok, p := false, null;
      }
    }

    /** `TryGet`: true with the stored player iff the id is present. */
    function TryGet(id: int32): (r: (bool, PlayerState?))
      reads this
      ensures r.0 <==> id in players
      ensures r.0 ==> r.1 == players[id]
      ensures !r.0 ==> r.1 == null
    {
      if id in players then (true, players[id]) else (false, null)
    }

    /** `Snapshot`: every current player exactly once, in the dictionary's order. */
    method Snapshot() returns (snap: seq<PlayerState>)
      requires Valid()
      ensures |snap| == |players|
      ensures forall k :: k in players ==> players[k] in snap
      ensures forall i :: 0 <= i < |snap| ==> snap[i].playerId in players && players[snap[i].playerId] == snap[i]
      ensures forall i, j :: 0 <= i < j < |snap| ==> snap[i] != snap[j]
    {
      snap := [];
      var left := players.Keys;
      while left != {}
        invariant left <= players.Keys
        invariant |snap| + |left| == |players.Keys|
        invariant forall k :: k in players ==> (players[k] in snap <==> k !in left)
        invariant forall i :: 0 <= i < |snap| ==> snap[i].playerId in players && players[snap[i].playerId] == snap[i]
        invariant forall i, j :: 0 <= i < j < |snap| ==> snap[i] != snap[j]
        decreases |left|
      {
        var k :| k in left;
        snap := snap + [players[k]];
        left := left - {k};
      }
    }
  }

  class RoomRegistry {
    var rooms: map<string, RoomState>

    /** Every room is stored under its own name. */
    ghost predicate Valid()
      reads this
    {
      forall n :: n in rooms ==> rooms[n].name == n
    }

    constructor ()
      ensures rooms == map[] && Valid()
    {
      rooms := map[];
    }

    /**
     * `GetOrAdd`: the room of that name, created empty on first use. Rooms are only
     * ever added, and asking again returns the same room.
     */
    method GetOrAdd(roomName: string) returns (room: RoomState)
      requires Valid()
      modifies this
      ensures Valid() && room.name == roomName
      ensures rooms == old(rooms)[roomName := room]
      ensures roomName in old(rooms) ==> room == old(rooms)[roomName]
      ensures roomName !in old(rooms) ==> fresh(room) && room.players == map[]
    {
      if roomName in rooms {
        room := rooms[roomName];
      } else {
        room := new RoomState(roomName);
        rooms := rooms[roomName := room];
      }
    }
  }

  /** Different names never share a room, because each room is stored under its own name. */
  lemma DistinctNames(reg: RoomRegistry, a: string, b: string)
    requires reg.Valid() && a in reg.rooms && b in reg.rooms && a != b
    ensures reg.rooms[a] != reg.rooms[b]
  {
    assert reg.rooms[a].name == a && reg.rooms[b].name == b;
  }
}
