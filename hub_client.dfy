/**
 * The load client's hub receiver (DummyClient/ClientReceiver.cs): a map of the
 * players it has heard of and the id of its own player. Every event touches only the
 * entry of the player it names.
 */
module HubClient {
  import opened Numerics
  import opened Contracts

  datatype HubEvent = Joined(player: PlayerInfo) | Left(playerId: int32) | Moved(player: PlayerInfo)

  /** The player an event is about. */
  function Subject(e: HubEvent): int32
  {
    if e.Left? then e.playerId else e.player.playerId
  }

  /** The player map after an event: joins and moves upsert, leaves remove (absent: no-op). */
  function Apply(m: map<int32, PlayerInfo>, e: HubEvent): (r: map<int32, PlayerInfo>)
    ensures forall k :: k != Subject(e) ==> (k in r <==> k in m) && (k in m ==> r[k] == m[k])
    ensures e.Left? ==> Subject(e) !in r
    ensures !e.Left? ==> Subject(e) in r && r[Subject(e)] == e.player
  {
    match e
    case Joined(p) => m[p.playerId := p]
    case Left(id) => m - {id}
    case Moved(p) => m[p.playerId := p]
  }

  /** Events about different players commute. */
  lemma EventsOnDifferentPlayersCommute(m: map<int32, PlayerInfo>, e1: HubEvent, e2: HubEvent)
    requires Subject(e1) != Subject(e2)
    ensures Apply(Apply(m, e1), e2) == Apply(Apply(m, e2), e1)
  {
    var a, b := Apply(Apply(m, e1), e2), Apply(Apply(m, e2), e1);
    assert a.Keys == b.Keys;
    forall k | k in a
      ensures a[k] == b[k]
    {
    }
  }

  class ClientReceiver {
    var players: map<int32, PlayerInfo>
    var selfId: int32

    constructor ()
      ensures players == map[] && selfId == 0
    {
      players := map[];
      selfId := 0;
    }

    method SetSelf(id: int32)
      modifies this`selfId
      ensures selfId == id
    {
      selfId := id;
    }

    method OnPlayerJoined(p: PlayerInfo)
      modifies this`players
      ensures players == Apply(old(players), Joined(p))
    {
      players := players[p.playerId := p];
    }

    method OnPlayerLeft(id: int32)
      modifies this`players
      ensures players == Apply(old(players), Left(id))
    {
      players := players - {id};
    }

    /** Upserts the entry alike for every player; `ack` is whether it is this client's own move. */
    method OnPlayerMoved(p: PlayerInfo) returns (ack: bool)
      modifies this`players
      ensures players == Apply(old(players), Moved(p))
      ensures ack <==> p.playerId == selfId
    {
      players := players[p.playerId := p];
      ack := p.playerId == selfId;
    }
  }
}
