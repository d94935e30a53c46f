/**
 * Data shapes shared by the game server and its clients: a position and the
 * player record handed to hub receivers. Positions are C# `float`s that the core
 * only copies, never computes with, so they are modelled as reals.
 */
module Contracts {
  import opened Numerics

  datatype Vector3 = Vector3(x: real, y: real, z: real)

  /** `PlayerInfo`: who a player is and where it stands. */
  datatype PlayerInfo = PlayerInfo(playerId: int32, name: string, position: Vector3)
}
