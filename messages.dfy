/**
 * The decoded packets the framing layer hands to the FlatBuffers codec and the
 * packets the server builds. The codec itself (`FlatMessageHelper`) is not part of
 * this model: a frame is parsed by an abstract function into an optional
 * `Message`, and building a packet is the `Message` value itself. Absent tables
 * and absent positions of the schema are `None`.
 */
module Messages {
  import opened Numerics
  import opened Optional
  import opened Contracts

  /** One entry of a player list. */
  datatype Entry = Entry(isSelf: bool, playerId: int32, pos: Option<Vector3>)

  /** The packet union, one variant per packet kind the core routes on. */
  datatype Message =
    | CMove(pos: Option<Vector3>)
    | CLeaveGame
    | MoveReq(playerId: int32, pos: Option<Vector3>)
    | MoveRes(playerId: int32, pos: Option<Vector3>)
    | SBroadcastEnterGame(playerId: int32, pos: Option<Vector3>)
    | SBroadcastLeaveGame(leaver: Option<int32>)
    | SBroadcastMove(playerId: int32, pos: Option<Vector3>)
    | SPlayerList(players: Option<seq<Option<Entry>>>)
    | OtherKind(kind: int)

  /** A parser of frames, as the codec provides it: the whole frame in, a message or nothing out. */
  type Parser = seq<byte> -> Option<Message>
}
