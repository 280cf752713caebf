/** The records of internal/online/lobby/matchmaking.go. Go strings are byte sequences. */
module MatchmakingTypes {
  import opened Bytes

  const SESSION_ID_SIZE := 8
  const MAX_HOST_ADDRESS := 255
  const MAX_TEXT := 31
  const MAX_FIND_RESULTS := 50
  const WILDCARD_KEY: u32 := 5381

  type SessionID = s: seq<byte> | |s| == SESSION_ID_SIZE witness [0, 0, 0, 0, 0, 0, 0, 0]

  datatype Attributes = Attributes(
    u11c: u32, u120: u32, u128: u64, text130: seq<byte>, u154: u32, u158: u32, i15c: i32)

  datatype Info = Info(
    hostAddress: seq<byte>, sessionID: SessionID,
    gameType: u32, maxPlayers: u32, numPlayers: u32, attributes: Attributes)

  datatype Query = Query(key: u32, value: i32)
}
