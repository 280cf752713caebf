/** What the lobby writes on a connection, before encoding (internal/online/lobby). */
module Outputs {
  import opened Bytes
  import opened MatchmakingTypes

  const MAX_MESSAGE := 4096
  const MAX_SENDER_NAME := 63

  /** The body of a task reply after its transaction number. */
  datatype Outcome =
    | Plain(task: byte)
    | Created(id: SessionID)
    | Found(results: seq<Info>, total: u32)

  datatype Sent =
    | ConnectionID(id: u64)
    | Echo
    | Reply(tx: nat, outcome: Outcome)
    | Push(seed: u32, sender: u64, name: seq<byte>, message: seq<byte>)

  predicate ResultFits(info: Info) {
    && |info.hostAddress| <= MAX_HOST_ADDRESS
    && |info.attributes.text130| <= MAX_TEXT
    && 0 !in info.attributes.text130
  }

  /** The size bounds every written item respects. */
  predicate Fits(item: Sent) {
    match item
    case ConnectionID(_) => true
    case Echo => true
    case Reply(_, Plain(_)) => true
    case Reply(_, Created(_)) => true
    case Reply(_, Found(results, _)) =>
      |results| <= MAX_FIND_RESULTS && forall i | 0 <= i < |results| :: ResultFits(results[i])
    case Push(_, _, name, message) => |name| <= MAX_SENDER_NAME && 0 !in name && |message| <= MAX_MESSAGE
  }

  /** The transaction numbers of the replies in items, in order. */
  function ReplyNumbers(items: seq<Sent>): seq<nat> {
    if items == [] then []
    else ReplyNumbers(items[..|items| - 1])
         + match items[|items| - 1] case Reply(tx, _) => [tx] case _ => []
  }

  lemma ReplyNumbersSnoc(items: seq<Sent>, item: Sent)
    ensures ReplyNumbers(items + [item]) == ReplyNumbers(items) + if item.Reply? then [item.tx] else []
  {
    assert (items + [item])[..|items|] == items;
  }

  /** 0, 1, ..., n - 1. */
  function Upto(n: nat): (s: seq<nat>)
    ensures |s| == n && forall i | 0 <= i < n :: s[i] == i
  {
    seq(n, i => i)
  }
}
