/**
  The matchmaking service of a connection, from a parsed request to the bytes of its reply, and the
  bytes a connection sends over a whole run (internal/online/lobby/lsg.go).
 */
module LobbyReplies {
  import opened Bytes
  import opened MatchmakingTypes
  import opened Outputs
  import B = ByteBuffer
  import C = Crypto
  import E = Envelope
  import F = Frame
  import L = EventLog
  import Lobby
  import LobbySafety
  import Laws = MatchLaws
  import M = MatchStore
  import Mm = Matchmaking
  import O = Outbox
  import Seqs

  // ---------- the matchmaking service ----------

  /** The results of a search. */
  ghost function FoundBy(m: M.Matches, q: Mm.Request): Outcome
    requires |Seqs.Filter(m.list, M.Answers(q.query))| < U32_LIMIT
  {
    var all := Seqs.Filter(m.list, M.Answers(q.query));
    Found(M.Infos(M.Page(all, q.offset, q.maxResults)), |all|)
  }

  /**
    What serving a request does to the match table and what it replies; no reply when the
    connection ends instead.
   */
  ghost function Served(m: M.Matches, limits: M.Limits, owner: u64, q: Mm.Request, random: Option<seq<SessionID>>)
    : (M.Matches, Option<Outcome>)
    requires m.nextOrder + 1 < U64_LIMIT && |m.list| < U32_LIMIT
  {
    if q.task == Mm.TASK_CREATE then
      var (after, r) := M.AfterCreate(m, limits, owner, q.info, random);
      (after, if r.Ok? then Some(Created(r.value.sessionID)) else None)
    else if q.task == Mm.TASK_UPDATE then
      var (after, r) := M.AfterUpdate(m, owner, q.sessionID, q.info);
      (after, if r.Ok? || r.error == M.SessionMiss then Some(Plain(q.task)) else None)
    else if q.task == Mm.TASK_DELETE then
      var (after, r) := M.AfterDelete(m, owner, q.sessionID);
      (after, if r.Ok? || r.error == M.SessionMiss then Some(Plain(q.task)) else None)
    else if q.task == Mm.TASK_FIND then
      var found := FoundBy(m, q);
      (m, if Fits(Reply(0, found)) then Some(found) else None)
    else (m, None)
  }

  /**
    What a client can conclude from being answered: a creation (task 1) is answered exactly when a match
    was added, with its ID; an update (2) or removal (3) exactly unless it is malformed or the match is
    somebody else's, so that a match that is gone is acknowledged too; a search (5) with the page and total.
   */
  lemma ServedMeans(m: M.Matches, limits: M.Limits, owner: u64, q: Mm.Request, random: Option<seq<SessionID>>)
    requires M.WellFormed(m) && m.nextOrder + 1 < U64_LIMIT && |m.list| < U32_LIMIT
    ensures var (after, answer) := Served(m, limits, owner, q, random);
            && (q.task == 1 ==>
                  && (answer.None? ==> after == m)
                  && (answer.Some? ==> |after.list| == |m.list| + 1 && after.list[..|m.list|] == m.list
                                       && answer.value == Created(after.list[|m.list|].info.sessionID)))
            && (q.task == 2 || q.task == 3 ==>
                  && (answer.None? <==>
                        || (q.task == 2 && (owner == 0 || !Laws.Announceable(q.info)))
                        || exists x :: x in m.list && x.info.sessionID == q.sessionID && x.owner != owner)
                  && (answer.Some? ==> answer.value == Plain(q.task))
                  && (answer.None? || (forall x | x in m.list :: x.info.sessionID != q.sessionID) ==> after == m))
            && (q.task == 5 ==>
                  && after == m
                  && var (results, total) := M.FindResult(m.list, q.query, q.offset, q.maxResults);
                     answer == if total < U32_LIMIT && Fits(Reply(0, Found(results, total))) then Some(Found(results, total)) else None)
            && (q.task !in {1, 2, 3, 5} ==> after == m && answer.None?)
  {
    hide Seqs.Filter, M.PickId;
    if q.task == 2 || q.task == 3 {
      assert M.ValidInfo(q.info) <==> Laws.Announceable(q.info);
      OwnersAgree(m, q.sessionID, owner);
    }
    hide M.ValidInfo, Laws.Announceable, M.HasId, M.OwnsId, M.WellFormed, Fits;
  }

  /** A match has one owner. */
  lemma OwnersAgree(m: M.Matches, id: SessionID, owner: u64)
    requires M.WellFormed(m)
    ensures M.HasId(m.list, id) <==> exists x :: x in m.list && x.info.sessionID == id
    ensures M.HasId(m.list, id) && !M.OwnsId(m.list, id, owner) <==> exists x :: x in m.list && x.info.sessionID == id && x.owner != owner
  {
    if M.HasId(m.list, id) {
      var i :| 0 <= i < |m.list| && m.list[i].info.sessionID == id;
      assert m.list[i] in m.list;
      if M.OwnsId(m.list, id, owner) {
        forall x | x in m.list && x.info.sessionID == id ensures x.owner == owner {
          var y :| y in m.list && y.info.sessionID == id && y.owner == owner;
          M.SameIdSameMatch(m, x, y);
        }
      }
    }
    if x :| x in m.list && x.info.sessionID == id {
      var i :| 0 <= i < |m.list| && m.list[i] == x;
    }
  }

  datatype Failure = StoreRefused(reason: M.Error) | ResultRefused | UnsupportedTask

  /** handleMatchmaking: the table changes and the reply are the ones of Served. */
  method HandleMatchmaking(store: M.MemoryMatchmakingStore, connectionID: u64, tx: u64, q: Mm.Request, random: Option<seq<SessionID>>)
    returns (r: Result<seq<byte>, Failure>)
    requires store.Valid() && store.nextOrder + 1 < U64_LIMIT && |store.list| < U32_LIMIT && q.maxResults <= MAX_FIND_RESULTS
    modifies store
    ensures store.Valid()
    ensures store.View() == Served(old(store.View()), store.limits, connectionID, q, random).0
    ensures match Served(old(store.View()), store.limits, connectionID, q, random).1
            case Some(outcome) => Fits(Reply(tx, outcome)) && r == Ok(E.ClearBody(O.OutcomeBytes(tx, outcome)))
            case None => r.Err?
  {
    hide M.Consistent, L.TaskReply, B.Encode, B.EncodeAll, Seqs.Filter, M.PickId, M.ValidInfo, M.MatchesQuery, M.HasId, M.OwnsId;
    var logicalReply: seq<byte>;
    if q.task == Mm.TASK_CREATE {
      var created := store.Create(connectionID, q.info, random);
      if created.Err? {
        return Err(StoreRefused(created.error));
      }
      logicalReply := L.MarshalTaskReply(tx, q.task, L.STATUS_NO_ERROR, 1, 1);
      var writer := new B.ByteWriter(true);
      writer.WriteRaw(logicalReply);
      var wrote := writer.WriteBlob(created.value.sessionID);
      assert wrote.Ok?;
      assert writer.data == logicalReply + B.Encode(true, B.Blob(created.value.sessionID));
      logicalReply := writer.data;
      assert logicalReply == O.OutcomeBytes(tx, Created(created.value.sessionID));
    } else if q.task == Mm.TASK_UPDATE {
      var updated := store.Update(connectionID, q.sessionID, q.info);
      if updated.Err? && updated.error != M.SessionMiss {
        return Err(StoreRefused(updated.error));
      }
      logicalReply := L.MarshalTaskReply(tx, q.task, L.STATUS_NO_ERROR, 0, 0);
    } else if q.task == Mm.TASK_DELETE {
      var deleted := store.Delete(connectionID, q.sessionID);
      if deleted.Err? && deleted.error != M.SessionMiss {
        return Err(StoreRefused(deleted.error));
      }
      logicalReply := L.MarshalTaskReply(tx, q.task, L.STATUS_NO_ERROR, 0, 0);
    } else if q.task == Mm.TASK_FIND {
      var results, total := store.Find(q.query, q.offset, q.maxResults);
      PageSize(Seqs.Filter(store.list, M.Answers(q.query)), q.offset, q.maxResults);
      var reply := MarshalFound(tx, results, total);
      if reply.None? {
        return Err(ResultRefused);
      }
      logicalReply := reply.value;
      assert Found(results, total) == FoundBy(store.View(), q);
    } else {
      return Err(UnsupportedTask);
    }
    var body := E.MarshalClearTaskReplyBody(logicalReply);
    r := Ok(body);
  }

  lemma PageSize<T>(all: seq<T>, offset: nat, maximum: nat)
    ensures |M.Page(all, offset, maximum)| <= maximum
  {}

  /** The reply to a search, unless a result cannot be written. */
  method MarshalFound(tx: u64, results: seq<Info>, total: u32) returns (r: Option<seq<byte>>)
    requires |results| <= MAX_FIND_RESULTS
    ensures r.Some? <==> Fits(Reply(tx, Found(results, total)))
    ensures r.Some? ==> r.value == O.OutcomeBytes(tx, Found(results, total))
  {
    hide L.TaskReply, B.EncodeAll, Mm.ResultFields;
    var head := L.MarshalTaskReply(tx, Mm.TASK_FIND, L.STATUS_NO_ERROR, |results|, total);
    var writer := new B.ByteWriter(true);
    writer.WriteRaw(head);
    for i := 0 to |results|
      invariant forall j | 0 <= j < i :: ResultFits(results[j])
      invariant writer.data == head + O.ResultBytes(results[..i])
    {
      var wrote := Mm.WriteMatchmakingResult(writer, results[i]);
      if wrote.Err? {
        return None;
      }
      assert results[..i + 1][..i] == results[..i];
      assert (head + O.ResultBytes(results[..i])) + B.EncodeAll(true, Mm.ResultFields(results[i]))
          == head + (O.ResultBytes(results[..i]) + B.EncodeAll(true, Mm.ResultFields(results[i])));
    }
    assert results[..|results|] == results;
    r := Some(writer.data);
  }

  /** writeConnectionID: an eleven-byte body filled in place. */
  method MarshalConnectionID(p: C.Primitives, key: C.SessionKey, id: u64) returns (body: array<byte>)
    requires C.Sound(p)
    ensures body[..] == O.Body(p, key, ConnectionID(id)) && body.Length == 11
  {
    hide LE64;
    body := new byte[11](_ => 0);
    body[0] := 0;
    body[1] := O.LSG_CONNECTION_ID_MESSAGE;
    body[2] := B.TYPE_UINT64;
    var encoded := LE64(id);
    for i := 0 to 8
      invariant body[0] == 0 && body[1] == O.LSG_CONNECTION_ID_MESSAGE && body[2] == B.TYPE_UINT64
      invariant forall j | 0 <= j < i :: body[3 + j] == encoded[j]
    {
      body[3 + i] := encoded[i];
    }
    assert body[..] == [0, O.LSG_CONNECTION_ID_MESSAGE] + ([B.TYPE_UINT64] + encoded);
  }

  // ---------- the protocol serves the same ----------

  /** The call the protocol makes for a request. */
  function CallOf(q: Mm.Request, random: Option<seq<SessionID>>): Lobby.MatchCall
    requires Mm.Supported(q.task)
  {
    if q.task == Mm.TASK_CREATE then Lobby.CallCreate(q.info, random)
    else if q.task == Mm.TASK_UPDATE then Lobby.CallUpdate(q.sessionID, q.info)
    else if q.task == Mm.TASK_DELETE then Lobby.CallDelete(q.sessionID)
    else Lobby.CallFind(q.query, q.offset, q.maxResults)
  }

  /**
    A step of the protocol changes the table and replies as serving the identity-bound request does,
    and leaves when that gives no reply; the results of a search are those stored, so that they fit.
   */
  lemma StepServes(s: Lobby.State, c: Lobby.Ref, k: Lobby.Conn, q: Mm.Request, random: Option<seq<SessionID>>)
    requires k.pc == Lobby.Serving && k.account.Some? && Mm.Supported(q.task) && q.maxResults <= MAX_FIND_RESULTS
    requires s.matches.nextOrder + 1 < U64_LIMIT && |s.matches.list| < U32_LIMIT
    requires forall m | m in s.matches.list :: ResultFits(m.info)
    ensures var bound := Mm.BindMatchmakingIdentity(q, k.account.value.username);
            Lobby.StepMatch(s, c, k, CallOf(q, random))
            == Some(match bound
                    case Err(_) => Lobby.With(s, c, k.(pc := Lobby.Leaving))
                    case Ok(b) =>
                      var (after, outcome) := Served(s.matches, s.config.matches, k.id, b, random);
                      var pc := if outcome.Some? then Lobby.Replying(outcome.value) else Lobby.Leaving;
                      Lobby.With(s.(matches := after), c, k.(pc := pc)))
  {
    hide Seqs.Filter, M.PickId, M.ValidInfo, M.HasId, M.OwnsId, ResultFits;
    if q.task == Mm.TASK_FIND {
      var all := Seqs.Filter(s.matches.list, M.Answers(q.query));
      var page := M.Page(all, q.offset, q.maxResults);
      forall i | 0 <= i < |page| ensures ResultFits(page[i].info) {
        Seqs.FilterMember(s.matches.list, M.Answers(q.query), page[i]);
      }
    }
  }

  // ---------- whole runs ----------

  lemma {:induction false} NumbersBelow(items: seq<Sent>, i: nat)
    requires i < |items| && items[i].Reply?
    ensures items[i].tx in ReplyNumbers(items)
  {
    if i < |items| - 1 {
      NumbersBelow(items[..|items| - 1], i);
    }
  }

  /**
    In every run, as long as no write on a connection has failed, what it has sent parses to whole
    records, and the task replies among them are numbered 0, 1, 2, ... however many pushes other
    connections put between them.
   */
  lemma ConnectionOutputParses(config: Lobby.Config, states: seq<Lobby.State>, events: seq<Lobby.Event>, i: nat, c: Lobby.Ref,
                               p: C.Primitives, key: C.SessionKey)
    requires LobbySafety.IsRun(config, states, events) && i < |states| && c in states[i].conns
    requires C.Sound(p) && !states[i].conns[c].broken && states[i].conns[c].tx <= U64_LIMIT
    ensures var k := states[i].conns[c];
            && (forall n | 0 <= n < |k.out| :: O.Sendable(k.out[n]))
            && var records := F.ParseAll(O.Wire(p, key, k.out), 0);
               records.Some? && |records.value| == |k.out| && O.Transactions(records.value) == Upto(k.tx)
  {
    LobbySafety.RepliesInOrder(config, states, events, i, c);
    hide C.Sound, O.Wire, O.Body, LobbySafety.IsRun, F.ParseAll, O.Transactions, ReplyNumbers, Fits;
    var k := states[i].conns[c];
    forall n | 0 <= n < |k.out| ensures O.Sendable(k.out[n]) {
      if k.out[n].Reply? {
        NumbersBelow(k.out, n);
        assert k.out[n].tx in Upto(k.tx);
      }
    }
    O.OutputParses(p, key, k.out);
  }
}
