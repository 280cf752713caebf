/**
  The lobby protocol: any number of lobby connections (internal/online/lobby/lsg.go, client.go) and
  ticket-issuing requests (internal/online/auth/handler.go) interleaved at every lock section, atomic
  counter and network write.

  A step of the system is one Event. Each connection is a thread of HandleTCP: `pc` says which
  shared-state access comes next, the other fields are its local variables. `issued` and `activated`
  are history: they record what has happened and no step depends on them.
 */
module Lobby {
  import opened Bytes
  import opened MatchmakingTypes
  import opened Outputs
  import S = LobbySessions
  import M = MatchStore
  import Seqs

  /** Identity of a connection: the lobbyClient pointer. */
  type Ref = int

  datatype Account = Account(userID: u64, username: seq<byte>, hash: u64)

  datatype Ticket = Ticket(session: S.Session, token: u64)

  datatype Pc =
    | Reading                  // waiting for a record
    | LookedUp                 // sessions.Lookup succeeded
    | Bound                    // the account was found and matches the ticket
    | Numbered                 // the connection has its number
    | Consumed                 // sessions.Consume succeeded
    | Displacing(victim: Ref)  // the registry replaced victim, which is still open
    | Serving                  // a request is ready to be dispatched
    | Delivering(to: Ref, message: seq<byte>)
    | Pushing(to: Ref, seed: u32, message: seq<byte>)  // holds a server seed of `to`
    | Dropping(to: Ref)        // the push to `to` failed
    | HangingUp(to: Ref)       // `to` is deactivated but still open
    | Replying(outcome: Outcome)
    | Leaving                  // HandleTCP is returning
    | Unregistered             // deferred deactivate done, DeleteOwner not yet
    | Done

  datatype Conn = Conn(
    peer: Option<S.Peer>, pc: Pc,
    ticket: Option<Ticket>, account: Option<Account>, id: u64,
    authenticated: bool, confirmed: bool, activated: bool,
    controls: nat, tx: nat, nextSeed: u32,
    closed: bool, broken: bool, out: seq<Sent>)

  /** One handleAccountForMMP request. */
  datatype Issuer =
    | Trying
    | Holding(seed: u32, token: u64)    // reserved, reply not yet written
    | Granted(seed: u32, token: u64)    // reply written
    | Refused                           // Reserve failed for good
    | Withdrawn(seed: u32, token: u64)  // writing the reply failed and the ticket was revoked

  datatype Config = Config(tickets: S.Limits, matches: M.Limits, maxControls: nat)

  datatype State = State(
    config: Config,
    accounts: map<u64, Account>,
    tickets: S.Tickets, issued: map<u64, S.Pending>,
    issuers: map<Ref, Issuer>,
    conns: map<Ref, Conn>, nextID: u64,
    registry: map<u64, Ref>,
    matches: M.Matches)

  datatype MatchCall =
    | CallCreate(info: Info, random: Option<seq<SessionID>>)
    | CallUpdate(id: SessionID, info: Info)
    | CallDelete(id: SessionID)
    | CallFind(query: Query, offset: u32, maximum: u32)

  datatype Event =
    | Register(account: Account)
    | Issue(a: Ref, session: S.Session, issuePeer: Option<S.Peer>, now: int)
    | Grant(a: Ref)
    | Withdraw(a: Ref)
    | Open(c: Ref, peer: Option<S.Peer>)
    | Control(c: Ref, keepalive: bool, written: bool)
    | Login(c: Ref, seed: u32, title: u32, now: int)
    | Bind(c: Ref)
    | Number(c: Ref)
    | SendNumber(c: Ref, written: bool)
    | Request(c: Ref, now: int)
    | Activate(c: Ref)
    | CloseDisplaced(c: Ref)
    | ServeEvent(c: Ref, task: byte)
    | ServeMatch(c: Ref, call: MatchCall)
    | ServeMessage(c: Ref, recipient: u64, message: seq<byte>)
    | TakeSeed(c: Ref)
    | Deliver(c: Ref, written: bool)
    | Drop(c: Ref)
    | CloseDropped(c: Ref)
    | SendReply(c: Ref, written: bool)
    | Fail(c: Ref)
    | Unregister(c: Ref)
    | Cleanup(c: Ref)

  function Init(config: Config): State {
    State(config, map[], S.Tickets(map[], 0), map[], map[], map[], 0, map[], M.Matches([], 0))
  }

  function Fresh(peer: Option<S.Peer>): Conn {
    Conn(peer, Reading, None, None, 0, false, false, false, 0, 0, 0, false, false, [])
  }

  function With(s: State, c: Ref, k: Conn): State {
    s.(conns := s.conns[c := k])
  }

  /** client.writeFrame: a closed connection only fails; a failed write may leave a partial frame. */
  function Written(k: Conn, item: Sent, ok: bool): Conn {
    if ok then k.(out := k.out + [item]) else k.(broken := true)
  }

  // ---------- the steps ----------

  ghost function StepIssue(s: State, a: Ref, session: S.Session, peer: Option<S.Peer>, now: int): Option<State> {
    if (a in s.issuers && s.issuers[a] != Trying)
       || session.userID !in s.accounts || s.accounts[session.userID].hash != session.accountHash
       || s.tickets.nextToken + 1 >= U64_LIMIT
    then None
    else
      var (tickets, r) := S.AfterReserve(s.tickets, s.config.tickets, session, peer, now);
      var s1 := s.(tickets := tickets);
      match r
      case Ok(token) =>
        Some(s1.(issued := s.issued[token := tickets.table[session.seed]],
                 issuers := s.issuers[a := Holding(session.seed, token)]))
      case Err(SeedCollision) => Some(s1.(issuers := s.issuers[a := Trying]))
      case Err(_) => Some(s1.(issuers := s.issuers[a := Refused]))
  }

  /** A keepalive or buffer-available record; only a limited number while the ticket is unproved. */
  function AfterControl(k: Conn, maxControls: nat, keepalive: bool, written: bool): Conn {
    var waiting := k.authenticated && !k.confirmed;
    var k1 := if waiting then k.(controls := k.controls + 1) else k;
    if waiting && k1.controls > maxControls then k1.(pc := Leaving)
    else if !keepalive then k1
    else if written then Written(k1, Echo, true)
    else Written(k1, Echo, false).(pc := Leaving)
  }

  ghost function StepControl(s: State, c: Ref, k: Conn, keepalive: bool, written: bool): Option<State> {
    if k.pc != Reading || (k.closed && written) then None
    else Some(With(s, c, AfterControl(k, s.config.maxControls, keepalive, written)))
  }

  ghost function StepLogin(s: State, c: Ref, k: Conn, seed: u32, title: u32, now: int): Option<State> {
    if k.pc != Reading || k.authenticated then None
    else
      var (tickets, r) := S.AfterLookup(s.tickets, seed, k.peer, now);
      var k1 := if r.Some? && r.value.session.titleID == title
                then k.(pc := LookedUp, ticket := Some(Ticket(r.value.session, r.value.token)))
                else k.(pc := Leaving);
      Some(With(s.(tickets := tickets), c, k1))
  }

  ghost function StepBind(s: State, c: Ref, k: Conn): Option<State> {
    if k.pc != LookedUp || k.ticket.None? then None
    else
      var user := k.ticket.value.session.userID;
      var found := user in s.accounts && s.accounts[user].hash == k.ticket.value.session.accountHash;
      Some(With(s, c, if found then k.(pc := Bound, account := Some(s.accounts[user])) else k.(pc := Leaving)))
  }

  ghost function StepNumber(s: State, c: Ref, k: Conn): Option<State> {
    if k.pc != Bound || s.nextID + 1 >= U64_LIMIT then None
    else Some(With(s.(nextID := s.nextID + 1), c, k.(pc := Numbered, id := s.nextID + 1)))
  }

  ghost function StepSendNumber(s: State, c: Ref, k: Conn, written: bool): Option<State> {
    if k.pc != Numbered || (k.closed && written) then None
    else
      var k1 := Written(k, ConnectionID(k.id), written);
      Some(With(s, c, if written then k1.(pc := Reading, authenticated := true) else k1.(pc := Leaving)))
  }

  ghost function StepRequest(s: State, c: Ref, k: Conn, now: int): Option<State> {
    if k.pc != Reading || !k.authenticated || k.ticket.None? then None
    else if k.confirmed then Some(With(s, c, k.(pc := Serving)))
    else
      var (tickets, r) := S.AfterConsume(s.tickets, k.ticket.value.session.seed, k.ticket.value.token, k.peer, now);
      var k1 := match r
                case Some(session) => k.(pc := Consumed, confirmed := true,
                                         ticket := Some(Ticket(session, k.ticket.value.token)))
                case None => k.(pc := Leaving);
      Some(With(s.(tickets := tickets), c, k1))
  }

  ghost function StepActivate(s: State, c: Ref, k: Conn): Option<State> {
    if k.pc != Consumed || k.account.None? then None
    else
      var h := k.account.value.hash;
      var next := if h in s.registry && s.registry[h] != c then Displacing(s.registry[h]) else Serving;
      Some(With(s.(registry := s.registry[h := c]), c, k.(pc := next, activated := true)))
  }

  /** Close is called on another connection. */
  ghost function Closed(s: State, victim: Ref): State {
    if victim in s.conns then With(s, victim, s.conns[victim].(closed := true)) else s
  }

  /** deactivate: removes exactly this client from the registry. */
  ghost function Deactivated(s: State, c: Ref, k: Conn): State {
    if k.account.Some? && k.account.value.hash in s.registry && s.registry[k.account.value.hash] == c
    then s.(registry := s.registry - {k.account.value.hash})
    else s
  }

  function BoundInfo(info: Info, username: seq<byte>): Info {
    info.(attributes := info.attributes.(text130 := username))
  }

  ghost function StepMatch(s: State, c: Ref, k: Conn, call: MatchCall): Option<State> {
    if k.pc != Serving || k.account.None? then None
    else
      var username := k.account.value.username;
      match call
      case CallCreate(info, random) =>
        if s.matches.nextOrder + 1 >= U64_LIMIT then None
        else if |username| > MAX_TEXT then Some(With(s, c, k.(pc := Leaving)))
        else
          var (matches, r) := M.AfterCreate(s.matches, s.config.matches, k.id, BoundInfo(info, username), random);
          var pc := if r.Ok? then Replying(Created(r.value.sessionID)) else Leaving;
          Some(With(s.(matches := matches), c, k.(pc := pc)))
      case CallUpdate(id, info) =>
        if |username| > MAX_TEXT then Some(With(s, c, k.(pc := Leaving)))
        else
          var (matches, r) := M.AfterUpdate(s.matches, k.id, id, BoundInfo(info, username));
          var pc := if r.Ok? || r.error == M.SessionMiss then Replying(Plain(2)) else Leaving;
          Some(With(s.(matches := matches), c, k.(pc := pc)))
      case CallDelete(id) =>
        var (matches, r) := M.AfterDelete(s.matches, k.id, id);
        var pc := if r.Ok? || r.error == M.SessionMiss then Replying(Plain(3)) else Leaving;
        Some(With(s.(matches := matches), c, k.(pc := pc)))
      case CallFind(query, offset, maximum) =>
        var all := Seqs.Filter(s.matches.list, M.Answers(query));
        if maximum > MAX_FIND_RESULTS || |all| >= U32_LIMIT then None
        else Some(With(s, c, k.(pc := Replying(Found(M.Infos(M.Page(all, offset, maximum)), |all|)))))
  }

  ghost function StepMessage(s: State, c: Ref, k: Conn, recipient: u64, message: seq<byte>): Option<State> {
    if k.pc != Serving || |message| > MAX_MESSAGE then None
    else
      var pc := if recipient in s.registry then Delivering(s.registry[recipient], message) else Replying(Plain(0x0e));
      Some(With(s, c, k.(pc := pc)))
  }

  function Truncated(name: seq<byte>): seq<byte> {
    if |name| > MAX_SENDER_NAME then name[..MAX_SENDER_NAME] else name
  }

  /** client.serverSeed: the seed handed out is the counter before the increment. */
  function SeedTaken(k: Conn): Conn {
    k.(nextSeed := (k.nextSeed + 1) % U32_LIMIT)
  }

  ghost function StepTakeSeed(s: State, c: Ref, k: Conn): Option<State>
    requires c in s.conns
  {
    if !k.pc.Delivering? || k.pc.to !in s.conns then None
    else
      var r := s.conns[k.pc.to];
      var s1 := With(s, k.pc.to, SeedTaken(r));
      Some(With(s1, c, s1.conns[c].(pc := Pushing(k.pc.to, r.nextSeed, k.pc.message))))
  }

  ghost function StepDeliver(s: State, c: Ref, k: Conn, written: bool): Option<State>
    requires c in s.conns
  {
    if !k.pc.Pushing? || k.account.None? || k.pc.to !in s.conns || (s.conns[k.pc.to].closed && written) then None
    else
      var push := Push(k.pc.seed, k.account.value.hash, Truncated(k.account.value.username), k.pc.message);
      var s1 := With(s, k.pc.to, Written(s.conns[k.pc.to], push, written));
      Some(With(s1, c, s1.conns[c].(pc := if written then Replying(Plain(0x0e)) else Dropping(k.pc.to))))
  }

  ghost function StepReply(s: State, c: Ref, k: Conn, written: bool): Option<State> {
    if !k.pc.Replying? || (k.closed && written) then None
    else
      var k1 := Written(k, Reply(k.tx, k.pc.outcome), written);
      Some(With(s, c, if written then k1.(pc := Reading, tx := k.tx + 1) else k1.(pc := Leaving)))
  }

  /** The points where HandleTCP can return without another access to shared state. */
  predicate MayFail(pc: Pc) {
    pc == Reading || pc == Serving
  }

  ghost function Next(s: State, e: Event): Option<State> {
    match e
    case Register(account) =>
      if account.userID in s.accounts || account.userID == 0 || 0 in account.username then None
      else Some(s.(accounts := s.accounts[account.userID := account]))
    case Issue(a, session, peer, now) => StepIssue(s, a, session, peer, now)
    case Grant(a) =>
      if a !in s.issuers || !s.issuers[a].Holding? then None
      else Some(s.(issuers := s.issuers[a := Granted(s.issuers[a].seed, s.issuers[a].token)]))
    case Withdraw(a) =>
      if a !in s.issuers || !s.issuers[a].Holding? then None
      else
        var held := s.issuers[a];
        Some(s.(tickets := S.AfterRevoke(s.tickets, held.seed, held.token),
                issuers := s.issuers[a := Withdrawn(held.seed, held.token)]))
    case Open(c, peer) => if c in s.conns then None else Some(With(s, c, Fresh(peer)))
    case _ => if e.c !in s.conns then None else ConnNext(s, e.c, s.conns[e.c], e)
  }

  /** The steps of connection c, whose state is k. */
  ghost function ConnNext(s: State, c: Ref, k: Conn, e: Event): Option<State>
    requires c in s.conns && s.conns[c] == k
  {
    match e
    case Control(_, keepalive, written) => StepControl(s, c, k, keepalive, written)
    case Login(_, seed, title, now) => StepLogin(s, c, k, seed, title, now)
    case Bind(_) => StepBind(s, c, k)
    case Number(_) => StepNumber(s, c, k)
    case SendNumber(_, written) => StepSendNumber(s, c, k, written)
    case Request(_, now) => StepRequest(s, c, k, now)
    case Activate(_) => StepActivate(s, c, k)
    case CloseDisplaced(_) =>
      if !k.pc.Displacing? then None
      else var s1 := Closed(s, k.pc.victim); Some(With(s1, c, s1.conns[c].(pc := Serving)))
    case ServeEvent(_, task) =>
      if k.pc != Serving then None else Some(With(s, c, k.(pc := Replying(Plain(task)))))
    case ServeMatch(_, call) => StepMatch(s, c, k, call)
    case ServeMessage(_, recipient, message) => StepMessage(s, c, k, recipient, message)
    case TakeSeed(_) => StepTakeSeed(s, c, k)
    case Deliver(_, written) => StepDeliver(s, c, k, written)
    case Drop(_) =>
      if !k.pc.Dropping? || k.pc.to !in s.conns then None
      else Some(With(Deactivated(s, k.pc.to, s.conns[k.pc.to]), c, k.(pc := HangingUp(k.pc.to))))
    case CloseDropped(_) =>
      if !k.pc.HangingUp? then None
      else var s1 := Closed(s, k.pc.to); Some(With(s1, c, s1.conns[c].(pc := Replying(Plain(0x0e)))))
    case SendReply(_, written) => StepReply(s, c, k, written)
    case Fail(_) => if !MayFail(k.pc) then None else Some(With(s, c, k.(pc := Leaving)))
    case Unregister(_) =>
      if k.pc != Leaving then None else Some(With(Deactivated(s, c, k), c, k.(pc := Unregistered)))
    case Cleanup(_) =>
      if k.pc != Unregistered then None
      else
        var matches := if k.id != 0 then M.AfterDeleteOwner(s.matches, k.id) else s.matches;
        Some(With(s.(matches := matches), c, k.(pc := Done)))
    case _ => None
  }
}
