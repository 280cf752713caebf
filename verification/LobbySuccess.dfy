/**
  What the server does for clients that keep to the protocol (internal/online/lobby/lsg.go,
  internal/online/auth/lobby_session.go): the safety results say what never happens, these what does.
 */
module LobbySuccess {
  import opened Bytes
  import opened MatchmakingTypes
  import opened Outputs
  import opened Lobby
  import opened LobbyInvariants
  import opened LobbySafety
  import S = LobbySessions
  import M = MatchStore

  // ---------- tickets ----------

  /** A ticket is reserved exactly for a session and a peer that are in order, a seed that no live ticket has, and within both limits. */
  lemma ReservedExactly(t: S.Tickets, limits: S.Limits, session: S.Session, peer: Option<S.Peer>, now: int)
    ensures S.AfterReserve(t, limits, session, peer, now).1.Ok?
            <==> && peer.Some? && session.userID != 0 && session.titleID == 18436 && now < session.expiresAt
                 && (session.seed in t.table ==> t.table[session.seed].session.expiresAt <= now)
                 && |set seed | seed in t.table && now < t.table[seed].session.expiresAt| < limits.sessions
                 && |set seed | seed in t.table && now < t.table[seed].session.expiresAt && t.table[seed].session.userID == session.userID|
                    < limits.perAccount
  {
    var live := S.Live(t.table, now);
    assert live.Keys == set seed | seed in t.table && now < t.table[seed].session.expiresAt;
    assert |live.Keys| == |live|;
    assert S.SeedsOf(live, session.userID)
        == set seed | seed in t.table && now < t.table[seed].session.expiresAt && t.table[seed].session.userID == session.userID;
  }

  /** From its reservation to its expiry a ticket can be looked up and consumed once, by its own peer, and by nobody after that. */
  lemma ReservedIsUsable(t: S.Tickets, limits: S.Limits, session: S.Session, peer: Option<S.Peer>, now: int, later: int, who: Option<S.Peer>)
    requires S.AfterReserve(t, limits, session, peer, now).1.Ok?
    ensures var (t', r) := S.AfterReserve(t, limits, session, peer, now);
            var good := later < session.expiresAt && who == peer;
            var (looked, found) := S.AfterLookup(t', session.seed, who, later);
            var (t'', used) := S.AfterConsume(t', session.seed, r.value, who, later);
            && (found.Some? <==> good) && (good ==> found.value == S.Pending(session, peer.value, r.value))
            && (used.Some? <==> good)
            && (later < session.expiresAt ==> looked == t')
            && (later >= session.expiresAt && who.Some? ==> looked == t'' == t'.(table := t'.table - {session.seed}))
            && (good ==> used.value == session && t'' == t'.(table := t'.table - {session.seed}))
            && (good ==> S.AfterLookup(t'', session.seed, who, later).1.None?)
            && (forall token :: token != r.value ==> S.AfterConsume(t', session.seed, token, who, later).1.None?)
  {
    hide S.Live, S.SeedsOf;
  }

  // ---------- a login ----------

  /** The events one after the other, if all of them are possible. */
  ghost function Through(s: State, es: seq<Event>): Option<State>
    decreases |es|
  {
    if es == [] then Some(s)
    else
      match Next(s, es[0])
      case None => None
      case Some(s') => Through(s', es[1..])
  }

  lemma ThroughFirst(s: State, e: Event, es: seq<Event>)
    requires Next(s, e).Some?
    ensures Through(s, [e] + es) == Through(Next(s, e).value, es)
  {
    hide Next;
    assert ([e] + es)[1..] == es;
  }

  /** A new connection, as far as it has come. */
  function Client(peer: S.Peer, pc: Pc, ticket: Option<Ticket>, account: Option<Account>, id: u64, stage: nat): Conn {
    Conn(Some(peer), pc, ticket, account, id, stage >= 1, stage >= 2, stage >= 3, 0, 0, 0, false, false,
         if stage >= 1 then [ConnectionID(id)] else [])
  }

  lemma OpenStep(s: State, c: Ref, peer: S.Peer)
    requires c !in s.conns
    ensures Next(s, Open(c, Some(peer))) == Some(With(s, c, Client(peer, Reading, None, None, 0, 0)))
  {}

  lemma LoginStep(s: State, c: Ref, peer: S.Peer, seed: u32, now: int)
    requires c in s.conns && s.conns[c] == Client(peer, Reading, None, None, 0, 0)
    requires seed in s.tickets.table && s.tickets.table[seed].peer == peer && now < s.tickets.table[seed].session.expiresAt
    ensures var p := s.tickets.table[seed];
            Next(s, Login(c, seed, p.session.titleID, now))
            == Some(With(s, c, Client(peer, LookedUp, Some(Ticket(p.session, p.token)), None, 0, 0)))
  {
    LoginIs(s, c, seed, s.tickets.table[seed].session.titleID, now);
    hide Next;
  }

  lemma LoginIs(s: State, c: Ref, seed: u32, title: u32, now: int)
    requires c in s.conns
    ensures Next(s, Login(c, seed, title, now)) == StepLogin(s, c, s.conns[c], seed, title, now)
  {
    hide StepLogin;
  }

  lemma BindSteps(s: State, c: Ref, peer: S.Peer, ticket: Ticket)
    requires c in s.conns && s.conns[c] == Client(peer, LookedUp, Some(ticket), None, 0, 0)
    requires ticket.session.userID in s.accounts && s.accounts[ticket.session.userID].hash == ticket.session.accountHash
    ensures Next(s, Bind(c)) == Some(With(s, c, Client(peer, Bound, Some(ticket), Some(s.accounts[ticket.session.userID]), 0, 0)))
  {
    BindIs(s, c, 0);
    hide Next;
  }

  lemma BindIs(s: State, c: Ref, now: int)
    requires c in s.conns
    ensures Next(s, Bind(c)) == StepBind(s, c, s.conns[c]) && Next(s, Number(c)) == StepNumber(s, c, s.conns[c])
    ensures Next(s, SendNumber(c, true)) == StepSendNumber(s, c, s.conns[c], true)
    ensures Next(s, Request(c, now)) == StepRequest(s, c, s.conns[c], now) && Next(s, Activate(c)) == StepActivate(s, c, s.conns[c])
  {
    hide StepBind, StepNumber, StepSendNumber, StepRequest, StepActivate;
  }

  lemma NumberStep(s: State, c: Ref, peer: S.Peer, ticket: Ticket, account: Account)
    requires c in s.conns && s.conns[c] == Client(peer, Bound, Some(ticket), Some(account), 0, 0) && s.nextID + 1 < U64_LIMIT
    ensures Next(s, Number(c))
            == Some(With(s.(nextID := s.nextID + 1), c, Client(peer, Numbered, Some(ticket), Some(account), s.nextID + 1, 0)))
  {
    BindIs(s, c, 0);
    hide Next;
  }

  lemma SendStep(s: State, c: Ref, peer: S.Peer, ticket: Ticket, account: Account, id: u64)
    requires c in s.conns && s.conns[c] == Client(peer, Numbered, Some(ticket), Some(account), id, 0)
    ensures Next(s, SendNumber(c, true)) == Some(With(s, c, Client(peer, Reading, Some(ticket), Some(account), id, 1)))
  {
    BindIs(s, c, 0);
    hide Next;
    assert [] + [ConnectionID(id)] == [ConnectionID(id)];
  }

  lemma ProveSteps(s: State, c: Ref, peer: S.Peer, ticket: Ticket, account: Account, id: u64, now: int)
    requires c in s.conns && s.conns[c] == Client(peer, Reading, Some(ticket), Some(account), id, 1)
    requires var seed := ticket.session.seed;
             seed in s.tickets.table && s.tickets.table[seed] == S.Pending(ticket.session, peer, ticket.token) && now < ticket.session.expiresAt
    ensures var s1 := s.(tickets := s.tickets.(table := s.tickets.table - {ticket.session.seed}));
            Next(s, Request(c, now)) == Some(With(s1, c, Client(peer, Consumed, Some(ticket), Some(account), id, 2)))
  {
    BindIs(s, c, now);
    hide Next;
  }

  lemma EnterSteps(s: State, c: Ref, peer: S.Peer, ticket: Ticket, account: Account, id: u64)
    requires c in s.conns && s.conns[c] == Client(peer, Consumed, Some(ticket), Some(account), id, 2)
    ensures var h := account.hash;
            var pc := if h in s.registry && s.registry[h] != c then Displacing(s.registry[h]) else Serving;
            Next(s, Activate(c))
            == Some(With(s.(registry := s.registry[h := c]), c, Client(peer, pc, Some(ticket), Some(account), id, 3)))
  {
    BindIs(s, c, 0);
    hide Next;
  }

  lemma WithTwice(s: State, c: Ref, k: Conn, k1: Conn)
    ensures With(With(s, c, k), c, k1) == With(s, c, k1)
  {
    assert s.conns[c := k][c := k1] == s.conns[c := k1];
  }

  /** The state before the connection's number is drawn. */
  lemma UntilBound(s: State, c: Ref, peer: S.Peer, seed: u32, now: int) returns (t: State)
    requires c !in s.conns && seed in s.tickets.table
    requires var p := s.tickets.table[seed];
             p.peer == peer && now < p.session.expiresAt
             && p.session.userID in s.accounts && s.accounts[p.session.userID].hash == p.session.accountHash
    ensures var p := s.tickets.table[seed];
            var ticket, account := Ticket(p.session, p.token), s.accounts[p.session.userID];
            && t == With(s, c, Client(peer, Bound, Some(ticket), Some(account), 0, 0))
            && forall es :: Through(s, [Open(c, Some(peer))] + ([Login(c, seed, p.session.titleID, now)] + ([Bind(c)] + es))) == Through(t, es)
  {
    hide Next, With;
    var p := s.tickets.table[seed];
    var ticket, account := Ticket(p.session, p.token), s.accounts[p.session.userID];
    var k1, k2 := Client(peer, Reading, None, None, 0, 0), Client(peer, LookedUp, Some(ticket), None, 0, 0);
    OpenStep(s, c, peer);
    var s1 := With(s, c, k1);
    WithIs(s, c, k1);
    LoginStep(s1, c, peer, seed, now);
    WithTwice(s, c, k1, k2);
    var s2 := With(s, c, k2);
    WithIs(s, c, k2);
    BindSteps(s2, c, peer, ticket);
    t := With(s, c, Client(peer, Bound, Some(ticket), Some(account), 0, 0));
    WithTwice(s, c, k2, t.conns[c]) by { WithIs(s, c, Client(peer, Bound, Some(ticket), Some(account), 0, 0)); }
    WithIs(s, c, Client(peer, Bound, Some(ticket), Some(account), 0, 0));
    forall es
      ensures Through(s, [Open(c, Some(peer))] + ([Login(c, seed, p.session.titleID, now)] + ([Bind(c)] + es))) == Through(t, es)
    {
      ThroughFirst(s, Open(c, Some(peer)), [Login(c, seed, p.session.titleID, now)] + ([Bind(c)] + es));
      ThroughFirst(s1, Login(c, seed, p.session.titleID, now), [Bind(c)] + es);
      ThroughFirst(s2, Bind(c), es);
    }
  }

  lemma WithIs(s: State, c: Ref, k: Conn)
    ensures var t := With(s, c, k);
            && c in t.conns && t.conns[c] == k && t.tickets == s.tickets && t.accounts == s.accounts && t.nextID == s.nextID
            && t.registry == s.registry
  {}

  lemma WithMoves(s: State, c: Ref, k: Conn, id: u64, tickets: S.Tickets, registry: map<u64, Ref>)
    ensures With(s, c, k).(nextID := id) == With(s.(nextID := id), c, k)
    ensures With(s, c, k).(tickets := tickets) == With(s.(tickets := tickets), c, k)
    ensures With(s, c, k).(registry := registry) == With(s.(registry := registry), c, k)
  {}

  /** From there until the connection has its number and has been told it. */
  lemma UntilNumbered(s: State, c: Ref, peer: S.Peer, ticket: Ticket, account: Account, es: seq<Event>)
    requires s.nextID + 1 < U64_LIMIT
    ensures var id := s.nextID + 1;
            Through(With(s, c, Client(peer, Bound, Some(ticket), Some(account), 0, 0)), [Number(c)] + ([SendNumber(c, true)] + es))
            == Through(With(s.(nextID := id), c, Client(peer, Reading, Some(ticket), Some(account), id, 1)), es)
  {
    hide Next, With, Through;
    var id := s.nextID + 1;
    var k0, k1 := Client(peer, Bound, Some(ticket), Some(account), 0, 0), Client(peer, Numbered, Some(ticket), Some(account), id, 0);
    var k2 := Client(peer, Reading, Some(ticket), Some(account), id, 1);
    var a := s.(nextID := id);
    WithIs(s, c, k0);
    NumberStep(With(s, c, k0), c, peer, ticket, account);
    WithMoves(s, c, k0, id, s.tickets, s.registry);
    WithTwice(a, c, k0, k1);
    WithIs(a, c, k1);
    SendStep(With(a, c, k1), c, peer, ticket, account, id);
    WithTwice(a, c, k1, k2);
    ThroughFirst(With(s, c, k0), Number(c), [SendNumber(c, true)] + es);
    ThroughFirst(With(a, c, k1), SendNumber(c, true), es);
  }

  /** From there to the first request. */
  lemma UntilServed(s: State, c: Ref, peer: S.Peer, ticket: Ticket, account: Account, id: u64, now: int, es: seq<Event>)
    requires now < ticket.session.expiresAt
    requires var seed := ticket.session.seed;
             seed in s.tickets.table && s.tickets.table[seed] == S.Pending(ticket.session, peer, ticket.token)
    ensures var h, left := account.hash, s.tickets.(table := s.tickets.table - {ticket.session.seed});
            var pc := if h in s.registry && s.registry[h] != c then Displacing(s.registry[h]) else Serving;
            Through(With(s, c, Client(peer, Reading, Some(ticket), Some(account), id, 1)), [Request(c, now)] + ([Activate(c)] + es))
            == Through(With(s.(tickets := left, registry := s.registry[h := c]), c,
                            Client(peer, pc, Some(ticket), Some(account), id, 3)), es)
  {
    hide Next, With, Through;
    var h, left := account.hash, s.tickets.(table := s.tickets.table - {ticket.session.seed});
    var pc := if h in s.registry && s.registry[h] != c then Displacing(s.registry[h]) else Serving;
    var k2, k3 := Client(peer, Reading, Some(ticket), Some(account), id, 1), Client(peer, Consumed, Some(ticket), Some(account), id, 2);
    var k4 := Client(peer, pc, Some(ticket), Some(account), id, 3);
    var b := s.(tickets := left);
    var d := b.(registry := s.registry[h := c]);
    WithIs(s, c, k2);
    ProveSteps(With(s, c, k2), c, peer, ticket, account, id, now);
    WithMoves(s, c, k2, s.nextID, left, s.registry);
    WithTwice(b, c, k2, k3);
    WithIs(b, c, k3);
    EnterSteps(With(b, c, k3), c, peer, ticket, account, id);
    WithMoves(b, c, k3, s.nextID, left, s.registry[h := c]);
    WithTwice(d, c, k3, k4);
    ThroughFirst(With(s, c, k2), Request(c, now), [Activate(c)] + es);
    ThroughFirst(With(b, c, k3), Activate(c), es);
  }

  /** The events of a login up to its first request. */
  function LoginEvents(c: Ref, peer: S.Peer, seed: u32, title: u32, now: int, later: int): (es: seq<Event>)
    ensures es == [Open(c, Some(peer)), Login(c, seed, title, now), Bind(c), Number(c), SendNumber(c, true), Request(c, later), Activate(c)]
  {
    [Open(c, Some(peer))] + ([Login(c, seed, title, now)] + ([Bind(c)]
    + ([Number(c)] + ([SendNumber(c, true)] + ([Request(c, later)] + ([Activate(c)] + []))))))
  }

  lemma NotRegistered(s: State, c: Ref, seed: u32)
    requires Inv(s) && c !in s.conns && seed in s.tickets.table
    ensures s.tickets.table[seed].session.seed == seed
    ensures forall h | h in s.registry :: s.registry[h] != c
  {
    forall h | h in s.registry ensures s.registry[h] != c { assert Registrable(s, h, s.registry[h]); }
  }

  /**
    In every reachable state the holder of a pending ticket gets in: a new connection from the ticket's
    peer that logs in with its seed before it expires, and then sends a request, is confirmed for the
    ticket's session and account, with the next number, which it was told; it is registered under the
    account's hash, and the ticket is gone. Nothing else changes.
   */
  lemma HolderGetsIn(s: State, c: Ref, peer: S.Peer, seed: u32, now: int, later: int)
    requires Inv(s) && c !in s.conns && s.nextID + 1 < U64_LIMIT && seed in s.tickets.table
    requires var p := s.tickets.table[seed];
             p.peer == peer && now < p.session.expiresAt && later < p.session.expiresAt
             && p.session.userID in s.accounts && s.accounts[p.session.userID].hash == p.session.accountHash
    ensures var p := s.tickets.table[seed];
            var account, id := s.accounts[p.session.userID], s.nextID + 1;
            var h := account.hash;
            var pc := if h in s.registry then Displacing(s.registry[h]) else Serving;
            Through(s, LoginEvents(c, peer, seed, p.session.titleID, now, later))
            == Some(s.(nextID := id, tickets := s.tickets.(table := s.tickets.table - {seed}), registry := s.registry[h := c],
                       conns := s.conns[c := Conn(Some(peer), pc, Some(Ticket(p.session, p.token)), Some(account), id,
                                                  true, true, true, 0, 0, 0, false, false, [ConnectionID(id)])]))
  {
    NotRegistered(s, c, seed);
    hide Inv, Next, LoginEvents;
    LoginRuns(s, c, peer, seed, now, later);
  }

  lemma LoginRuns(s: State, c: Ref, peer: S.Peer, seed: u32, now: int, later: int)
    requires c !in s.conns && s.nextID + 1 < U64_LIMIT && seed in s.tickets.table && s.tickets.table[seed].session.seed == seed
    requires var p := s.tickets.table[seed];
             p.peer == peer && now < p.session.expiresAt && later < p.session.expiresAt
             && p.session.userID in s.accounts && s.accounts[p.session.userID].hash == p.session.accountHash
    ensures var p := s.tickets.table[seed];
            var account, id := s.accounts[p.session.userID], s.nextID + 1;
            var h := account.hash;
            var pc := if h in s.registry && s.registry[h] != c then Displacing(s.registry[h]) else Serving;
            Through(s, LoginEvents(c, peer, seed, p.session.titleID, now, later))
            == Some(With(s.(nextID := id).(tickets := s.tickets.(table := s.tickets.table - {seed}), registry := s.registry[h := c]), c,
                         Client(peer, pc, Some(Ticket(p.session, p.token)), Some(account), id, 3)))
  {
    hide Next, Through, With;
    var p, id := s.tickets.table[seed], s.nextID + 1;
    var ticket, account := Ticket(p.session, p.token), s.accounts[p.session.userID];
    var mid := UntilBound(s, c, peer, seed, now);
    var proof := [Request(c, later)] + ([Activate(c)] + []);
    UntilNumbered(s, c, peer, ticket, account, proof);
    UntilServed(s.(nextID := id), c, peer, ticket, account, id, later, []);
    ThroughNothing();
    assert Through(s, LoginEvents(c, peer, seed, p.session.titleID, now, later))
        == Through(mid, [Number(c)] + ([SendNumber(c, true)] + proof));
  }

  lemma ThroughNothing()
    ensures forall s: State :: Through(s, []) == Some(s)
  {}

  // ---------- a message ----------

  lemma MessageIs(s: State, d: Ref, h: u64, message: seq<byte>, written: bool)
    requires d in s.conns
    ensures Next(s, ServeMessage(d, h, message)) == StepMessage(s, d, s.conns[d], h, message)
    ensures Next(s, TakeSeed(d)) == StepTakeSeed(s, d, s.conns[d])
    ensures Next(s, Deliver(d, written)) == StepDeliver(s, d, s.conns[d], written)
    ensures Next(s, SendReply(d, written)) == StepReply(s, d, s.conns[d], written)
  {
    hide StepMessage, StepTakeSeed, StepDeliver, StepReply;
  }

  /** The state with these two connections changed. */
  function Both(s: State, c: Ref, k: Conn, d: Ref, m: Conn): (t: State) { With(With(s, c, k), d, m) }

  lemma BothIs(s: State, c: Ref, k: Conn, d: Ref, m: Conn)
    requires c != d
    ensures var t := Both(s, c, k, d, m);
            c in t.conns && t.conns[c] == k && d in t.conns && t.conns[d] == m && t.registry == s.registry
    ensures forall k1, m1 :: With(With(Both(s, c, k, d, m), c, k1), d, m1) == Both(s, c, k1, d, m1)
    ensures forall m1 :: With(Both(s, c, k, d, m), d, m1) == Both(s, c, k, d, m1)
  {
    forall k1, m1 ensures With(With(Both(s, c, k, d, m), c, k1), d, m1) == Both(s, c, k1, d, m1) {
      assert s.conns[c := k][d := m][c := k1][d := m1] == s.conns[c := k1][d := m1];
    }
    forall m1 ensures With(Both(s, c, k, d, m), d, m1) == Both(s, c, k, d, m1) {
      assert s.conns[c := k][d := m][d := m1] == s.conns[c := k][d := m1];
    }
  }

  lemma Unchanged(s: State, c: Ref, d: Ref)
    requires c in s.conns && d in s.conns && c != d
    ensures Both(s, c, s.conns[c], d, s.conns[d]) == s
  {
    assert s.conns[c := s.conns[c]][d := s.conns[d]] == s.conns;
  }

  lemma AskStep(s: State, c: Ref, k: Conn, d: Ref, m: Conn, h: u64, message: seq<byte>)
    requires c != d && h in s.registry && s.registry[h] == c && m.pc == Serving && |message| <= MAX_MESSAGE
    ensures Next(Both(s, c, k, d, m), ServeMessage(d, h, message)) == Some(Both(s, c, k, d, m.(pc := Delivering(c, message))))
  {
    BothIs(s, c, k, d, m);
    hide Both;
    MessageIs(Both(s, c, k, d, m), d, h, message, true);
    hide Next;
  }

  lemma SeedStep(s: State, c: Ref, k: Conn, d: Ref, m: Conn, message: seq<byte>)
    requires c != d && m.pc == Delivering(c, message)
    ensures Next(Both(s, c, k, d, m), TakeSeed(d))
            == Some(Both(s, c, k.(nextSeed := (k.nextSeed + 1) % U32_LIMIT), d, m.(pc := Pushing(c, k.nextSeed, message))))
  {
    BothIs(s, c, k, d, m);
    hide Both;
    MessageIs(Both(s, c, k, d, m), d, 0, message, true);
    hide Next;
  }

  lemma PushStep(s: State, c: Ref, k: Conn, d: Ref, m: Conn, seed: u32, message: seq<byte>)
    requires c != d && m.pc == Pushing(c, seed, message) && m.account.Some? && !k.closed
    ensures var push := Push(seed, m.account.value.hash, Truncated(m.account.value.username), message);
            Next(Both(s, c, k, d, m), Deliver(d, true))
            == Some(Both(s, c, k.(out := k.out + [push]), d, m.(pc := Replying(Plain(0x0e)))))
  {
    BothIs(s, c, k, d, m);
    hide Both;
    MessageIs(Both(s, c, k, d, m), d, 0, message, true);
    hide Next, Truncated;
  }

  lemma AnswerStep(s: State, c: Ref, k: Conn, d: Ref, m: Conn)
    requires c != d && m.pc == Replying(Plain(0x0e)) && !m.closed
    ensures Next(Both(s, c, k, d, m), SendReply(d, true))
            == Some(Both(s, c, k, d, m.(pc := Reading, tx := m.tx + 1, out := m.out + [Reply(m.tx, Plain(0x0e))])))
  {
    BothIs(s, c, k, d, m);
    hide Both;
    MessageIs(Both(s, c, k, d, m), d, 0, [], true);
    hide Next;
  }

  /**
    A message to an account whose client is open arrives: the client is sent a push with its next seed, the
    sender's account hash and name, cut to 63 bytes, and the message; then the sender is answered and can go
    on. Nothing else changes.
   */
  lemma MessageArrives(s: State, c: Ref, d: Ref, h: u64, message: seq<byte>)
    requires c in s.conns && d in s.conns && c != d && !s.conns[c].closed && !s.conns[d].closed
    requires h in s.registry && s.registry[h] == c && s.conns[d].pc == Serving && s.conns[d].account.Some? && |message| <= 4096
    ensures var k, m := s.conns[c], s.conns[d];
            var name := m.account.value.username;
            var push := Push(k.nextSeed, m.account.value.hash, if |name| > 63 then name[..63] else name, message);
            Through(s, [ServeMessage(d, h, message), TakeSeed(d), Deliver(d, true), SendReply(d, true)])
            == Some(s.(conns := s.conns[c := k.(nextSeed := (k.nextSeed + 1) % 0x1_0000_0000, out := k.out + [push])]
                                       [d := m.(pc := Reading, tx := m.tx + 1, out := m.out + [Reply(m.tx, Plain(0x0e))])]))
  {
    hide Next, Through;
    MessagePath(s, c, d, h, message);
  }

  lemma MessagePath(s: State, c: Ref, d: Ref, h: u64, message: seq<byte>)
    requires c in s.conns && d in s.conns && c != d && !s.conns[c].closed && !s.conns[d].closed
    requires h in s.registry && s.registry[h] == c && s.conns[d].pc == Serving && s.conns[d].account.Some? && |message| <= MAX_MESSAGE
    ensures var k, m := s.conns[c], s.conns[d];
            var push := Push(k.nextSeed, m.account.value.hash, Truncated(m.account.value.username), message);
            Through(s, [ServeMessage(d, h, message), TakeSeed(d), Deliver(d, true), SendReply(d, true)])
            == Some(Both(s, c, k.(nextSeed := (k.nextSeed + 1) % U32_LIMIT, out := k.out + [push]),
                         d, m.(pc := Reading, tx := m.tx + 1, out := m.out + [Reply(m.tx, Plain(0x0e))])))
  {
    hide Next, Through, Both, Truncated;
    var k, m := s.conns[c], s.conns[d];
    var push := Push(k.nextSeed, m.account.value.hash, Truncated(m.account.value.username), message);
    var k1 := k.(nextSeed := (k.nextSeed + 1) % U32_LIMIT);
    var k2 := k1.(out := k.out + [push]);
    var m1, m2, m3 := m.(pc := Delivering(c, message)), m.(pc := Pushing(c, k.nextSeed, message)), m.(pc := Replying(Plain(0x0e)));
    var m4 := m.(pc := Reading, tx := m.tx + 1, out := m.out + [Reply(m.tx, Plain(0x0e))]);
    Unchanged(s, c, d);
    AskStep(s, c, k, d, m, h, message);
    SeedStep(s, c, k, d, m1, message);
    PushStep(s, c, k1, d, m2, k.nextSeed, message);
    AnswerStep(s, c, k2, d, m3);
    FourEvents(s, ServeMessage(d, h, message), TakeSeed(d), Deliver(d, true), SendReply(d, true),
               Both(s, c, k, d, m1), Both(s, c, k1, d, m2), Both(s, c, k2, d, m3), Both(s, c, k2, d, m4));
  }

  lemma FourEvents(s: State, e: Event, f: Event, g: Event, h: Event, s1: State, s2: State, s3: State, s4: State)
    requires Next(s, e) == Some(s1) && Next(s1, f) == Some(s2) && Next(s2, g) == Some(s3) && Next(s3, h) == Some(s4)
    ensures Through(s, [e, f, g, h]) == Some(s4)
  {
    hide Next, Through;
    ThroughFirst(s, e, [f, g, h]);
    ThroughFirst(s1, f, [g, h]);
    ThroughFirst(s2, g, [h]);
    ThroughFirst(s3, h, []);
    ThroughNothing();
    assert [e] + [f, g, h] == [e, f, g, h] && [f] + [g, h] == [f, g, h] && [g] + [h] == [g, h] && [h] + [] == [h];
  }

  // ---------- before the proof ----------

  /** Logged in, not yet proved, and n more control records allowed. */
  predicate Waiting(s: State, c: Ref, n: nat) {
    && c in s.conns && s.conns[c].pc == Reading && s.conns[c].authenticated && !s.conns[c].confirmed && !s.conns[c].closed
    && s.conns[c].controls + n == s.config.maxControls
  }

  /** Control records, keepalives where the sequence says so. */
  function Controls(c: Ref, keepalives: seq<bool>): seq<Event> {
    if keepalives == [] then [] else [Control(c, keepalives[0], true)] + Controls(c, keepalives[1..])
  }

  /** The answers to keepalives. */
  function Echoes(keepalives: seq<bool>): seq<Sent> {
    if keepalives == [] then [] else (if keepalives[0] then [Echo] else []) + Echoes(keepalives[1..])
  }

  lemma {:induction false} EchoesMore(out: seq<Sent>, keepalives: seq<bool>)
    requires keepalives != []
    ensures (if keepalives[0] then out + [Echo] else out) + Echoes(keepalives[1..]) == out + Echoes(keepalives)
    ensures out + Echoes([]) == out
  {
    var tail := Echoes(keepalives[1..]);
    assert Echoes(keepalives) == (if keepalives[0] then [Echo] else []) + tail && Echoes([]) == [];
    hide Echoes;
    assert (out + [Echo]) + tail == out + ([Echo] + tail) && [] + tail == tail;
  }

  lemma ControlStep(s: State, c: Ref, n: nat, keepalive: bool)
    requires Waiting(s, c, n)
    ensures var k := s.conns[c];
            Next(s, Control(c, keepalive, true))
            == Some(With(s, c, if n == 0 then k.(controls := k.controls + 1, pc := Leaving)
                               else k.(controls := k.controls + 1, out := if keepalive then k.out + [Echo] else k.out)))
  {}

  /** An unproved connection is ended by the first control record beyond the limit; the keepalives before it are answered. */
  lemma {:induction false} ControlsLimited(s: State, c: Ref, keepalives: seq<bool>, last: bool)
    requires Waiting(s, c, |keepalives|)
    ensures var k := s.conns[c];
            Through(s, Controls(c, keepalives + [last]))
            == Some(With(s, c, k.(controls := s.config.maxControls + 1, out := k.out + Echoes(keepalives), pc := Leaving)))
    decreases |keepalives|
  {
    var k, n := s.conns[c], |keepalives|;
    var first := (keepalives + [last])[0];
    ControlStep(s, c, n, first);
    hide Next;
    var s1 := Next(s, Control(c, first, true)).value;
    ThroughFirst(s, Control(c, first, true), Controls(c, (keepalives + [last])[1..]));
    EchoesMore(k.out, if n > 0 then keepalives else [true]);
    if n == 0 {
      assert (keepalives + [last])[1..] == [] && keepalives == [];
    } else {
      assert (keepalives + [last])[1..] == keepalives[1..] + [last];
      hide Through, Echoes;
      ControlsLimited(s1, c, keepalives[1..], last);
      WithTwice(s, c, s1.conns[c],
                k.(controls := s.config.maxControls + 1, out := k.out + Echoes(keepalives), pc := Leaving));
    }
  }
}
