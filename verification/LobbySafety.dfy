/** Safety of the lobby protocol over whole runs. */
module LobbySafety {
  import opened Bytes
  import opened MatchmakingTypes
  import opened Outputs
  import opened Lobby
  import opened LobbyInvariants
  import S = LobbySessions
  import M = MatchStore
  import Seqs

  /** states is a run from the initial state, taking events in order. */
  ghost predicate IsRun(config: Config, states: seq<State>, events: seq<Event>) {
    && |states| == |events| + 1
    && states[0] == Init(config)
    && forall i | 0 <= i < |events| :: Next(states[i], events[i]) == Some(states[i + 1])
  }

  lemma RunStep(config: Config, states: seq<State>, events: seq<Event>, i: nat)
    requires IsRun(config, states, events) && i + 1 < |states|
    ensures i < |events| && Next(states[i], events[i]) == Some(states[i + 1])
  {
    hide Next;
  }

  lemma {:induction false} ReachableInv(config: Config, states: seq<State>, events: seq<Event>, i: nat)
    requires IsRun(config, states, events) && i < |states|
    ensures Inv(states[i])
  {
    hide Inv, Next;
    if i == 0 {
      InitInv(config);
    } else {
      ReachableInv(config, states, events, i - 1);
      RunStep(config, states, events, i - 1);
      hide IsRun;
      StepKeeps(states[i - 1], events[i - 1]);
    }
  }

  // ---------- what never changes again ----------

  /** Rights once obtained stay as they are, and cleanup only moves forward. */
  predicate Grows(k: Conn, k1: Conn) {
    && k1.peer == k.peer
    && (k.ticket.Some? ==> k1.ticket == k.ticket)
    && (k.account.Some? ==> k1.account == k.account)
    && (k.id != 0 ==> k1.id == k.id)
    && (k.confirmed ==> k1.confirmed)
    && (k.activated ==> k1.activated)
    && (k.pc == Unregistered ==> k1.pc == Unregistered || k1.pc == Done)
    && (k.pc == Done ==> k1.pc == Done)
  }

  ghost predicate ConnsGrow(s: State, s': State) {
    forall c | c in s.conns :: c in s'.conns && Grows(s.conns[c], s'.conns[c])
  }

  ghost predicate IssuedGrows(s: State, s': State) {
    forall token | token in s.issued :: token in s'.issued && s'.issued[token] == s.issued[token]
  }

  ghost predicate WithdrawnStays(s: State, s': State) {
    forall a | a in s.issuers && s.issuers[a].Withdrawn? :: a in s'.issuers && s'.issuers[a] == s.issuers[a]
  }

  lemma OneConnGrows(s: State, s': State, c: Ref)
    requires OnlyConn(s, s', c) && Grows(s.conns[c], s'.conns[c])
    ensures ConnsGrow(s, s')
  {}

  lemma IssueIsStep(s: State, e: Event)
    requires e.Issue?
    ensures Next(s, e) == StepIssue(s, e.a, e.session, e.issuePeer, e.now)
  {
    hide ConnNext, StepIssue;
  }

  lemma SameConnsGrow(s: State, s': State)
    requires s'.conns == s.conns
    ensures ConnsGrow(s, s')
  {}

  lemma IssueIssues(s: State, a: Ref, session: S.Session, peer: Option<S.Peer>, now: int)
    requires TableOk(s) && StepIssue(s, a, session, peer, now).Some?
    ensures IssuedGrows(s, StepIssue(s, a, session, peer, now).value)
    ensures StepIssue(s, a, session, peer, now).value.conns == s.conns
  {
    assert forall token | token in s.issued :: token <= s.tickets.nextToken;
    hide S.Live;
  }

  lemma IssueWithdraws(s: State, a: Ref, session: S.Session, peer: Option<S.Peer>, now: int)
    requires StepIssue(s, a, session, peer, now).Some?
    ensures WithdrawnStays(s, StepIssue(s, a, session, peer, now).value)
  {
    hide S.AfterReserve;
  }

  lemma ReserveGrows(s: State, e: Event)
    requires TicketsOk(s) && Next(s, e).Some? && e.Issue?
    ensures ConnsGrow(s, Next(s, e).value) && IssuedGrows(s, Next(s, e).value) && WithdrawnStays(s, Next(s, e).value)
  {
    IssueIsStep(s, e);
    hide Next, StepIssue, ConnsGrow, IssuedGrows, WithdrawnStays, TableOk;
    IssueIssues(s, e.a, e.session, e.issuePeer, e.now);
    IssueWithdraws(s, e.a, e.session, e.issuePeer, e.now);
    SameConnsGrow(s, StepIssue(s, e.a, e.session, e.issuePeer, e.now).value);
  }

  lemma IssueGrows(s: State, e: Event)
    requires TicketsOk(s) && Next(s, e).Some? && !ConnEvent(e)
    ensures ConnsGrow(s, Next(s, e).value) && IssuedGrows(s, Next(s, e).value) && WithdrawnStays(s, Next(s, e).value)
  {
    hide TicketsOk, ConnNext, S.AfterReserve, StepIssue;
    if e.Issue? {
      ReserveGrows(s, e);
    }
  }

  /** What a step of connection c may do to the connections and to the tables it does not own. */
  ghost predicate Delta(s: State, s': State, e: Event) {
    && ConnsGrow(s, s')
    && s'.issued == s.issued && s'.issuers == s.issuers
    && (!e.Activate? && !e.Drop? && !e.Unregister? ==> s'.registry == s.registry)
    && (!e.ServeMatch? && !e.Cleanup? ==> s'.matches == s.matches)
  }

  lemma OneConnDelta(s: State, s': State, c: Ref, e: Event)
    requires OnlyConn(s, s', c) && Grows(s.conns[c], s'.conns[c])
    requires s'.issued == s.issued && s'.issuers == s.issuers
    requires !e.Activate? && !e.Drop? && !e.Unregister? ==> s'.registry == s.registry
    requires !e.ServeMatch? && !e.Cleanup? ==> s'.matches == s.matches
    ensures Delta(s, s', e)
  {}

  /** The shape of every step that changes one connection and at most one table. */
  lemma LoginDeltas(s: State, c: Ref, seed: u32, title: u32, now: int)
    requires c in s.conns && LocalOk(s.conns[c])
    ensures var r := StepLogin(s, c, s.conns[c], seed, title, now);
            r.Some? ==> Delta(s, r.value, Login(c, seed, title, now))
  {
    hide S.AfterLookup;
  }

  lemma ControlDeltas(s: State, c: Ref, keepalive: bool, written: bool)
    requires c in s.conns
    ensures var r := StepControl(s, c, s.conns[c], keepalive, written);
            r.Some? ==> Delta(s, r.value, Control(c, keepalive, written))
  {}

  lemma BindDeltas(s: State, c: Ref, written: bool)
    requires c in s.conns && LocalOk(s.conns[c])
    ensures var r := StepBind(s, c, s.conns[c]); r.Some? ==> Delta(s, r.value, Bind(c))
    ensures var r := StepNumber(s, c, s.conns[c]); r.Some? ==> Delta(s, r.value, Number(c))
    ensures var r := StepSendNumber(s, c, s.conns[c], written); r.Some? ==> Delta(s, r.value, SendNumber(c, written))
  {
    hide Delta, ConnsGrow;
    var k := s.conns[c];
    if StepBind(s, c, k).Some? { OneConnDelta(s, StepBind(s, c, k).value, c, Bind(c)); }
    if StepNumber(s, c, k).Some? { OneConnDelta(s, StepNumber(s, c, k).value, c, Number(c)); }
    if StepSendNumber(s, c, k, written).Some? {
      OneConnDelta(s, StepSendNumber(s, c, k, written).value, c, SendNumber(c, written));
    }
  }

  lemma RequestDeltas(s: State, c: Ref, now: int)
    requires Inv(s) && c in s.conns
    ensures var r := StepRequest(s, c, s.conns[c], now); r.Some? ==> Delta(s, r.value, Request(c, now))
  {
    Facts(s, c);
    if s.conns[c].ticket.Some? { ConsumeReturnsLookedUp(s, c, now); }
    hide Inv, LocalOk, OutOk, S.AfterConsume, ConnsGrow, Delta;
    var r := StepRequest(s, c, s.conns[c], now);
    if r.Some? {
      OneConnDelta(s, r.value, c, Request(c, now));
    }
  }

  lemma ActivateDeltas(s: State, c: Ref)
    requires c in s.conns
    ensures var r := StepActivate(s, c, s.conns[c]); r.Some? ==> Delta(s, r.value, Activate(c))
  {}

  lemma MatchDeltas(s: State, c: Ref, call: MatchCall)
    requires c in s.conns
    ensures var r := StepMatch(s, c, s.conns[c], call); r.Some? ==> Delta(s, r.value, ServeMatch(c, call))
  {
    hide With, M.AfterCreate, M.AfterUpdate, M.AfterDelete, M.Infos, M.Page, Seqs.Filter, Delta, ConnsGrow, BoundInfo;
    var k := s.conns[c];
    if StepMatch(s, c, k, call).Some? {
      var e := ServeMatch(c, call);
      var username := k.account.value.username;
      MoveDelta(s, s, c, Leaving, e);
      match call
      case CallCreate(info, random) =>
        if |username| <= MAX_TEXT {
          var (matches, r) := M.AfterCreate(s.matches, s.config.matches, k.id, BoundInfo(info, username), random);
          MoveDelta(s, s.(matches := matches), c, if r.Ok? then Replying(Created(r.value.sessionID)) else Leaving, e);
        }
      case CallUpdate(id, info) =>
        var (matches, r) := M.AfterUpdate(s.matches, k.id, id, BoundInfo(info, username));
        MoveDelta(s, s.(matches := matches), c, if r.Ok? || r.error == M.SessionMiss then Replying(Plain(2)) else Leaving, e);
      case CallDelete(id) =>
        var (matches, r) := M.AfterDelete(s.matches, k.id, id);
        MoveDelta(s, s.(matches := matches), c, if r.Ok? || r.error == M.SessionMiss then Replying(Plain(3)) else Leaving, e);
      case CallFind(query, offset, maximum) =>
        var all := Seqs.Filter(s.matches.list, M.Answers(query));
        MoveDelta(s, s, c, Replying(Found(M.Infos(M.Page(all, offset, maximum)), |all|)), e);
    }
  }

  lemma MessageDeltas(s: State, c: Ref, recipient: u64, message: seq<byte>, written: bool)
    requires c in s.conns
    ensures var r := StepMessage(s, c, s.conns[c], recipient, message);
            r.Some? ==> Delta(s, r.value, ServeMessage(c, recipient, message))
    ensures var r := StepReply(s, c, s.conns[c], written); r.Some? ==> Delta(s, r.value, SendReply(c, written))
  {}

  lemma SeedDeltas(s: State, c: Ref)
    requires c in s.conns
    ensures var r := StepTakeSeed(s, c, s.conns[c]); r.Some? ==> Delta(s, r.value, TakeSeed(c))
  {}

  lemma DeliverDeltas(s: State, c: Ref, written: bool)
    requires c in s.conns
    ensures var r := StepDeliver(s, c, s.conns[c], written); r.Some? ==> Delta(s, r.value, Deliver(c, written))
  {}

  lemma ConnsGrowTransitive(s: State, t: State, u: State)
    requires ConnsGrow(s, t) && ConnsGrow(t, u)
    ensures ConnsGrow(s, u)
  {}

  lemma ClosedGrows(s: State, victim: Ref)
    ensures ConnsGrow(s, Closed(s, victim))
  {}

  lemma CloseDeltas(s: State, c: Ref, victim: Ref, pc: Pc, e: Event)
    requires c in s.conns && ServingPc(s.conns[c].pc) && (pc == Serving || pc.Replying?)
    ensures var s1 := Closed(s, victim);
            c in s1.conns && Delta(s, With(s1, c, s1.conns[c].(pc := pc)), e)
  {
    hide ConnsGrow;
    ClosedGrows(s, victim);
    var s1 := Closed(s, victim);
    var s2 := With(s1, c, s1.conns[c].(pc := pc));
    assert s1.conns[c].pc == s.conns[c].pc;
    hide Closed;
    OneConnGrows(s1, s2, c);
    ConnsGrowTransitive(s, s1, s2);
  }

  lemma MoveDelta(s: State, s1: State, c: Ref, pc: Pc, e: Event)
    requires s1.conns == s.conns && c in s.conns && s1.issued == s.issued && s1.issuers == s.issuers
    requires s.conns[c].pc == Unregistered || s.conns[c].pc == Done ==> pc == Unregistered || pc == Done
    requires s.conns[c].pc == Done ==> pc == Done
    requires !e.Activate? && !e.Drop? && !e.Unregister? ==> s1.registry == s.registry
    requires !e.ServeMatch? && !e.Cleanup? ==> s1.matches == s.matches
    ensures Delta(s, With(s1, c, s1.conns[c].(pc := pc)), e)
  {
    hide Delta, ConnsGrow;
    OneConnDelta(s, With(s1, c, s1.conns[c].(pc := pc)), c, e);
  }

  lemma DeactivatedOnly(s: State, c: Ref, k: Conn)
    ensures var s1 := Deactivated(s, c, k);
            s1.conns == s.conns && s1.issued == s.issued && s1.issuers == s.issuers && s1.matches == s.matches
  {}

  lemma LeaveDeltas(s: State, c: Ref, e: Event)
    requires c in s.conns && ConnNext(s, c, s.conns[c], e).Some?
    requires e.ServeEvent? || e.Fail? || e.Drop? || e.Unregister? || e.Cleanup?
    ensures Delta(s, ConnNext(s, c, s.conns[c], e).value, e)
  {
    hide M.AfterDeleteOwner, Deactivated, With, Delta;
    var k := s.conns[c];
    if e.ServeEvent? {
      MoveDelta(s, s, c, Replying(Plain(e.task)), e);
    } else if e.Fail? {
      MoveDelta(s, s, c, Leaving, e);
    } else if e.Drop? {
      DeactivatedOnly(s, k.pc.to, s.conns[k.pc.to]);
      MoveDelta(s, Deactivated(s, k.pc.to, s.conns[k.pc.to]), c, HangingUp(k.pc.to), e);
    } else if e.Unregister? {
      DeactivatedOnly(s, c, k);
      MoveDelta(s, Deactivated(s, c, k), c, Unregistered, e);
    } else {
      var matches := if k.id != 0 then M.AfterDeleteOwner(s.matches, k.id) else s.matches;
      MoveDelta(s, s.(matches := matches), c, Done, e);
    }
  }

  lemma BindDelta(s: State, c: Ref, e: Event)
    requires Inv(s) && c in s.conns && ConnNext(s, c, s.conns[c], e).Some? && e.c == c
    requires e.Bind? || e.Number? || e.SendNumber?
    ensures Delta(s, ConnNext(s, c, s.conns[c], e).value, e)
  {
    Facts(s, c);
    hide Inv, LocalOk, OutOk, Delta, StepBind, StepNumber, StepSendNumber;
    BindDeltas(s, c, if e.SendNumber? then e.written else true);
  }

  lemma LoginDelta(s: State, c: Ref, e: Event)
    requires Inv(s) && c in s.conns && ConnNext(s, c, s.conns[c], e).Some? && LoginEvent(e) && e.c == c
    ensures Delta(s, ConnNext(s, c, s.conns[c], e).value, e)
  {
    Facts(s, c);
    hide Inv, LocalOk, OutOk, Delta, StepControl, StepLogin, StepBind, StepNumber, StepSendNumber, StepRequest, StepActivate;
    hide StepMatch, StepMessage, StepTakeSeed, StepDeliver, StepReply, Closed, Deactivated, M.AfterDeleteOwner;
    match e
    case Control(_, keepalive, written) => ControlDeltas(s, c, keepalive, written);
    case Login(_, seed, title, now) => LoginDeltas(s, c, seed, title, now);
    case Request(_, now) => RequestDeltas(s, c, now);
    case Activate(_) => ActivateDeltas(s, c);
    case CloseDisplaced(_) => CloseDeltas(s, c, s.conns[c].pc.victim, Serving, e);
    case _ => BindDelta(s, c, e);
  }

  lemma ServeDelta(s: State, c: Ref, e: Event)
    requires Inv(s) && c in s.conns && ConnNext(s, c, s.conns[c], e).Some? && ConnEvent(e) && !LoginEvent(e) && e.c == c
    ensures Delta(s, ConnNext(s, c, s.conns[c], e).value, e)
  {
    Facts(s, c);
    hide Inv, LocalOk, OutOk, Delta, StepControl, StepLogin, StepBind, StepNumber, StepSendNumber, StepRequest, StepActivate;
    hide StepMatch, StepMessage, StepTakeSeed, StepDeliver, StepReply, Closed, Deactivated, M.AfterDeleteOwner;
    match e
    case CloseDropped(_) => CloseDeltas(s, c, s.conns[c].pc.to, Replying(Plain(0x0e)), e);
    case ServeMatch(_, call) => MatchDeltas(s, c, call);
    case ServeMessage(_, recipient, message) => MessageDeltas(s, c, recipient, message, true);
    case SendReply(_, written) => MessageDeltas(s, c, 0, [], written);
    case TakeSeed(_) => SeedDeltas(s, c);
    case Deliver(_, written) => DeliverDeltas(s, c, written);
    case _ => LeaveDeltas(s, c, e);
  }

  lemma ConnDelta(s: State, c: Ref, e: Event)
    requires Inv(s) && c in s.conns && Next(s, e).Some? && ConnNext(s, c, s.conns[c], e) == Next(s, e) && ConnEvent(e) && e.c == c
    ensures Delta(s, Next(s, e).value, e)
  {
    hide Inv, Next, ConnNext, Delta;
    if LoginEvent(e) { LoginDelta(s, c, e); } else { ServeDelta(s, c, e); }
  }

  lemma SharedFixed(s: State, e: Event)
    requires Next(s, e).Some? && !ConnEvent(e)
    ensures Next(s, e).value.registry == s.registry && Next(s, e).value.matches == s.matches
  {
    hide S.AfterReserve, S.AfterRevoke, ConnNext;
  }

  lemma StepGrows(s: State, e: Event)
    requires Inv(s) && Next(s, e).Some?
    ensures ConnsGrow(s, Next(s, e).value) && IssuedGrows(s, Next(s, e).value) && WithdrawnStays(s, Next(s, e).value)
  {
    if ConnEvent(e) {
      hide Inv, Next, ConnNext, ConnsGrow;
      NextIsConnNext(s, e);
      ConnDelta(s, e.c, e);
    } else {
      hide ConnsGrow, IssuedGrows, WithdrawnStays, Next;
      IssueGrows(s, e);
    }
  }

  lemma GrowsTransitive(s: State, t: State, u: State)
    requires ConnsGrow(s, t) && ConnsGrow(t, u) && IssuedGrows(s, t) && IssuedGrows(t, u)
    requires WithdrawnStays(s, t) && WithdrawnStays(t, u)
    ensures ConnsGrow(s, u) && IssuedGrows(s, u) && WithdrawnStays(s, u)
  {}

  lemma GrowsReflexive(s: State)
    ensures ConnsGrow(s, s) && IssuedGrows(s, s) && WithdrawnStays(s, s)
  {}

  lemma {:induction false} RunGrows(config: Config, states: seq<State>, events: seq<Event>, i: nat, j: nat)
    requires IsRun(config, states, events) && i <= j < |states|
    ensures ConnsGrow(states[i], states[j]) && IssuedGrows(states[i], states[j]) && WithdrawnStays(states[i], states[j])
    decreases j
  {
    hide IsRun, Inv, ConnsGrow, IssuedGrows, WithdrawnStays, Next;
    if i == j {
      GrowsReflexive(states[i]);
    } else {
      RunGrows(config, states, events, i, j - 1);
      ReachableInv(config, states, events, j - 1);
      RunStep(config, states, events, j - 1);
      StepGrows(states[j - 1], events[j - 1]);
      GrowsTransitive(states[i], states[j - 1], states[j]);
    }
  }

  // ---------- tickets ----------

  /**
    A reservation confirms at most one connection, ever: two connections confirmed at any two moments
    of a run under the same token are the same connection.
   */
  lemma TicketConfirmsOnce(config: Config, states: seq<State>, events: seq<Event>, i: nat, j: nat, c: Ref, d: Ref)
    requires IsRun(config, states, events) && i <= j < |states|
    requires c in states[i].conns && states[i].conns[c].confirmed && states[i].conns[c].ticket.Some?
    requires d in states[j].conns && states[j].conns[d].confirmed && states[j].conns[d].ticket.Some?
    requires states[i].conns[c].ticket.value.token == states[j].conns[d].ticket.value.token
    ensures c == d
  {
    hide IsRun, Next;
    RunGrows(config, states, events, i, j);
    ReachableInv(config, states, events, j);
    assert Grows(states[i].conns[c], states[j].conns[c]);
    assert SingleUse(states[j]);
  }

  /**
    From lookup to the end of the run a connection's ticket is the one issued under its token for its
    peer, its account is that ticket's account, and none of them changes.
   */
  lemma TicketFixed(config: Config, states: seq<State>, events: seq<Event>, i: nat, j: nat, c: Ref)
    requires IsRun(config, states, events) && i <= j < |states|
    requires c in states[i].conns && states[i].conns[c].ticket.Some?
    ensures c in states[j].conns
    ensures var k, k' := states[i].conns[c], states[j].conns[c];
            && k'.ticket == k.ticket
            && k.ticket.value.token in states[j].issued
            && states[j].issued[k.ticket.value.token].session == k.ticket.value.session
            && k'.peer == Some(states[j].issued[k.ticket.value.token].peer)
            && (k'.account.Some? ==>
                  && k'.account.value.userID == k.ticket.value.session.userID
                  && k'.account.value.hash == k.ticket.value.session.accountHash)
            && (k'.confirmed ==> Spent(states[j].tickets.table, k.ticket.value.token))
  {
    hide IsRun, Next;
    RunGrows(config, states, events, i, j);
    ReachableInv(config, states, events, j);
    Facts(states[j], c);
  }

  /** Each reservation gets a token no earlier reservation of the run ever had. */
  lemma ReservationIsNew(s: State, a: Ref, session: S.Session, peer: Option<S.Peer>, now: int)
    requires Inv(s) && StepIssue(s, a, session, peer, now).Some?
    ensures var s' := StepIssue(s, a, session, peer, now).value;
            s'.issuers[a].Holding? ==>
              && s'.issuers[a].token !in s.issued
              && s'.issued[s'.issuers[a].token] == S.Pending(session, peer.value, s'.issuers[a].token)
              && s'.tickets.table[session.seed] == s'.issued[s'.issuers[a].token]
  {}

  /** A request that revoked its ticket leaves it out of the table for good. */
  lemma WithdrawnStaysOut(config: Config, states: seq<State>, events: seq<Event>, i: nat, j: nat, a: Ref)
    requires IsRun(config, states, events) && i <= j < |states|
    requires a in states[i].issuers && states[i].issuers[a].Withdrawn?
    ensures Spent(states[j].tickets.table, states[i].issuers[a].token)
  {
    hide IsRun, Next;
    RunGrows(config, states, events, i, j);
    ReachableInv(config, states, events, j);
    assert IssuersOk(states[j]);
  }

  lemma WithdrawTable(s: State, a: Ref)
    requires Next(s, Withdraw(a)).Some?
    ensures a in s.issuers && s.issuers[a].Holding?
    ensures Next(s, Withdraw(a)).value.tickets == S.AfterRevoke(s.tickets, s.issuers[a].seed, s.issuers[a].token)
  {
    hide ConnNext;
  }

  /**
    In every reachable state revoking a reservation removes exactly its own ticket: the table is
    unchanged when that ticket is gone already, whatever holds its seed by now.
   */
  lemma StaleRevokeIsHarmless(config: Config, states: seq<State>, events: seq<Event>, i: nat, a: Ref)
    requires IsRun(config, states, events) && i < |states| && Next(states[i], Withdraw(a)).Some?
    ensures a in states[i].issuers && states[i].issuers[a].Holding?
    ensures var t, t' := states[i].tickets, Next(states[i], Withdraw(a)).value.tickets;
            var held := states[i].issuers[a];
            && (Spent(t.table, held.token) ==> t' == t)
            && (!Spent(t.table, held.token) ==>
                  held.seed in t.table && t.table[held.seed].token == held.token && t' == t.(table := t.table - {held.seed}))
            && Spent(t'.table, held.token)
  {
    WithdrawTable(states[i], a);
    ReachableInv(config, states, events, i);
    hide Next, ConnNext, IsRun;
    assert IssuersOk(states[i]) && TableOk(states[i]);
    hide Inv, IssuersOk;
    RevokeExact(states[i], a);
  }

  lemma RevokeExact(s: State, a: Ref)
    requires IssuersOk(s) && TableOk(s) && a in s.issuers && s.issuers[a].Holding?
    ensures var t, held := s.tickets, s.issuers[a];
            var t' := S.AfterRevoke(t, held.seed, held.token);
            && (Spent(t.table, held.token) ==> t' == t)
            && (!Spent(t.table, held.token) ==>
                  held.seed in t.table && t.table[held.seed].token == held.token && t' == t.(table := t.table - {held.seed}))
            && Spent(t'.table, held.token)
  {}

  // ---------- matches ----------

  /** Every stored match belongs to a live confirmed connection, and carries its username. */
  lemma MatchOwnerIsLive(config: Config, states: seq<State>, events: seq<Event>, i: nat, m: M.Stored)
    requires IsRun(config, states, events) && i < |states| && m in states[i].matches.list
    ensures exists c :: LiveOwner(states[i], m, c) && states[i].conns[c].confirmed
  {
    hide IsRun, Next;
    ReachableInv(config, states, events, i);
    assert MatchOk(states[i], m);
    var c :| LiveOwner(states[i], m, c);
    Facts(states[i], c);
  }

  /** After a connection's cleanup no match of its number exists, then or later. */
  lemma DoneOwnsNothing(config: Config, states: seq<State>, events: seq<Event>, i: nat, j: nat, c: Ref, m: M.Stored)
    requires IsRun(config, states, events) && i <= j < |states|
    requires c in states[i].conns && states[i].conns[c].pc == Done
    requires m in states[j].matches.list
    ensures m.owner != states[i].conns[c].id
  {
    hide IsRun, Next;
    RunGrows(config, states, events, i, j);
    ReachableInv(config, states, events, j);
    var s := states[j];
    assert Grows(states[i].conns[c], s.conns[c]);
    assert MatchOk(s, m);
    var d :| LiveOwner(s, m, d);
    assert s.conns[d].id != 0 by { Facts(s, d); }
    assert c != d;
  }

  lemma MatchStepOthers(s: State, c: Ref, call: MatchCall, m: M.Stored)
    requires M.WellFormed(s.matches) && c in s.conns && StepMatch(s, c, s.conns[c], call).Some?
    requires m.owner != s.conns[c].id
    ensures m in s.matches.list <==> m in StepMatch(s, c, s.conns[c], call).value.matches.list
  {
    var mine, account := s.conns[c].id, s.conns[c].account.value;
    match call
    case CallCreate(info, random) =>
    case CallUpdate(id, info) => UpdateOthers(s.matches, mine, id, BoundInfo(info, account.username), m);
    case CallDelete(id) => DeleteOthers(s.matches, mine, id, m);
    case CallFind(_, _, _) =>
  }

  lemma WellFormedMatches(s: State)
    requires Inv(s)
    ensures M.WellFormed(s.matches)
  {}

  lemma MatchIsStep(s: State, c: Ref, e: Event)
    requires e.ServeMatch? && c in s.conns
    ensures ConnNext(s, c, s.conns[c], e) == StepMatch(s, c, s.conns[c], e.call)
  {
    hide StepMatch;
  }

  lemma CleanupIsStep(s: State, c: Ref, e: Event)
    requires e.Cleanup? && c in s.conns && ConnNext(s, c, s.conns[c], e).Some?
    ensures ConnNext(s, c, s.conns[c], e).value.matches.list
            == if s.conns[c].id != 0 then Seqs.Filter(s.matches.list, M.NotOwnedBy(s.conns[c].id)) else s.matches.list
  {
    hide Seqs.Filter;
  }

  lemma MatchesFixed(s: State, s': State, e: Event)
    requires Delta(s, s', e) && !e.ServeMatch? && !e.Cleanup?
    ensures s'.matches == s.matches
  {}

  /** A step of connection c leaves the matches of every other owner exactly as they were. */
  lemma OthersMatchesUntouched(s: State, e: Event, c: Ref, m: M.Stored)
    requires Inv(s) && ConnEvent(e) && e.c == c && Next(s, e).Some?
    requires c in s.conns && m.owner != s.conns[c].id
    ensures m in s.matches.list <==> m in Next(s, e).value.matches.list
  {
    hide Inv, Next, ConnNext, StepMatch, Seqs.Filter, Delta;
    NextIsConnNext(s, e);
    if e.ServeMatch? {
      MatchIsStep(s, c, e);
      WellFormedMatches(s);
      MatchStepOthers(s, c, e.call, m);
    } else if e.Cleanup? {
      CleanupIsStep(s, c, e);
      Seqs.FilterMember(s.matches.list, M.NotOwnedBy(s.conns[c].id), m);
    } else {
      ConnDelta(s, c, e);
      MatchesFixed(s, Next(s, e).value, e);
    }
  }

  lemma UpdateOthers(matches: M.Matches, owner: u64, id: SessionID, requested: Info, m: M.Stored)
    requires M.WellFormed(matches) && m.owner != owner
    ensures m in matches.list <==> m in M.AfterUpdate(matches, owner, id, requested).0.list
  {
    var (matches', r) := M.AfterUpdate(matches, owner, id, requested);
    if r.Ok? {
      var owned :| owned in matches.list && owned.info.sessionID == id && owned.owner == owner;
      forall i | 0 <= i < |matches.list|
        ensures matches'.list[i] == m <==> matches.list[i] == m
      {
        if matches.list[i].info.sessionID == id {
          M.SameIdSameMatch(matches, matches.list[i], owned);
        }
      }
      if m in matches.list {
        var i :| 0 <= i < |matches.list| && matches.list[i] == m;
        assert matches'.list[i] == m;
      }
    }
  }

  lemma DeleteOthers(matches: M.Matches, owner: u64, id: SessionID, m: M.Stored)
    requires M.WellFormed(matches) && m.owner != owner
    ensures m in matches.list <==> m in M.AfterDelete(matches, owner, id).0.list
  {
    var (matches', r) := M.AfterDelete(matches, owner, id);
    if r.Ok? {
      var owned :| owned in matches.list && owned.info.sessionID == id && owned.owner == owner;
      Seqs.FilterMember(matches.list, M.OtherThan(id), m);
      if m in matches.list && m.info.sessionID == id {
        M.SameIdSameMatch(matches, m, owned);
      }
    }
  }

  // ---------- registry ----------

  /** A lookup by account hash finds a confirmed connection of that account that is not cleaned up. */
  lemma LookupFindsLiveClient(config: Config, states: seq<State>, events: seq<Event>, i: nat, h: u64)
    requires IsRun(config, states, events) && i < |states| && h in states[i].registry
    ensures var s := states[i];
            var c := s.registry[h];
            && c in s.conns && s.conns[c].confirmed
            && s.conns[c].pc != Unregistered && s.conns[c].pc != Done
            && s.conns[c].account.Some? && s.conns[c].account.value.hash == h
            && s.conns[c].ticket.Some? && s.conns[c].ticket.value.session.accountHash == h
  {
    hide IsRun, Next;
    ReachableInv(config, states, events, i);
    assert Registrable(states[i], h, states[i].registry[h]);
    Facts(states[i], states[i].registry[h]);
  }

  ghost predicate Absent(s: State, c: Ref) {
    forall h | h in s.registry :: s.registry[h] != c
  }

  /** The three steps that touch the registry, and what they do to it. */
  ghost predicate RegistryChange(s: State, e: Event, registry: map<u64, Ref>) {
    match e
    case Activate(c) =>
      && c in s.conns && !s.conns[c].activated && s.conns[c].confirmed && s.conns[c].account.Some?
      && registry == s.registry[s.conns[c].account.value.hash := c]
    case Unregister(c) => c in s.conns && registry == Deactivated(s, c, s.conns[c]).registry
    case Drop(c) =>
      && c in s.conns && s.conns[c].pc.Dropping? && s.conns[c].pc.to in s.conns
      && registry == Deactivated(s, s.conns[c].pc.to, s.conns[s.conns[c].pc.to]).registry
    case _ => registry == s.registry
  }

  lemma ActivateRegistry(s: State, e: Event)
    requires Inv(s) && Next(s, e).Some? && e.Activate?
    ensures RegistryChange(s, e, Next(s, e).value.registry)
  {
    NextIsConnNext(s, e);
    Facts(s, e.c);
    hide Inv, Next, OutOk, LocalOk;
  }

  lemma DropRegistry(s: State, e: Event)
    requires Next(s, e).Some? && e.Drop?
    ensures RegistryChange(s, e, Next(s, e).value.registry)
  {
    NextIsConnNext(s, e);
    hide Next;
    DropIsStep(s, e);
    hide ConnNext, Deactivated;
  }

  lemma DropIsStep(s: State, e: Event)
    requires e.Drop? && e.c in s.conns && ConnNext(s, e.c, s.conns[e.c], e).Some?
    ensures s.conns[e.c].pc.Dropping? && s.conns[e.c].pc.to in s.conns
    ensures var to := s.conns[e.c].pc.to;
            ConnNext(s, e.c, s.conns[e.c], e).value.registry == Deactivated(s, to, s.conns[to]).registry
  {
    hide Deactivated;
  }

  lemma UnregisterRegistry(s: State, e: Event)
    requires Next(s, e).Some? && e.Unregister?
    ensures RegistryChange(s, e, Next(s, e).value.registry)
  {
    NextIsConnNext(s, e);
    hide Next;
    UnregisterIsStep(s, e);
    hide ConnNext, Deactivated;
  }

  lemma UnregisterIsStep(s: State, e: Event)
    requires e.Unregister? && e.c in s.conns && ConnNext(s, e.c, s.conns[e.c], e).Some?
    ensures ConnNext(s, e.c, s.conns[e.c], e).value.registry == Deactivated(s, e.c, s.conns[e.c]).registry
  {
    hide Deactivated;
  }

  lemma RegistryStep(s: State, e: Event)
    requires Inv(s) && Next(s, e).Some? && (e.Activate? || e.Drop? || e.Unregister?)
    ensures RegistryChange(s, e, Next(s, e).value.registry)
  {
    hide Inv, Next, RegistryChange;
    if e.Activate? {
      ActivateRegistry(s, e);
    } else if e.Drop? {
      DropRegistry(s, e);
    } else {
      UnregisterRegistry(s, e);
    }
  }

  lemma RegistryChanges(s: State, e: Event)
    requires Inv(s) && Next(s, e).Some?
    ensures RegistryChange(s, e, Next(s, e).value.registry)
  {
    hide Inv;
    if e.Activate? || e.Drop? || e.Unregister? {
      hide RegistryChange, Next;
      RegistryStep(s, e);
    } else if ConnEvent(e) {
      hide Next, ConnNext;
      NextIsConnNext(s, e);
      ConnDelta(s, e.c, e);
    } else {
      hide Next;
      SharedFixed(s, e);
    }
  }

  lemma StepAbsent(s: State, e: Event, c: Ref)
    requires Inv(s) && Next(s, e).Some? && c in s.conns && s.conns[c].activated && Absent(s, c)
    ensures Absent(Next(s, e).value, c)
  {
    hide Inv, Next;
    RegistryChanges(s, e);
  }

  lemma StaysActivated(s: State, s': State, c: Ref)
    requires ConnsGrow(s, s') && c in s.conns && s.conns[c].activated
    ensures c in s'.conns && s'.conns[c].activated
  {
    assert Grows(s.conns[c], s'.conns[c]);
  }

  /** A client that was replaced or dropped is never found by a later lookup. */
  lemma {:induction false} ReplacedNeverReturns(
      config: Config, states: seq<State>, events: seq<Event>, i: nat, j: nat, c: Ref)
    requires IsRun(config, states, events) && i <= j < |states|
    requires c in states[i].conns && states[i].conns[c].activated && Absent(states[i], c)
    ensures Absent(states[j], c)
    decreases j
  {
    hide IsRun, Inv, Absent, Next, ConnsGrow, IssuedGrows, WithdrawnStays;
    if i < j {
      ReplacedNeverReturns(config, states, events, i, j - 1, c);
      RunGrows(config, states, events, i, j - 1);
      StaysActivated(states[i], states[j - 1], c);
      ReachableInv(config, states, events, j - 1);
      RunStep(config, states, events, j - 1);
      StepAbsent(states[j - 1], events[j - 1], c);
    }
  }

  /**
    A registration disappears only by its own client's deactivation: its own return, or a push to it
    that failed. It is overwritten only by a client of the same account that has just been confirmed.
   */
  lemma RegistrationEndsProperly(s: State, e: Event, h: u64)
    requires Inv(s) && Next(s, e).Some? && h in s.registry
    ensures var s' := Next(s, e).value;
            var c := s.registry[h];
            && (h !in s'.registry ==>
                  || e == Unregister(c)
                  || (e.Drop? && s.conns[e.c].pc == Dropping(c)))
            && (h in s'.registry && s'.registry[h] != c ==>
                  && e == Activate(s'.registry[h])
                  && s.conns[s'.registry[h]].confirmed
                  && s.conns[s'.registry[h]].account.value.hash == h)
  {
    hide Inv, Next;
    RegistryChanges(s, e);
  }

  // ---------- output ----------

  /** What a connection has written: task replies numbered 0, 1, 2, ... whatever pushes come between. */
  lemma RepliesInOrder(config: Config, states: seq<State>, events: seq<Event>, i: nat, c: Ref)
    requires IsRun(config, states, events) && i < |states| && c in states[i].conns
    ensures var k := states[i].conns[c];
            ReplyNumbers(k.out) == Upto(k.tx) && forall n | 0 <= n < |k.out| :: Fits(k.out[n])
  {
    hide IsRun, Next;
    ReachableInv(config, states, events, i);
    Facts(states[i], c);
  }
}
