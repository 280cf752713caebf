/** What every reachable state of the lobby protocol satisfies. */
module LobbyInvariants {
  import opened Bytes
  import opened MatchmakingTypes
  import opened Outputs
  import opened Lobby
  import S = LobbySessions
  import M = MatchStore
  import Seqs

  // ---------- one connection ----------

  predicate ServingPc(pc: Pc) {
    || pc.Displacing? || pc.Serving? || pc.Delivering? || pc.Pushing?
    || pc.Dropping? || pc.HangingUp? || pc.Replying?
  }

  /** The local variables of HandleTCP agree with each other and with the point it is at. */
  predicate LocalOk(k: Conn) {
    && (k.pc == LookedUp ==> k.ticket.Some? && !k.authenticated && k.id == 0 && k.account.None?)
    && (k.pc == Bound ==> k.account.Some? && !k.authenticated && k.id == 0)
    && (k.pc == Numbered ==> k.id != 0 && !k.authenticated)
    && (k.pc == Reading && !k.authenticated ==> k.id == 0 && k.account.None? && k.ticket.None?)
    && (k.account.Some? ==>
          && k.ticket.Some?
          && k.account.value.userID == k.ticket.value.session.userID
          && k.account.value.hash == k.ticket.value.session.accountHash
          && 0 !in k.account.value.username)
    && (k.id != 0 ==> k.account.Some?)
    && (k.authenticated ==> k.id != 0)
    && (k.confirmed ==> k.authenticated)
    && (k.activated ==> k.confirmed)
    && (k.pc == Consumed ==> k.confirmed && !k.activated)
    && (k.confirmed && !k.activated ==> k.pc == Consumed)
    && (ServingPc(k.pc) ==> k.activated)
    && ((k.pc.Delivering? || k.pc.Pushing?) ==> |k.pc.message| <= MAX_MESSAGE)
    && (k.pc.Replying? ==> Fits(Reply(k.tx, k.pc.outcome)))
  }

  /** Task replies are numbered 0, 1, 2, ... in the order they were written. */
  ghost predicate OutOk(out: seq<Sent>, tx: nat) {
    && ReplyNumbers(out) == Upto(tx)
    && (forall i | 0 <= i < |out| :: Fits(out[i]))
  }

  ghost predicate ConnsOk(s: State) {
    forall c | c in s.conns :: LocalOk(s.conns[c]) && OutOk(s.conns[c].out, s.conns[c].tx)
  }

  // ---------- tickets ----------

  /** No stored ticket carries this token. */
  ghost predicate Spent(table: S.Table, token: u64) {
    forall seed | seed in table :: table[seed].token != token
  }

  /** Every stored ticket is the one issued under its token, at its seed. */
  ghost predicate TableOk(s: State) {
    && (forall seed | seed in s.tickets.table ::
          var p := s.tickets.table[seed];
          p.session.seed == seed && p.token in s.issued && s.issued[p.token] == p)
    && (forall token | token in s.issued :: 1 <= token <= s.tickets.nextToken)
  }

  /** A connection's ticket is the one issued under its token, to its peer. */
  ghost predicate TicketOf(s: State, k: Conn) {
    k.ticket.Some? ==>
      && k.ticket.value.token in s.issued
      && s.issued[k.ticket.value.token].session == k.ticket.value.session
      && k.peer == Some(s.issued[k.ticket.value.token].peer)
  }

  ghost predicate TicketsOk(s: State) {
    && TableOk(s)
    && (forall c | c in s.conns :: TicketOf(s, s.conns[c]))
    && (forall c | c in s.conns && s.conns[c].confirmed ::
          s.conns[c].ticket.Some? && Spent(s.tickets.table, s.conns[c].ticket.value.token))
    && SingleUse(s)
  }

  /** No two connections are confirmed by the same reservation. */
  ghost predicate SingleUse(s: State) {
    forall c, d | c in s.conns && d in s.conns && c != d && s.conns[c].confirmed && s.conns[d].confirmed ::
      s.conns[c].ticket.Some? && s.conns[d].ticket.Some?
      && s.conns[c].ticket.value.token != s.conns[d].ticket.value.token
  }

  ghost predicate IssuersOk(s: State) {
    forall a | a in s.issuers ::
      match s.issuers[a]
      case Holding(seed, token) => token in s.issued && s.issued[token].session.seed == seed
      case Granted(seed, token) => token in s.issued && s.issued[token].session.seed == seed
      case Withdrawn(seed, token) => token in s.issued && Spent(s.tickets.table, token)
      case _ => true
  }

  // ---------- connection numbers ----------

  ghost predicate NumbersOk(s: State) {
    && (forall c | c in s.conns :: s.conns[c].id <= s.nextID)
    && (forall c, d | c in s.conns && d in s.conns && c != d && s.conns[c].id != 0 :: s.conns[c].id != s.conns[d].id)
  }

  // ---------- registry ----------

  /** c is confirmed and activated, has not run its deferred deactivate, and its account hash is h. */
  ghost predicate Registrable(s: State, h: u64, c: Ref) {
    && c in s.conns
    && s.conns[c].activated
    && s.conns[c].pc != Unregistered && s.conns[c].pc != Done
    && s.conns[c].account.Some? && s.conns[c].account.value.hash == h
  }

  ghost predicate RegistryOk(s: State) {
    forall h | h in s.registry :: Registrable(s, h, s.registry[h])
  }

  /** Every connection another one is about to push to or close is known. */
  ghost predicate TargetsOk(s: State) {
    forall c | c in s.conns ::
      match s.conns[c].pc
      case Displacing(v) => v in s.conns
      case Delivering(to, _) => to in s.conns
      case Pushing(to, _, _) => to in s.conns
      case Dropping(to) => to in s.conns
      case HangingUp(to) => to in s.conns
      case _ => true
  }

  // ---------- matches ----------

  /** c owns m, is confirmed, has not finished its cleanup, and m carries c's username. */
  ghost predicate LiveOwner(s: State, m: M.Stored, c: Ref) {
    && c in s.conns
    && s.conns[c].id == m.owner
    && s.conns[c].activated
    && s.conns[c].pc != Done
    && s.conns[c].account.Some?
    && m.info.attributes.text130 == s.conns[c].account.value.username
  }

  ghost predicate MatchOk(s: State, m: M.Stored) {
    && M.ValidInfo(m.info)
    && exists c :: LiveOwner(s, m, c)
  }

  ghost predicate MatchesOk(s: State) {
    && M.WellFormed(s.matches)
    && forall m | m in s.matches.list :: MatchOk(s, m)
  }

  ghost predicate AccountsOk(s: State) {
    forall u | u in s.accounts :: s.accounts[u].userID == u && 0 !in s.accounts[u].username
  }

  ghost predicate Inv(s: State) {
    && AccountsOk(s)
    && ConnsOk(s)
    && TicketsOk(s)
    && IssuersOk(s)
    && NumbersOk(s)
    && RegistryOk(s)
    && TargetsOk(s)
    && MatchesOk(s)
  }

  lemma InitInv(config: Config)
    ensures Inv(Init(config))
  {}

  lemma Facts(s: State, c: Ref)
    requires Inv(s) && c in s.conns
    ensures LocalOk(s.conns[c]) && OutOk(s.conns[c].out, s.conns[c].tx) && TargetOk(s, s.conns[c].pc) && TicketOf(s, s.conns[c])
  {}

  // ---------- frames: only connection c changes ----------

  ghost predicate TargetOk(s: State, pc: Pc) {
    match pc
    case Displacing(v) => v in s.conns
    case Delivering(to, _) => to in s.conns
    case Pushing(to, _, _) => to in s.conns
    case Dropping(to) => to in s.conns
    case HangingUp(to) => to in s.conns
    case _ => true
  }

  ghost predicate OnlyConn(s: State, s': State, c: Ref) {
    c in s.conns && c in s'.conns && s'.conns == s.conns[c := s'.conns[c]]
  }

  /** An activated connection keeps its number and account and does not finish its cleanup. */
  predicate KeepsOwner(k: Conn, k1: Conn) {
    k.activated ==> k1.activated && k1.id == k.id && k1.account == k.account && (k1.pc == Done ==> k.pc == Done)
  }

  predicate KeepsRegistered(k: Conn, k1: Conn) {
    k.activated ==>
      && k1.activated && k1.account == k.account
      && (k1.pc == Unregistered || k1.pc == Done ==> k.pc == Unregistered || k.pc == Done)
  }

  predicate KeepsTicket(k: Conn, k1: Conn) {
    k1.ticket == k.ticket && k1.peer == k.peer && k1.confirmed == k.confirmed
  }

  lemma ConnsKept(s: State, s': State, c: Ref)
    requires ConnsOk(s) && TargetsOk(s) && OnlyConn(s, s', c)
    requires LocalOk(s'.conns[c]) && OutOk(s'.conns[c].out, s'.conns[c].tx) && TargetOk(s, s'.conns[c].pc)
    ensures ConnsOk(s') && TargetsOk(s')
  {}

  lemma TicketsKept(s: State, s': State, c: Ref)
    requires TicketsOk(s) && IssuersOk(s) && OnlyConn(s, s', c) && KeepsTicket(s.conns[c], s'.conns[c])
    requires s'.tickets == s.tickets && s'.issued == s.issued && s'.issuers == s.issuers
    ensures TicketsOk(s') && IssuersOk(s')
  {
    assert forall d | d in s'.conns :: TicketOf(s, s.conns[d]) && TicketOf(s', s'.conns[d]);
  }

  lemma MatchesKept(s: State, s': State, c: Ref)
    requires MatchesOk(s) && s'.matches == s.matches
    requires OnlyConn(s, s', c) && KeepsOwner(s.conns[c], s'.conns[c])
    ensures MatchesOk(s')
  {
    forall m | m in s'.matches.list ensures MatchOk(s', m) {
      assert MatchOk(s, m);
      var d :| LiveOwner(s, m, d);
      assert LiveOwner(s', m, d);
    }
  }

  lemma RegistryKept(s: State, s': State, c: Ref)
    requires RegistryOk(s) && s'.registry == s.registry
    requires OnlyConn(s, s', c) && KeepsRegistered(s.conns[c], s'.conns[c])
    ensures RegistryOk(s')
  {
    forall h | h in s'.registry ensures Registrable(s', h, s'.registry[h]) {
      assert Registrable(s, h, s.registry[h]);
    }
  }

  lemma SameConns(s: State, s': State)
    requires s'.conns == s.conns
    ensures ConnsOk(s) && TargetsOk(s) ==> ConnsOk(s') && TargetsOk(s')
    ensures NumbersOk(s) && s.nextID <= s'.nextID ==> NumbersOk(s')
    ensures MatchesOk(s) && s'.matches == s.matches ==> MatchesOk(s')
    ensures RegistryOk(s) && s'.registry == s.registry ==> RegistryOk(s')
  {
    if MatchesOk(s) && s'.matches == s.matches {
      forall m | m in s'.matches.list ensures MatchOk(s', m) {
        assert MatchOk(s, m);
        var d :| LiveOwner(s, m, d);
        assert LiveOwner(s', m, d);
      }
    }
    if RegistryOk(s) && s'.registry == s.registry {
      forall h | h in s'.registry ensures Registrable(s', h, s'.registry[h]) {
        assert Registrable(s, h, s.registry[h]);
      }
    }
  }

  lemma SameTickets(s: State, s': State)
    requires TicketsOk(s) && IssuersOk(s)
    requires s'.conns == s.conns && s'.tickets == s.tickets && s'.issued == s.issued && s'.issuers == s.issuers
    ensures TicketsOk(s') && IssuersOk(s')
  {
    assert forall d | d in s'.conns :: TicketOf(s, s.conns[d]) && TicketOf(s', s'.conns[d]);
  }

  /** k1 may stand where k stood: same identity and rights, and not further through its cleanup. */
  predicate Replaces(k: Conn, k1: Conn) {
    KeepsTicket(k, k1) && KeepsOwner(k, k1) && KeepsRegistered(k, k1) && k1.id == k.id
  }

  lemma LocalChange(s: State, c: Ref, k1: Conn)
    requires Inv(s) && c in s.conns
    requires Replaces(s.conns[c], k1) && LocalOk(k1) && OutOk(k1.out, k1.tx) && TargetOk(s, k1.pc)
    ensures Inv(With(s, c, k1))
  {
    var s' := With(s, c, k1);
    assert NumbersOk(s') && AccountsOk(s');
    hide AccountsOk, ConnsOk, TicketsOk, IssuersOk, NumbersOk, RegistryOk, TargetsOk, MatchesOk;
    ConnsKept(s, s', c);
    TicketsKept(s, s', c);
    MatchesKept(s, s', c);
    RegistryKept(s, s', c);
  }

  // ---------- steps on the ticket table ----------

  ghost predicate Subtable(small: S.Table, big: S.Table) {
    forall seed | seed in small :: seed in big && small[seed] == big[seed]
  }

  lemma TicketsShrink(s: State, s': State)
    requires TicketsOk(s) && IssuersOk(s) && Subtable(s'.tickets.table, s.tickets.table)
    requires s'.tickets.nextToken == s.tickets.nextToken
    requires s'.conns == s.conns && s'.issued == s.issued && s'.issuers == s.issuers
    ensures TicketsOk(s') && IssuersOk(s')
  {
    assert forall c | c in s.conns :: TicketOf(s, s.conns[c]) && TicketOf(s', s'.conns[c]);
    assert forall token | Spent(s.tickets.table, token) :: Spent(s'.tickets.table, token);
  }

  lemma ShrinkTable(s: State, table: S.Table)
    requires Inv(s) && Subtable(table, s.tickets.table)
    ensures Inv(s.(tickets := s.tickets.(table := table)))
  {
    var s' := s.(tickets := s.tickets.(table := table));
    assert AccountsOk(s');
    TicketsShrink(s, s');
    hide AccountsOk, ConnsOk, TicketsOk, IssuersOk, NumbersOk, RegistryOk, TargetsOk, MatchesOk;
    SameConns(s, s');
  }

  lemma RegisterKeeps(s: State, account: Account)
    requires Inv(s) && Next(s, Register(account)).Some?
    ensures Inv(Next(s, Register(account)).value)
  {
    var s' := Next(s, Register(account)).value;
    assert AccountsOk(s');
    hide AccountsOk, ConnsOk, TicketsOk, IssuersOk, NumbersOk, RegistryOk, TargetsOk, MatchesOk;
    SameTickets(s, s');
    SameConns(s, s');
  }

  /** An issuer moves on without touching any table. */
  lemma IssuerChange(s: State, a: Ref, i: Issuer)
    requires Inv(s)
    requires match i
             case Granted(seed, token) => token in s.issued && s.issued[token].session.seed == seed
             case Withdrawn(seed, token) => token in s.issued && Spent(s.tickets.table, token)
             case Holding(_, _) => false
             case _ => true
    ensures Inv(s.(issuers := s.issuers[a := i]))
  {
    var s' := s.(issuers := s.issuers[a := i]);
    assert AccountsOk(s') && IssuersOk(s');
    SameTickets(s, s'.(issuers := s.issuers));
    assert TicketsOk(s') by {
      assert forall c | c in s.conns :: TicketOf(s, s.conns[c]) && TicketOf(s', s'.conns[c]);
    }
    hide AccountsOk, ConnsOk, TicketsOk, IssuersOk, NumbersOk, RegistryOk, TargetsOk, MatchesOk;
    SameConns(s, s');
  }

  lemma TableGrows(s: State, s': State, p: S.Pending)
    requires TableOk(s) && p.session.seed !in s.tickets.table && p.token == s.tickets.nextToken + 1 < U64_LIMIT
    requires s'.tickets == S.Tickets(s.tickets.table[p.session.seed := p], p.token)
    requires s'.issued == s.issued[p.token := p]
    ensures p.token !in s.issued && TableOk(s')
    ensures forall token | token in s.issued && Spent(s.tickets.table, token) :: Spent(s'.tickets.table, token)
  {}

  lemma TicketsGrow(s: State, s': State, a: Ref, p: S.Pending)
    requires TicketsOk(s) && IssuersOk(s)
    requires p.session.seed !in s.tickets.table && p.token == s.tickets.nextToken + 1 < U64_LIMIT
    requires s'.conns == s.conns && s'.tickets == S.Tickets(s.tickets.table[p.session.seed := p], p.token)
    requires s'.issued == s.issued[p.token := p]
    requires s'.issuers == s.issuers[a := Holding(p.session.seed, p.token)]
    ensures TicketsOk(s') && IssuersOk(s')
  {
    TableGrows(s, s', p);
    IssuersGrow(s, s', a, p);
    hide TableOk, Spent, IssuersOk;
    assert forall c | c in s.conns :: TicketOf(s, s.conns[c]) && TicketOf(s', s'.conns[c]);
  }

  lemma IssuersGrow(s: State, s': State, a: Ref, p: S.Pending)
    requires IssuersOk(s) && p.token !in s.issued && s'.issued == s.issued[p.token := p]
    requires forall token | token in s.issued && Spent(s.tickets.table, token) :: Spent(s'.tickets.table, token)
    requires s'.issuers == s.issuers[a := Holding(p.session.seed, p.token)]
    ensures IssuersOk(s')
  {
    hide Spent;
  }

  /** A reservation under a token above every issued one. */
  lemma AddTicket(s: State, a: Ref, p: S.Pending)
    requires Inv(s)
    requires p.session.seed !in s.tickets.table && p.token == s.tickets.nextToken + 1 < U64_LIMIT
    ensures Inv(s.(tickets := S.Tickets(s.tickets.table[p.session.seed := p], p.token),
                   issued := s.issued[p.token := p],
                   issuers := s.issuers[a := Holding(p.session.seed, p.token)]))
  {
    var s' := s.(tickets := S.Tickets(s.tickets.table[p.session.seed := p], p.token),
                 issued := s.issued[p.token := p],
                 issuers := s.issuers[a := Holding(p.session.seed, p.token)]);
    assert AccountsOk(s');
    TicketsGrow(s, s', a, p);
    hide AccountsOk, ConnsOk, TicketsOk, IssuersOk, NumbersOk, RegistryOk, TargetsOk, MatchesOk;
    SameConns(s, s');
  }

  lemma IssueKeeps(s: State, a: Ref, session: S.Session, peer: Option<S.Peer>, now: int)
    requires Inv(s) && StepIssue(s, a, session, peer, now).Some?
    ensures Inv(StepIssue(s, a, session, peer, now).value)
  {
    hide Inv;
    var (tickets, r) := S.AfterReserve(s.tickets, s.config.tickets, session, peer, now);
    var live := if r == Err(S.InvalidLobbySession) then s.tickets.table else S.Live(s.tickets.table, now);
    ShrinkTable(s, live);
    var s1 := s.(tickets := s.tickets.(table := live));
    match r
    case Ok(token) => AddTicket(s1, a, tickets.table[session.seed]);
    case Err(SeedCollision) => IssuerChange(s1, a, Trying);
    case Err(_) => IssuerChange(s1, a, Refused);
  }

  lemma GrantKeeps(s: State, a: Ref)
    requires Inv(s) && a in s.issuers && s.issuers[a].Holding?
    ensures Inv(s.(issuers := s.issuers[a := Granted(s.issuers[a].seed, s.issuers[a].token)]))
  {
    assert IssuersOk(s);
    hide Inv;
    IssuerChange(s, a, Granted(s.issuers[a].seed, s.issuers[a].token));
  }

  lemma WithdrawKeeps(s: State, a: Ref)
    requires Inv(s) && Next(s, Withdraw(a)).Some?
    ensures Inv(Next(s, Withdraw(a)).value)
  {
    var held := s.issuers[a];
    var tickets := S.AfterRevoke(s.tickets, held.seed, held.token);
    ShrinkTable(s, tickets.table);
    var s1 := s.(tickets := s.tickets.(table := tickets.table));
    forall seed | seed in tickets.table ensures tickets.table[seed].token != held.token {
      assert s.issued[s.tickets.table[seed].token] == s.tickets.table[seed];
    }
    IssuerChange(s1, a, Withdrawn(held.seed, held.token));
  }

  lemma OpenShared(s: State, s': State, c: Ref)
    requires MatchesOk(s) && RegistryOk(s) && s'.matches == s.matches && s'.registry == s.registry
    requires c !in s.conns && c in s'.conns && s'.conns == s.conns[c := s'.conns[c]]
    ensures MatchesOk(s') && RegistryOk(s')
  {
    forall m | m in s'.matches.list ensures MatchOk(s', m) {
      assert MatchOk(s, m);
      var d :| LiveOwner(s, m, d);
      assert LiveOwner(s', m, d);
    }
    forall h | h in s'.registry ensures Registrable(s', h, s'.registry[h]) {
      assert Registrable(s, h, s.registry[h]);
    }
  }

  lemma OpenTickets(s: State, c: Ref, peer: Option<S.Peer>)
    requires TicketsOk(s) && IssuersOk(s) && c !in s.conns
    ensures TicketsOk(With(s, c, Fresh(peer))) && IssuersOk(With(s, c, Fresh(peer)))
  {
    var s' := With(s, c, Fresh(peer));
    assert forall d | d in s.conns :: TicketOf(s, s.conns[d]) && TicketOf(s', s'.conns[d]);
  }

  lemma OpenOthers(s: State, c: Ref, peer: Option<S.Peer>)
    requires AccountsOk(s) && ConnsOk(s) && NumbersOk(s) && TargetsOk(s) && c !in s.conns
    ensures var s' := With(s, c, Fresh(peer)); AccountsOk(s') && ConnsOk(s') && NumbersOk(s') && TargetsOk(s')
  {}

  lemma OpenKeeps(s: State, c: Ref, peer: Option<S.Peer>)
    requires Inv(s) && c !in s.conns
    ensures Inv(With(s, c, Fresh(peer)))
  {
    hide AccountsOk, ConnsOk, TicketsOk, IssuersOk, NumbersOk, RegistryOk, TargetsOk, MatchesOk;
    OpenTickets(s, c, peer);
    OpenOthers(s, c, peer);
    OpenShared(s, With(s, c, Fresh(peer)), c);
  }

  lemma TicketGained(s: State, s': State, c: Ref)
    requires TicketsOk(s) && IssuersOk(s) && OnlyConn(s, s', c)
    requires s'.tickets == s.tickets && s'.issued == s.issued && s'.issuers == s.issuers
    requires !s.conns[c].confirmed && !s'.conns[c].confirmed && TicketOf(s, s'.conns[c])
    ensures TicketsOk(s') && IssuersOk(s')
  {
    assert forall d | d in s.conns :: TicketOf(s, s.conns[d]) && TicketOf(s', s'.conns[d]);
  }

  /** A connection that has no rights yet takes up the ticket it looked up. */
  lemma GainTicket(s: State, c: Ref, k1: Conn)
    requires Inv(s) && c in s.conns
    requires s.conns[c].pc == Reading && !s.conns[c].authenticated
    requires k1 == s.conns[c].(pc := LookedUp, ticket := k1.ticket) && k1.ticket.Some?
    requires TicketOf(s, k1)
    ensures Inv(With(s, c, k1))
  {
    var s' := With(s, c, k1);
    Facts(s, c);
    assert AccountsOk(s') && NumbersOk(s');
    hide AccountsOk, ConnsOk, TicketsOk, IssuersOk, NumbersOk, RegistryOk, TargetsOk, MatchesOk;
    TicketGained(s, s', c);
    ConnsKept(s, s', c);
    MatchesKept(s, s', c);
    RegistryKept(s, s', c);
  }

  lemma LoginKeeps(s: State, c: Ref, seed: u32, title: u32, now: int)
    requires Inv(s) && c in s.conns && StepLogin(s, c, s.conns[c], seed, title, now).Some?
    ensures Inv(StepLogin(s, c, s.conns[c], seed, title, now).value)
  {
    var k := s.conns[c];
    var (tickets, r) := S.AfterLookup(s.tickets, seed, k.peer, now);
    ShrinkTable(s, tickets.table);
    var s1 := s.(tickets := s.tickets.(table := tickets.table));
    if r.Some? && r.value.session.titleID == title {
      GainTicket(s1, c, k.(pc := LookedUp, ticket := Some(Ticket(r.value.session, r.value.token))));
    } else {
      LocalChange(s1, c, k.(pc := Leaving));
    }
  }

  lemma ConfirmTickets(s: State, c: Ref)
    requires TicketsOk(s) && IssuersOk(s) && c in s.conns && s.conns[c].ticket.Some?
    requires Spent(s.tickets.table, s.conns[c].ticket.value.token)
    requires forall d | d in s.conns && s.conns[d].confirmed && s.conns[d].ticket.Some? ::
               s.conns[d].ticket.value.token != s.conns[c].ticket.value.token
    ensures var s' := With(s, c, s.conns[c].(pc := Consumed, confirmed := true)); TicketsOk(s') && IssuersOk(s')
  {
    var s' := With(s, c, s.conns[c].(pc := Consumed, confirmed := true));
    assert forall d | d in s.conns :: TicketOf(s, s.conns[d]) && TicketOf(s', s'.conns[d]);
  }

  /** The connection whose ticket has just left the table is confirmed by it. */
  lemma Confirm(s: State, c: Ref)
    requires Inv(s) && c in s.conns && s.conns[c].pc == Reading
    requires s.conns[c].authenticated && !s.conns[c].confirmed && s.conns[c].ticket.Some?
    requires Spent(s.tickets.table, s.conns[c].ticket.value.token)
    requires forall d | d in s.conns && s.conns[d].confirmed && s.conns[d].ticket.Some? ::
               s.conns[d].ticket.value.token != s.conns[c].ticket.value.token
    ensures Inv(With(s, c, s.conns[c].(pc := Consumed, confirmed := true)))
  {
    var k1 := s.conns[c].(pc := Consumed, confirmed := true);
    var s' := With(s, c, k1);
    Facts(s, c);
    assert AccountsOk(s') && NumbersOk(s');
    hide AccountsOk, ConnsOk, TicketsOk, IssuersOk, NumbersOk, RegistryOk, TargetsOk, MatchesOk, OutOk;
    ConfirmTickets(s, c);
    ConnsKept(s, s', c);
    MatchesKept(s, s', c);
    RegistryKept(s, s', c);
  }

  /** What Consume hands back is exactly what this connection got from Lookup, and it is then spent. */
  lemma ConsumeReturnsLookedUp(s: State, c: Ref, now: int)
    requires TicketsOk(s) && c in s.conns && s.conns[c].ticket.Some?
    ensures var ticket := s.conns[c].ticket.value;
            var (tickets, r) := S.AfterConsume(s.tickets, ticket.session.seed, ticket.token, s.conns[c].peer, now);
            && Subtable(tickets.table, s.tickets.table)
            && (r.Some? ==>
                  && r.value == ticket.session
                  && r.value.expiresAt > now
                  && Spent(tickets.table, ticket.token)
                  && !Spent(s.tickets.table, ticket.token))
  {
    var ticket := s.conns[c].ticket.value;
    var (tickets, r) := S.AfterConsume(s.tickets, ticket.session.seed, ticket.token, s.conns[c].peer, now);
    assert TicketOf(s, s.conns[c]);
    if r.Some? {
      forall seed | seed in tickets.table ensures tickets.table[seed].token != ticket.token {
        assert s.issued[s.tickets.table[seed].token] == s.tickets.table[seed];
      }
      assert s.tickets.table[ticket.session.seed].token == ticket.token;
    }
  }

  /** A token still in the table confirms nobody yet. */
  lemma UnspentConfirmsNobody(s: State, token: u64)
    requires TicketsOk(s) && !Spent(s.tickets.table, token)
    ensures forall d | d in s.conns && s.conns[d].confirmed && s.conns[d].ticket.Some? :: s.conns[d].ticket.value.token != token
  {}

  lemma ProveKeeps(s: State, c: Ref, now: int)
    requires Inv(s) && c in s.conns && StepRequest(s, c, s.conns[c], now).Some? && !s.conns[c].confirmed
    ensures Inv(StepRequest(s, c, s.conns[c], now).value)
  {
    var k := s.conns[c];
    Facts(s, c);
    assert TicketsOk(s);
    hide Inv, OutOk, TargetOk;
    ConsumeReturnsLookedUp(s, c, now);
    if !Spent(s.tickets.table, k.ticket.value.token) { UnspentConfirmsNobody(s, k.ticket.value.token); }
    hide S.AfterConsume, Spent, TicketsOk, Subtable;
    var (tickets, r) := S.AfterConsume(s.tickets, k.ticket.value.session.seed, k.ticket.value.token, k.peer, now);
    TokenKept(s.tickets, k.ticket.value.session.seed, k.ticket.value.token, k.peer, now);
    ShrinkTable(s, tickets.table);
    var s1 := s.(tickets := s.tickets.(table := tickets.table));
    if r.Some? {
      Confirm(s1, c);
    } else {
      LeavingLocal(k);
      hide LocalOk, Replaces;
      FactsOut(s1, c);
      LocalChange(s1, c, k.(pc := Leaving));
    }
  }

  lemma LeavingLocal(k: Conn)
    requires LocalOk(k) && (k.pc == Reading || ServingPc(k.pc))
    ensures LocalOk(k.(pc := Leaving)) && Replaces(k, k.(pc := Leaving))
  {}

  lemma FactsOut(s: State, c: Ref)
    requires Inv(s) && c in s.conns
    ensures OutOk(s.conns[c].out, s.conns[c].tx) && TargetOk(s, Leaving)
  {}

  lemma RequestKeeps(s: State, c: Ref, now: int)
    requires Inv(s) && c in s.conns && StepRequest(s, c, s.conns[c], now).Some?
    ensures Inv(StepRequest(s, c, s.conns[c], now).value)
  {
    if s.conns[c].confirmed {
      Facts(s, c);
      hide Inv, OutOk;
      LocalChange(s, c, s.conns[c].(pc := Serving));
    } else {
      hide Inv, StepRequest;
      ProveKeeps(s, c, now);
    }
  }

  lemma TokenKept(t: S.Tickets, seed: u32, token: u64, peer: Option<S.Peer>, now: int)
    ensures S.AfterConsume(t, seed, token, peer, now).0.nextToken == t.nextToken
  {}

  // ---------- steps on numbers, registry and matches ----------

  lemma NumberKeeps(s: State, c: Ref)
    requires Inv(s) && c in s.conns && StepNumber(s, c, s.conns[c]).Some?
    ensures Inv(StepNumber(s, c, s.conns[c]).value)
  {
    var k1 := s.conns[c].(pc := Numbered, id := s.nextID + 1);
    var s' := With(s.(nextID := s.nextID + 1), c, k1);
    Facts(s, c);
    assert AccountsOk(s') && NumbersOk(s');
    hide AccountsOk, ConnsOk, TicketsOk, IssuersOk, NumbersOk, RegistryOk, TargetsOk, MatchesOk;
    ConnsKept(s, s', c);
    TicketsKept(s, s', c);
    MatchesKept(s, s', c);
    RegistryKept(s, s', c);
  }

  lemma ActivateRegistry(s: State, c: Ref)
    requires RegistryOk(s) && c in s.conns && StepActivate(s, c, s.conns[c]).Some?
    ensures RegistryOk(StepActivate(s, c, s.conns[c]).value)
    ensures TargetOk(s, StepActivate(s, c, s.conns[c]).value.conns[c].pc)
  {
    var s' := StepActivate(s, c, s.conns[c]).value;
    forall h | h in s'.registry ensures Registrable(s', h, s'.registry[h]) {
      if h in s.registry { assert Registrable(s, h, s.registry[h]); }
    }
    var h := s.conns[c].account.value.hash;
    if h in s.registry { assert Registrable(s, h, s.registry[h]); }
  }

  lemma ActivateNumbers(s: State, c: Ref)
    requires AccountsOk(s) && NumbersOk(s) && c in s.conns && StepActivate(s, c, s.conns[c]).Some?
    ensures var s' := StepActivate(s, c, s.conns[c]).value; AccountsOk(s') && NumbersOk(s')
  {}

  lemma ActivateKeeps(s: State, c: Ref)
    requires Inv(s) && c in s.conns && StepActivate(s, c, s.conns[c]).Some?
    ensures Inv(StepActivate(s, c, s.conns[c]).value)
  {
    Facts(s, c);
    hide AccountsOk, ConnsOk, TicketsOk, IssuersOk, NumbersOk, RegistryOk, TargetsOk, MatchesOk, OutOk, TargetOk, TicketOf;
    var s' := StepActivate(s, c, s.conns[c]).value;
    ActivateNumbers(s, c);
    ActivateRegistry(s, c);
    ConnsKept(s, s', c);
    TicketsKept(s, s', c);
    MatchesKept(s, s', c);
  }

  lemma CloseKeeps(s: State, victim: Ref)
    requires Inv(s)
    ensures Inv(Closed(s, victim))
  {
    if victim in s.conns {
      Facts(s, victim);
      OtherChange(s, victim, s.conns[victim].(closed := true));
    }
  }

  lemma RegistryShrinks(s: State, s': State, c: Ref)
    requires RegistryOk(s) && c in s.conns && s' == Deactivated(s, c, s.conns[c])
    ensures RegistryOk(s')
    ensures forall h | h in s'.registry :: h in s.registry && s'.registry[h] == s.registry[h] && s.registry[h] != c
  {
    forall h | h in s'.registry ensures Registrable(s', h, s'.registry[h]) && s.registry[h] != c {
      assert Registrable(s, h, s.registry[h]);
    }
  }

  lemma DeactivateKeeps(s: State, c: Ref)
    requires Inv(s) && c in s.conns
    ensures var s' := Deactivated(s, c, s.conns[c]);
            && Inv(s') && s'.conns == s.conns
            && (forall h | h in s'.registry :: h in s.registry && s'.registry[h] == s.registry[h] && s.registry[h] != c)
  {
    var s' := Deactivated(s, c, s.conns[c]);
    assert AccountsOk(s');
    RegistryShrinks(s, s', c);
    hide AccountsOk, ConnsOk, TicketsOk, IssuersOk, NumbersOk, RegistryOk, TargetsOk, MatchesOk;
    SameTickets(s, s');
    SameConns(s, s');
  }

  /** A new match table whose matches are old ones, or ones c owns under its own name. */
  lemma TableChange(s: State, c: Ref, matches: M.Matches, pc: Pc)
    requires Inv(s) && c in s.conns && s.conns[c].pc == Serving && s.conns[c].account.Some?
    requires M.WellFormed(matches)
    requires forall m | m in matches.list ::
               || m in s.matches.list
               || (&& m.owner == s.conns[c].id && M.ValidInfo(m.info)
                   && m.info.attributes.text130 == s.conns[c].account.value.username)
    requires (pc == Leaving || pc.Replying?) && LocalOk(s.conns[c].(pc := pc))
    ensures Inv(With(s.(matches := matches), c, s.conns[c].(pc := pc)))
  {
    var s1 := s.(matches := matches);
    Facts(s, c);
    assert AccountsOk(s1);
    assert MatchesOk(s1) by {
      forall m | m in matches.list ensures MatchOk(s1, m) {
        if m in s.matches.list {
          assert MatchOk(s, m);
          var d :| LiveOwner(s, m, d);
          assert LiveOwner(s1, m, d);
        } else {
          assert LiveOwner(s1, m, c);
        }
      }
    }
    hide AccountsOk, ConnsOk, TicketsOk, IssuersOk, NumbersOk, RegistryOk, TargetsOk, MatchesOk;
    SameTickets(s, s1);
    SameConns(s, s1);
    assert Inv(s1);
    LocalChange(s1, c, s.conns[c].(pc := pc));
  }

  /** A creation adds at most one match, the owner's own, with the requested details. */
  lemma CreatedMatches(m: M.Matches, limits: M.Limits, owner: u64, requested: Info, random: Option<seq<SessionID>>)
    requires M.WellFormed(m) && m.nextOrder + 1 < U64_LIMIT
    ensures var m' := M.AfterCreate(m, limits, owner, requested, random).0;
            && M.WellFormed(m')
            && forall x | x in m'.list ::
                 || x in m.list
                 || (x.owner == owner && M.ValidInfo(x.info) && x.info.attributes == requested.attributes)
  {
    hide M.WellFormed, M.PickId, Seqs.Filter;
    M.CreateWellFormed(m, limits, owner, requested, random);
  }

  lemma CreateKeeps(s: State, c: Ref, info: Info, random: Option<seq<SessionID>>)
    requires Inv(s) && c in s.conns && StepMatch(s, c, s.conns[c], CallCreate(info, random)).Some?
    ensures Inv(StepMatch(s, c, s.conns[c], CallCreate(info, random)).value)
  {
    var k := s.conns[c];
    Facts(s, c);
    if |k.account.value.username| > MAX_TEXT {
      LocalChange(s, c, k.(pc := Leaving));
      return;
    }
    var bound := BoundInfo(info, k.account.value.username);
    CreatedMatches(s.matches, s.config.matches, k.id, bound, random);
    hide Inv, M.AfterCreate;
    var (matches, r) := M.AfterCreate(s.matches, s.config.matches, k.id, bound, random);
    TableChange(s, c, matches, if r.Ok? then Replying(Created(r.value.sessionID)) else Leaving);
  }

  /** An update only changes the owner's own match, to the requested details. */
  lemma UpdatedMatches(m: M.Matches, owner: u64, id: SessionID, requested: Info)
    requires M.WellFormed(m)
    ensures var (m', r) := M.AfterUpdate(m, owner, id, requested);
            && M.WellFormed(m')
            && forall x | x in m'.list ::
                 || x in m.list
                 || (x.owner == owner && M.ValidInfo(x.info) && x.info.attributes == requested.attributes)
  {
    M.UpdateWellFormed(m, owner, id, requested);
    var (m', r) := M.AfterUpdate(m, owner, id, requested);
    if r.Ok? {
      var owned :| owned in m.list && owned.info.sessionID == id && owned.owner == owner;
      forall x | x in m'.list && x !in m.list
        ensures x.owner == owner && M.ValidInfo(x.info) && x.info.attributes == requested.attributes
      {
        var i :| 0 <= i < |m'.list| && m'.list[i] == x;
        assert x == M.Replaced(m.list[i], id, requested) && m.list[i] in m.list;
        M.SameIdSameMatch(m, m.list[i], owned);
      }
    }
  }

  lemma UpdateKeeps(s: State, c: Ref, id: SessionID, info: Info)
    requires Inv(s) && c in s.conns && StepMatch(s, c, s.conns[c], CallUpdate(id, info)).Some?
    ensures Inv(StepMatch(s, c, s.conns[c], CallUpdate(id, info)).value)
  {
    var k := s.conns[c];
    Facts(s, c);
    if |k.account.value.username| > MAX_TEXT {
      LocalChange(s, c, k.(pc := Leaving));
      return;
    }
    var bound := BoundInfo(info, k.account.value.username);
    var (matches, r) := M.AfterUpdate(s.matches, k.id, id, bound);
    UpdatedMatches(s.matches, k.id, id, bound);
    hide Inv, M.AfterUpdate;
    TableChange(s, c, matches, if r.Ok? || r.error == M.SessionMiss then Replying(Plain(2)) else Leaving);
  }

  lemma DeletedMatches(m: M.Matches, owner: u64, id: SessionID)
    requires M.WellFormed(m)
    ensures var m' := M.AfterDelete(m, owner, id).0;
            M.WellFormed(m') && forall x | x in m'.list :: x in m.list
  {
    M.FilterWellFormed(m, M.OtherThan(id));
    Seqs.FilterMembers(m.list, M.OtherThan(id));
  }

  lemma DeleteKeeps(s: State, c: Ref, id: SessionID)
    requires Inv(s) && c in s.conns && StepMatch(s, c, s.conns[c], CallDelete(id)).Some?
    ensures Inv(StepMatch(s, c, s.conns[c], CallDelete(id)).value)
  {
    Facts(s, c);
    var (matches, r) := M.AfterDelete(s.matches, s.conns[c].id, id);
    DeletedMatches(s.matches, s.conns[c].id, id);
    hide Inv, M.AfterDelete;
    TableChange(s, c, matches, if r.Ok? || r.error == M.SessionMiss then Replying(Plain(3)) else Leaving);
  }

  lemma FindKeeps(s: State, c: Ref, query: Query, offset: u32, maximum: u32)
    requires Inv(s) && c in s.conns && StepMatch(s, c, s.conns[c], CallFind(query, offset, maximum)).Some?
    ensures Inv(StepMatch(s, c, s.conns[c], CallFind(query, offset, maximum)).value)
  {
    var all := Seqs.Filter(s.matches.list, M.Answers(query));
    var page := M.Page(all, offset, maximum);
    Seqs.FilterMembers(s.matches.list, M.Answers(query));
    forall i | 0 <= i < |page| ensures ResultFits(page[i].info) {
      assert page[i] in all;
      assert MatchOk(s, page[i]);
    }
    LocalChange(s, c, s.conns[c].(pc := Replying(Found(M.Infos(page), |all|))));
  }

  lemma MatchStepKeeps(s: State, c: Ref, call: MatchCall)
    requires Inv(s) && c in s.conns && StepMatch(s, c, s.conns[c], call).Some?
    ensures Inv(StepMatch(s, c, s.conns[c], call).value)
  {
    match call
    case CallCreate(info, random) => CreateKeeps(s, c, info, random);
    case CallUpdate(id, info) => UpdateKeeps(s, c, id, info);
    case CallDelete(id) => DeleteKeeps(s, c, id);
    case CallFind(query, offset, maximum) => FindKeeps(s, c, query, offset, maximum);
  }

  lemma CleanupMatches(s: State, s': State, c: Ref)
    requires MatchesOk(s) && OnlyConn(s, s', c) && LocalOk(s.conns[c]) && s'.conns[c] == s.conns[c].(pc := Done)
    requires s'.matches == if s.conns[c].id != 0 then M.AfterDeleteOwner(s.matches, s.conns[c].id) else s.matches
    ensures MatchesOk(s')
  {
    var mine := s.conns[c].id;
    M.FilterWellFormed(s.matches, M.NotOwnedBy(mine));
    Seqs.FilterMembers(s.matches.list, M.NotOwnedBy(mine));
    forall m | m in s'.matches.list ensures MatchOk(s', m) {
      assert MatchOk(s, m);
      var d :| LiveOwner(s, m, d);
      assert LiveOwner(s', m, d);
    }
  }

  lemma CleanupLocal(k: Conn)
    requires LocalOk(k) && k.pc == Unregistered
    ensures LocalOk(k.(pc := Done)) && KeepsTicket(k, k.(pc := Done)) && KeepsRegistered(k, k.(pc := Done))
  {}

  lemma CleanupNumbers(s: State, c: Ref, matches: M.Matches)
    requires AccountsOk(s) && NumbersOk(s) && c in s.conns
    ensures var s' := With(s.(matches := matches), c, s.conns[c].(pc := Done)); AccountsOk(s') && NumbersOk(s')
  {}

  lemma CleanupKeeps(s: State, c: Ref)
    requires Inv(s) && c in s.conns && s.conns[c].pc == Unregistered
    ensures var matches := if s.conns[c].id != 0 then M.AfterDeleteOwner(s.matches, s.conns[c].id) else s.matches;
            Inv(With(s.(matches := matches), c, s.conns[c].(pc := Done)))
  {
    Facts(s, c);
    hide AccountsOk, ConnsOk, TicketsOk, IssuersOk, NumbersOk, RegistryOk, TargetsOk, MatchesOk;
    hide LocalOk, OutOk, TicketOf, KeepsTicket, KeepsRegistered, M.AfterDeleteOwner;
    var k := s.conns[c];
    var matches := if k.id != 0 then M.AfterDeleteOwner(s.matches, k.id) else s.matches;
    var s' := With(s.(matches := matches), c, k.(pc := Done));
    CleanupLocal(k);
    CleanupNumbers(s, c, matches);
    CleanupMatches(s, s', c);
    ConnsKept(s, s', c);
    TicketsKept(s, s', c);
    RegistryKept(s, s', c);
  }

  // ---------- steps on one connection's output ----------

  lemma WrittenOk(k: Conn, item: Sent, ok: bool)
    requires OutOk(k.out, k.tx) && Fits(item) && !item.Reply?
    ensures OutOk(Written(k, item, ok).out, k.tx)
  {
    ReplyNumbersSnoc(k.out, item);
    assert ReplyNumbers(k.out) + [] == ReplyNumbers(k.out);
  }

  lemma ReplyWrittenOk(k: Conn, outcome: Outcome)
    requires OutOk(k.out, k.tx) && Fits(Reply(k.tx, outcome))
    ensures OutOk(k.out + [Reply(k.tx, outcome)], k.tx + 1)
  {
    ReplyNumbersSnoc(k.out, Reply(k.tx, outcome));
    assert Upto(k.tx) + [k.tx] == Upto(k.tx + 1);
  }

  lemma ControlLocal(k: Conn, maxControls: nat, keepalive: bool, written: bool)
    requires LocalOk(k) && OutOk(k.out, k.tx) && k.pc == Reading
    ensures var k1 := AfterControl(k, maxControls, keepalive, written);
            LocalOk(k1) && OutOk(k1.out, k1.tx) && Replaces(k, k1) && (k1.pc == Reading || k1.pc == Leaving)
  {
    hide OutOk;
    WrittenOk(k, Echo, written);
  }

  lemma ControlKeeps(s: State, c: Ref, keepalive: bool, written: bool)
    requires Inv(s) && c in s.conns && StepControl(s, c, s.conns[c], keepalive, written).Some?
    ensures Inv(StepControl(s, c, s.conns[c], keepalive, written).value)
  {
    Facts(s, c);
    hide Inv, OutOk, LocalOk, AfterControl;
    ControlLocal(s.conns[c], s.config.maxControls, keepalive, written);
    LocalChange(s, c, AfterControl(s.conns[c], s.config.maxControls, keepalive, written));
  }

  lemma SendNumberKeeps(s: State, c: Ref, written: bool)
    requires Inv(s) && c in s.conns && StepSendNumber(s, c, s.conns[c], written).Some?
    ensures Inv(StepSendNumber(s, c, s.conns[c], written).value)
  {
    Facts(s, c);
    hide Inv, OutOk;
    WrittenOk(s.conns[c], ConnectionID(s.conns[c].id), written);
    LocalChange(s, c, StepSendNumber(s, c, s.conns[c], written).value.conns[c]);
  }

  lemma ReplyLocal(k: Conn, written: bool)
    requires LocalOk(k) && OutOk(k.out, k.tx) && k.pc.Replying?
    ensures var k1 := Written(k, Reply(k.tx, k.pc.outcome), written);
            var k2 := if written then k1.(pc := Reading, tx := k.tx + 1) else k1.(pc := Leaving);
            LocalOk(k2) && OutOk(k2.out, k2.tx) && Replaces(k, k2)
  {
    hide OutOk;
    ReplyWrittenOk(k, k.pc.outcome);
  }

  lemma ReplyKeeps(s: State, c: Ref, written: bool)
    requires Inv(s) && c in s.conns && StepReply(s, c, s.conns[c], written).Some?
    ensures Inv(StepReply(s, c, s.conns[c], written).value)
  {
    Facts(s, c);
    hide Inv, OutOk, LocalOk, TicketOf, Replaces;
    ReplyLocal(s.conns[c], written);
    LocalChange(s, c, StepReply(s, c, s.conns[c], written).value.conns[c]);
  }

  /** A field of another connection that carries no rights may change. */
  lemma OtherChange(s: State, c: Ref, k1: Conn)
    requires Inv(s) && c in s.conns
    requires k1.out == s.conns[c].out || OutOk(k1.out, k1.tx)
    requires k1 == s.conns[c].(nextSeed := k1.nextSeed, closed := k1.closed, broken := k1.broken, out := k1.out)
    ensures Inv(With(s, c, k1))
  {
    Facts(s, c);
    hide Inv, OutOk;
    LocalChange(s, c, k1);
  }

  /** What the point itself carries is within bounds. */
  predicate PcOk(pc: Pc) {
    && ((pc.Delivering? || pc.Pushing?) ==> |pc.message| <= MAX_MESSAGE)
    && (pc.Replying? ==> Fits(Reply(0, pc.outcome)))
  }

  lemma ServingLocal(k: Conn, pc: Pc)
    requires LocalOk(k) && ServingPc(k.pc) && (ServingPc(pc) || pc == Reading || pc == Leaving) && PcOk(pc)
    ensures LocalOk(k.(pc := pc)) && Replaces(k, k.(pc := pc))
  {}

  /** An activated connection moves to another point of serving its request. */
  lemma ServingMove(s: State, c: Ref, pc: Pc)
    requires Inv(s) && c in s.conns && ServingPc(s.conns[c].pc) && (ServingPc(pc) || pc == Reading || pc == Leaving)
    requires TargetOk(s, pc) && PcOk(pc)
    ensures Inv(With(s, c, s.conns[c].(pc := pc)))
  {
    Facts(s, c);
    hide Inv, OutOk, LocalOk;
    ServingLocal(s.conns[c], pc);
    LocalChange(s, c, s.conns[c].(pc := pc));
  }

  lemma TakeSeedKeeps(s: State, c: Ref)
    requires Inv(s) && c in s.conns && StepTakeSeed(s, c, s.conns[c]).Some?
    ensures Inv(StepTakeSeed(s, c, s.conns[c]).value)
  {
    Facts(s, c);
    var k := s.conns[c];
    var r := s.conns[k.pc.to];
    assert PcOk(k.pc) && ServingPc(k.pc);
    assert SeedTaken(r) == r.(nextSeed := SeedTaken(r).nextSeed) && SeedTaken(r).pc == r.pc;
    hide Inv, OutOk, LocalOk, SeedTaken;
    OtherChange(s, k.pc.to, SeedTaken(r));
    ServingMove(With(s, k.pc.to, SeedTaken(r)), c, Pushing(k.pc.to, r.nextSeed, k.pc.message));
  }

  /** A push within bounds, written on the recipient's connection. */
  lemma PushWritten(k: Conn, r: Conn, written: bool)
    requires LocalOk(k) && k.pc.Pushing? && k.account.Some? && OutOk(r.out, r.tx)
    ensures var push := Push(k.pc.seed, k.account.value.hash, Truncated(k.account.value.username), k.pc.message);
            var r1 := Written(r, push, written);
            OutOk(r1.out, r1.tx) && r1 == r.(broken := r1.broken, out := r1.out)
  {
    hide OutOk;
    var push := Push(k.pc.seed, k.account.value.hash, Truncated(k.account.value.username), k.pc.message);
    WrittenOk(r, push, written);
  }

  lemma DeliverKeeps(s: State, c: Ref, written: bool)
    requires Inv(s) && c in s.conns && StepDeliver(s, c, s.conns[c], written).Some?
    ensures Inv(StepDeliver(s, c, s.conns[c], written).value)
  {
    var k := s.conns[c];
    var to := k.pc.to;
    Facts(s, c);
    Facts(s, to);
    hide Inv, OutOk, LocalOk, Written, Truncated, TicketOf;
    var r := s.conns[to];
    var push := Push(k.pc.seed, k.account.value.hash, Truncated(k.account.value.username), k.pc.message);
    PushWritten(k, r, written);
    var r1 := Written(r, push, written);
    OtherChange(s, to, r1);
    ServingMove(With(s, to, r1), c, if written then Replying(Plain(0x0e)) else Dropping(to));
  }

  lemma HangUpKeeps(s: State, c: Ref, victim: Ref, pc1: Pc)
    requires Inv(s) && c in s.conns && ServingPc(s.conns[c].pc)
    requires pc1 == Serving || pc1 == Replying(Plain(0x0e))
    ensures var s1 := Closed(s, victim);
            c in s1.conns && Inv(With(s1, c, s1.conns[c].(pc := pc1)))
  {
    hide Inv;
    CloseKeeps(s, victim);
    ServingMove(Closed(s, victim), c, pc1);
  }

  lemma DropKeeps(s: State, c: Ref)
    requires Inv(s) && c in s.conns && s.conns[c].pc.Dropping? && s.conns[c].pc.to in s.conns
    ensures var to := s.conns[c].pc.to;
            Inv(With(Deactivated(s, to, s.conns[to]), c, s.conns[c].(pc := HangingUp(to))))
  {
    Facts(s, c);
    var k := s.conns[c];
    hide Inv, OutOk, LocalOk;
    DeactivateKeeps(s, k.pc.to);
    ServingMove(Deactivated(s, k.pc.to, s.conns[k.pc.to]), c, HangingUp(k.pc.to));
  }

  lemma LeaveKeeps(s: State, c: Ref)
    requires Inv(s) && c in s.conns && s.conns[c].pc == Leaving
    ensures Inv(With(Deactivated(s, c, s.conns[c]), c, s.conns[c].(pc := Unregistered)))
  {
    hide Inv;
    DeactivateKeeps(s, c);
    UnregisterKeeps(Deactivated(s, c, s.conns[c]), c);
  }

  lemma UnregisterKeeps(s: State, c: Ref)
    requires Inv(s) && c in s.conns && s.conns[c].pc == Leaving
    requires forall h | h in s.registry :: s.registry[h] != c
    ensures Inv(With(s, c, s.conns[c].(pc := Unregistered)))
  {
    var k1 := s.conns[c].(pc := Unregistered);
    var s' := With(s, c, k1);
    Facts(s, c);
    assert AccountsOk(s') && NumbersOk(s');
    assert RegistryOk(s') by {
      forall h | h in s'.registry ensures Registrable(s', h, s'.registry[h]) {
        assert Registrable(s, h, s.registry[h]);
      }
    }
    hide AccountsOk, ConnsOk, TicketsOk, IssuersOk, NumbersOk, RegistryOk, TargetsOk, MatchesOk;
    ConnsKept(s, s', c);
    TicketsKept(s, s', c);
    MatchesKept(s, s', c);
  }

  lemma BindKeeps(s: State, c: Ref)
    requires Inv(s) && c in s.conns && StepBind(s, c, s.conns[c]).Some?
    ensures Inv(StepBind(s, c, s.conns[c]).value)
  {
    Facts(s, c);
    assert AccountsOk(s);
    hide Inv, OutOk;
    LocalChange(s, c, StepBind(s, c, s.conns[c]).value.conns[c]);
  }

  lemma MessageKeeps(s: State, c: Ref, recipient: u64, message: seq<byte>)
    requires Inv(s) && c in s.conns && StepMessage(s, c, s.conns[c], recipient, message).Some?
    ensures Inv(StepMessage(s, c, s.conns[c], recipient, message).value)
  {
    if recipient in s.registry { assert Registrable(s, recipient, s.registry[recipient]); }
    hide Inv;
    ServingMove(s, c, StepMessage(s, c, s.conns[c], recipient, message).value.conns[c].pc);
  }

  lemma FailKeeps(s: State, c: Ref)
    requires Inv(s) && c in s.conns && MayFail(s.conns[c].pc)
    ensures Inv(With(s, c, s.conns[c].(pc := Leaving)))
  {
    Facts(s, c);
    hide Inv, OutOk;
    LocalChange(s, c, s.conns[c].(pc := Leaving));
  }

  predicate ConnEvent(e: Event) {
    !e.Issue? && !e.Grant? && !e.Withdraw? && !e.Register? && !e.Open?
  }

  lemma NextIsConnNext(s: State, e: Event)
    requires ConnEvent(e) && Next(s, e).Some?
    ensures e.c in s.conns && Next(s, e) == ConnNext(s, e.c, s.conns[e.c], e)
  {
    hide ConnNext, StepIssue;
  }

  predicate SharedEvent(e: Event) {
    e.Register? || e.Issue? || e.Grant? || e.Withdraw? || e.Open?
  }

  predicate LoginEvent(e: Event) {
    || e.Control? || e.Login? || e.Bind? || e.Number? || e.SendNumber? || e.Request?
    || e.Activate? || e.CloseDisplaced?
  }

  lemma SharedStepKeeps(s: State, e: Event)
    requires Inv(s) && Next(s, e).Some? && SharedEvent(e)
    ensures Inv(Next(s, e).value)
  {
    hide Inv, ConnNext;
    match e
    case Register(account) => RegisterKeeps(s, account);
    case Issue(a, session, peer, now) => IssueKeeps(s, a, session, peer, now);
    case Grant(a) => GrantKeeps(s, a);
    case Withdraw(a) => WithdrawKeeps(s, a);
    case Open(c, peer) => OpenKeeps(s, c, peer);
  }

  lemma LoginStepKeeps(s: State, e: Event)
    requires Inv(s) && Next(s, e).Some? && LoginEvent(e)
    ensures Inv(Next(s, e).value)
  {
    hide Inv, StepControl, StepLogin, StepBind, StepNumber, StepSendNumber, StepRequest, StepActivate, StepMatch;
    hide StepMessage, StepTakeSeed, StepDeliver, StepReply, Closed, Deactivated, M.AfterDeleteOwner;
    NextIsConnNext(s, e);
    hide Next;
    match e
    case Control(c, keepalive, written) => ControlKeeps(s, c, keepalive, written);
    case Login(c, seed, title, now) => LoginKeeps(s, c, seed, title, now);
    case Bind(c) => BindKeeps(s, c);
    case Number(c) => NumberKeeps(s, c);
    case SendNumber(c, written) => SendNumberKeeps(s, c, written);
    case Request(c, now) => RequestKeeps(s, c, now);
    case Activate(c) => ActivateKeeps(s, c);
    case CloseDisplaced(c) => HangUpKeeps(s, c, s.conns[c].pc.victim, Serving);
  }

  lemma ServeStepKeeps(s: State, e: Event)
    requires Inv(s) && Next(s, e).Some? && !SharedEvent(e) && !LoginEvent(e)
    ensures Inv(Next(s, e).value)
  {
    hide Inv, StepControl, StepLogin, StepBind, StepNumber, StepSendNumber, StepRequest, StepActivate, StepMatch;
    hide StepMessage, StepTakeSeed, StepDeliver, StepReply, Closed, Deactivated, M.AfterDeleteOwner;
    NextIsConnNext(s, e);
    hide Next;
    match e
    case ServeEvent(c, task) => ServingMove(s, c, Replying(Plain(task)));
    case ServeMatch(c, call) => MatchStepKeeps(s, c, call);
    case ServeMessage(c, recipient, message) => MessageKeeps(s, c, recipient, message);
    case TakeSeed(c) => TakeSeedKeeps(s, c);
    case Deliver(c, written) => DeliverKeeps(s, c, written);
    case Drop(c) => DropKeeps(s, c);
    case CloseDropped(c) => HangUpKeeps(s, c, s.conns[c].pc.to, Replying(Plain(0x0e)));
    case SendReply(c, written) => ReplyKeeps(s, c, written);
    case Fail(c) => FailKeeps(s, c);
    case Unregister(c) => LeaveKeeps(s, c);
    case Cleanup(c) => CleanupKeeps(s, c);
  }

  /** Every step of every connection and issuer keeps the invariant. */
  lemma StepKeeps(s: State, e: Event)
    requires Inv(s) && Next(s, e).Some?
    ensures Inv(Next(s, e).value)
  {
    hide Inv, Next;
    if SharedEvent(e) {
      SharedStepKeeps(s, e);
    } else if LoginEvent(e) {
      LoginStepKeeps(s, e);
    } else {
      ServeStepKeeps(s, e);
    }
  }
}
