/**
  The authentication service (internal/online/auth/handler.go): account creation, and the issue of a
  ticket with its retries and its rollback.
 */
module AuthHandler {
  import opened Bytes
  import opened Counts
  import opened BitBuffer
  import opened AuthMessages
  import opened AuthReplies
  import C = Crypto
  import F = Frame
  import R = Accounts
  import A = AccountStore
  import W = AuthWire
  import S = LobbySessions

  const MAX_SEED_ATTEMPTS := 16
  const STATUS_USERNAME_EXISTS: u32 := 707
  const STATUS_MAX_ACCOUNTS_EXCEEDED: u32 := 710

  datatype Failure =
    | BadMessage(message: MessageError)
    | InvalidSource
    | HashCollision
    | NotSaved
    | RandomFailure
    | SeedCollision
    | NotReserved(reservation: S.Error)
    | NoTicket(ticket: TicketError)
    | NotWritten

  /** One frame with this body has been written. */
  predicate Wrote(before: seq<byte>, body: seq<byte>, after: seq<byte>) {
    F.Writable(body) && after == before + F.FrameBytes(body)
  }

  // ---------- account creation ----------

  function StatusBody(messageType: byte, status: u32): seq<byte> {
    FixedBody([0, messageType], StatusItems(status))
  }

  lemma StatusWritable(messageType: byte, status: u32)
    ensures F.Writable(StatusBody(messageType, status))
  {
    StatusReplyDecodes(messageType, status);
  }

  /** One creation reply with this status has been written: a frame of seven bytes. */
  predicate Told(before: seq<byte>, after: seq<byte>, status: u32) {
    after == before + ([7, 0, 0, 0] + ([0, 1] + LE(17 + 64 * status, 5)))
  }

  /** A client is told one status. */
  lemma ToldOnce(before: seq<byte>, after: seq<byte>, status: u32, other: u32)
    requires Told(before, after, status) && Told(before, after, other)
    ensures status == other
  {
    hide LE;
    var one, two := [7, 0, 0, 0] + ([0, 1] + LE(17 + 64 * status, 5)), [7, 0, 0, 0] + ([0, 1] + LE(17 + 64 * other, 5));
    assert after[|before|..] == one && after[|before|..] == two;
    assert one[6..] == LE(17 + 64 * status, 5) && two[6..] == LE(17 + 64 * other, 5);
    Pow256Values();
    DecodeEncodeLE(17 + 64 * status, 5);
    DecodeEncodeLE(17 + 64 * other, 5);
  }

  lemma WroteTells(before: seq<byte>, after: seq<byte>, status: u32)
    requires Wrote(before, StatusBody(MESSAGE_CREATE_ACCOUNT_REPLY, status), after)
    ensures Told(before, after, status)
  {
    W.StatusOnWire(MESSAGE_CREATE_ACCOUNT_REPLY, status);
    Seven();
    hide LE, LE32, FixedBody;
  }

  lemma Seven()
    ensures LE32(7) == [7, 0, 0, 0]
  {}

  /** What the store leaves a client to be told about a name: taken before, registered now, or refused for a limit. */
  function StatusFor(name: R.Name, before: map<R.Name, Account>, after: map<R.Name, Account>): u32 {
    if name in before then 707 else if name in after then 700 else 710
  }

  /** What each outcome of a registration means for the accounts. */
  lemma RegisterOutcome(cfg: R.Config, w: R.World, name: R.Name, password: PasswordHash, source: Option<R.Source>,
                        outcome: R.WriteOutcome, v: R.World, r: R.Registration)
    requires w.memory.nextUserID + 1 < U64_LIMIT && R.Registers(cfg, w, name, password, source, outcome, v, r)
    ensures r.Existing? <==> name in w.memory.accounts
    ensures !r.Created? ==> v.memory == w.memory
    ensures r.Created? ==> name in v.memory.accounts && v.memory.accounts[name].passwordHash == password
    ensures r.Refused? && r.error == R.WriteFailed ==> outcome != R.Succeeded
    ensures r.Refused? && r.error != R.WriteFailed ==>
              |w.memory.accounts| >= cfg.maxAccounts
              || (source.Some? && CountOf(w.memory.bySource, source.value) >= cfg.maxPerSource)
    ensures r.Collision? ==> R.HashTaken(w.memory.accounts, cfg.hash(name))
  {
    hide R.Holds, CountOf, R.Counted;
  }

  method HandleCreateAccount(p: C.Primitives, store: A.MemoryAccountStore, connection: F.Sink, source: Option<R.Source>,
                             body: seq<byte>, outcome: R.WriteOutcome)
    returns (r: Result<(), Failure>, ghost registered: Option<R.Registration>)
    requires C.Sound(p) && store.Valid() && store.nextUserID + 1 < U64_LIMIT
    modifies store, store.disk, connection
    ensures store.Valid()
    ensures registered.None? ==> r.Err? && store.View() == old(store.View()) && connection.out == old(connection.out)
    ensures registered.Some?
            <==> CreateEncoded(p, body).Some? && Admitted(CreateEncoded(p, body).value).Ok? && source.Some?
    ensures registered.Some? ==>
              && var q := CreateEncoded(p, body).value;
              && R.Registers(store.cfg, old(store.View()), q.username, q.passwordHash, source, outcome, store.View(), registered.value)
              && (r.Ok? ==> Told(old(connection.out), connection.out, StatusFor(q.username, old(store.byUsername), store.byUsername)))
              && (r.Ok? && q.username !in old(store.byUsername) && q.username in store.byUsername ==>
                    store.byUsername[q.username].passwordHash == q.passwordHash)
              && (r.Ok? && q.username !in store.byUsername ==>
                    |store.byUsername| >= store.cfg.maxAccounts
                    || CountOf(store.accountsBySource, source.value) >= store.cfg.maxPerSource)
              && (r.Err? && F.Healthy(old(connection.script)) ==>
                    && connection.out == old(connection.out) && q.username !in store.byUsername
                    && store.byUsername == old(store.byUsername)
                    && (|| (r == Err(NotSaved) && outcome != R.Succeeded)
                        || (r == Err(HashCollision) && R.HashTaken(store.byUsername, store.cfg.hash(q.username)))))
  {
    hide C.Sound, CreateEncoded, FixedBody, StatusBody, R.Registers, R.OneSet, A.Indexed, R.HashTaken, CountOf, Told;
    var parsed := ParseCreateAccountBody(p, body);
    if parsed.Err? {
      return Err(BadMessage(parsed.error)), None;
    }
    if source.None? {
      return Err(InvalidSource), None;
    }
    var registration := store.Register(parsed.value.username, parsed.value.passwordHash, source, outcome);
    registered := Some(registration);
    RegisterOutcome(store.cfg, old(store.View()), parsed.value.username, parsed.value.passwordHash, source, outcome,
                    store.View(), registration);
    var status := STATUS_USERNAME_EXISTS;
    if registration.Created? {
      status := STATUS_NO_ERROR;
    } else if registration.Refused? && registration.error != R.WriteFailed {
      status := STATUS_MAX_ACCOUNTS_EXCEEDED;
    } else if registration.Refused? {
      return Err(NotSaved), registered;
    } else if registration.Collision? {
      return Err(HashCollision), registered;
    }
    var told := Tell(connection, status);
    r := if told then Ok(()) else Err(NotWritten);
  }

  method Tell(connection: F.Sink, status: u32) returns (told: bool)
    modifies connection
    ensures told ==> Told(old(connection.out), connection.out, status)
    ensures F.Healthy(old(connection.script)) ==> told
  {
    hide FixedBody, Told;
    var reply := MarshalStatusReplyBody(MESSAGE_CREATE_ACCOUNT_REPLY, status);
    assert reply == StatusBody(MESSAGE_CREATE_ACCOUNT_REPLY, status);
    StatusWritable(MESSAGE_CREATE_ACCOUNT_REPLY, status);
    var wrote := F.WriteFrame(connection, reply);
    if wrote.Ok? { WroteTells(old(connection.out), connection.out, status); }
    told := wrote.Ok?;
  }

  // ---------- ticket issue ----------

  /** Every ticket of t is in u. */
  ghost predicate Within(t: S.Table, u: S.Table) {
    forall seed | seed in t :: seed in u && t[seed] == u[seed]
  }

  /** The table as it was, or without the tickets that have expired. */
  ghost predicate Purged(t: S.Table, u: S.Table, now: int) {
    t == u || t == S.Live(u, now)
  }

  lemma PurgedTwice(t: S.Table, u: S.Table, now: int)
    requires Purged(t, u, now)
    ensures S.Live(t, now) == S.Live(u, now) && Within(t, u) && Within(S.Live(t, now), u)
  {}

  /** The ticket session that a request of this account reserves. */
  function SessionOf(account: Account, seed: u32, key: C.SessionKey, expires: int): S.Session {
    S.Session(seed, account.userID, account.accountHash, S.BOZ_TITLE_ID, key, expires)
  }

  function SuccessBody(seed: u32, ticket: seq<byte>): seq<byte> {
    FixedBody([0, MESSAGE_ACCOUNT_FOR_MMP_REPLY], Titled(STATUS_NO_ERROR, seed, [Raw(ticket)]))
  }

  /** The reply gives the holder of the account's password the ticket for this seed and key. */
  ghost predicate Grants(p: C.Primitives, body: seq<byte>, account: Account, seed: u32, key: C.SessionKey, issued: int, expires: int)
    requires C.Sound(p)
  {
    exists ticket ::
      && |ticket| == AUTH_TICKET_SIZE && body == SuccessBody(seed, ticket)
      && TicketFits(account, issued, expires) && C.IsBlock(p.deriveIV(seed))
      && C.DecryptCBC(p, account.passwordHash, p.deriveIV(seed), ticket) == Ok(TicketOf(account, key, issued, expires))
  }

  lemma SuccessWritable(seed: u32, ticket: seq<byte>)
    requires |ticket| == AUTH_TICKET_SIZE
    ensures F.Writable(SuccessBody(seed, ticket))
  {
    var mid := SuccessReplyReads(seed, ticket);
  }

  /** The seed that attempt number i draws from the stream. */
  function Draw(random: seq<byte>, i: nat): u32
    requires 4 * i + 4 <= |random|
  {
    FromLE32(random[4 * i..4 * i + 4])
  }

  /** The first n draws are seeds of live tickets. */
  predicate AllTaken(random: seq<byte>, n: nat, live: S.Table) {
    4 * n <= |random| && forall i | 0 <= i < n :: Draw(random, i) in live
  }

  /** A refusal by the ticket store has its reason in the request or in the live tickets. */
  predicate Justified(e: S.Error, live: S.Table, limits: S.Limits, account: Account, peer: Option<S.Peer>, expires: int, now: int) {
    match e
    case InvalidLobbySession => peer.None? || account.userID == 0 || expires <= now
    case AccountLimit => |S.SeedsOf(live, account.userID)| >= limits.perAccount
    case SessionLimit => |live| >= limits.sessions
    case SeedCollision => false
  }

  /** One attempt: how the ticket store answers. */
  lemma Attempt(t: S.Tickets, limits: S.Limits, account: Account, seed: u32, key: C.SessionKey, expires: int,
                peer: Option<S.Peer>, now: int)
    ensures var session := SessionOf(account, seed, key, expires);
            var (after, r) := S.AfterReserve(t, limits, session, peer, now);
            var live := S.Live(t.table, now);
            && (r.Err? ==> Purged(after.table, t.table, now) && after.nextToken == t.nextToken)
            && (r == Err(S.SeedCollision) ==> seed in live)
            && (r.Err? && r.error != S.SeedCollision ==> Justified(r.error, live, limits, account, peer, expires, now))
            && (r.Ok? ==> peer.Some? && r.value == S.NextToken(t.nextToken) && seed !in live
                          && after == S.Tickets(live[seed := S.Pending(session, peer.value, r.value)], r.value))
  {
    hide S.Live, S.SeedsOf, S.NextToken;
  }

  /**
    The retry loop: draws seeds from the random stream until one is free. When it fails, at most
    expired tickets are gone; when it succeeds, exactly one ticket is new.
   */
  method ReserveTicket(sessions: S.MemoryLobbySessionStore, account: Account, key: C.SessionKey, expires: int,
                       peer: Option<S.Peer>, now: int, random: seq<byte>)
    returns (r: Result<(u32, u64), Failure>)
    requires sessions.Valid()
    modifies sessions
    ensures sessions.Valid()
    ensures r.Err? ==> Purged(sessions.bySeed, old(sessions.bySeed), now) && sessions.nextToken == old(sessions.nextToken)
    ensures r == Err(RandomFailure) ==> |random| < 4 * MAX_SEED_ATTEMPTS
    ensures r == Err(SeedCollision) ==> AllTaken(random, MAX_SEED_ATTEMPTS, S.Live(old(sessions.bySeed), now))
    ensures r.Ok? ==> exists i :: 0 <= i < MAX_SEED_ATTEMPTS && 4 * i + 4 <= |random| && r.value.0 == Draw(random, i)
                                  && AllTaken(random, i, S.Live(old(sessions.bySeed), now))
    ensures r.Err? ==> r.error in {RandomFailure, SeedCollision} || r.error.NotReserved?
    ensures r.Err? && r.error.NotReserved? ==>
              Justified(r.error.reservation, S.Live(old(sessions.bySeed), now), sessions.limits, account, peer, expires, now)
    ensures r.Ok? ==>
              && peer.Some? && r.value.1 == S.NextToken(old(sessions.nextToken)) == sessions.nextToken
              && r.value.0 !in S.Live(old(sessions.bySeed), now)
              && sessions.bySeed == S.Live(old(sessions.bySeed), now)
                   [r.value.0 := S.Pending(SessionOf(account, r.value.0, key, expires), peer.value, r.value.1)]
  {
    hide S.SeedsOf, S.CountsAgree, S.WithinLimits, S.Live, S.NextToken, S.AfterReserve, SessionOf, Justified;
    var left := random;
    var attempt := 0;
    while attempt < MAX_SEED_ATTEMPTS
      invariant 0 <= attempt <= MAX_SEED_ATTEMPTS && sessions.Valid()
      invariant sessions.nextToken == old(sessions.nextToken)
      invariant Purged(sessions.bySeed, old(sessions.bySeed), now)
      invariant 4 * attempt <= |random| && left == random[4 * attempt..]
      invariant AllTaken(random, attempt, S.Live(old(sessions.bySeed), now))
    {
      if |left| < 4 {
        return Err(RandomFailure);
      }
      var seed := FromLE32(left[..4]);
      left := left[4..];
      assert random[4 * attempt..][..4] == random[4 * attempt..4 * attempt + 4];
      PurgedTwice(sessions.bySeed, old(sessions.bySeed), now);
      Attempt(sessions.View(), sessions.limits, account, seed, key, expires, peer, now);
      var token := sessions.Reserve(SessionOf(account, seed, key, expires), peer, now);
      if token == Err(S.SeedCollision) {
        attempt := attempt + 1;
        continue;
      }
      if token.Err? {
        return Err(NotReserved(token.error));
      }
      return Ok((seed, token.value));
    }
    r := Err(SeedCollision);
  }

  /** The session key: the first bytes drawn. */
  function KeyOf(random: seq<byte>): (key: C.SessionKey)
    requires |random| >= C.KEY_SIZE
    ensures key == random[..24]
  {
    random[..C.KEY_SIZE]
  }

  /** The body is the encoding of a ticket request for the title. */
  ghost predicate IsMMPRequest(body: seq<byte>) {
    MMPEncoded(body).Some? && MMPEncoded(body).value.titleID == S.BOZ_TITLE_ID
  }

  /** For one of these accounts the ticket store has a reason to refuse with e. */
  ghost predicate SomeRefused(accounts: set<Account>, e: S.Error, live: S.Table, limits: S.Limits, peer: Option<S.Peer>,
                              expires: int, now: int) {
    exists a :: a in accounts && Justified(e, live, limits, a, peer, expires, now)
  }

  /** For one of these accounts no ticket with these times can be built. */
  ghost predicate SomeUnfit(accounts: set<Account>, issued: int, expires: int) {
    exists a :: a in accounts && !TicketFits(a, issued, expires)
  }

  /** What a successful request was given. */
  datatype Grant = Grant(account: Account, ticket: S.Pending, reply: seq<byte>)

  /** One new ticket is stored, for the session that the reply gives to the account's owner. */
  ghost predicate Issued(p: C.Primitives, before: S.Tickets, after: S.Tickets, g: Grant, key: C.SessionKey, issued: int, life: int)
    requires C.Sound(p)
  {
    var seed := g.ticket.session.seed;
    && g.ticket.session == S.Session(seed, g.account.userID, g.account.accountHash, 18436, key, issued + life)
    && g.ticket.token == S.NextToken(before.nextToken)
    && seed !in S.Live(before.table, issued)
    && after == S.Tickets(S.Live(before.table, issued)[seed := g.ticket], g.ticket.token)
    && Grants(p, g.reply, g.account, seed, key, issued, issued + life)
  }

  /**
    On an error no ticket of this request stays stored. A request for an unknown account leaves the
    tickets alone; otherwise success stores exactly one new ticket, for the session the reply grants.
   */
  method HandleAccountForMMP(p: C.Primitives, accounts: A.MemoryAccountStore, sessions: S.MemoryLobbySessionStore,
                             connection: F.Sink, peer: Option<S.Peer>, body: seq<byte>, random: seq<byte>, issued: int, life: int)
    returns (r: Result<(), Failure>, ghost grant: Option<Grant>)
    requires C.Sound(p) && accounts.Valid() && sessions.Valid()
    modifies sessions, connection
    ensures sessions.Valid()
    ensures r.Err? ==> grant.None? && Within(sessions.bySeed, old(sessions.bySeed))
    ensures r.Err? && r.error.BadMessage? <==> !IsMMPRequest(body)
    ensures r == Err(RandomFailure) ==> |random| < C.KEY_SIZE + 4 * MAX_SEED_ATTEMPTS
    ensures r == Err(SeedCollision) ==>
              |random| >= C.KEY_SIZE && AllTaken(random[C.KEY_SIZE..], MAX_SEED_ATTEMPTS, S.Live(old(sessions.bySeed), issued))
    ensures r.Err? && r.error.NotReserved? ==>
              SomeRefused(accounts.byUsername.Values, r.error.reservation, S.Live(old(sessions.bySeed), issued),
                          sessions.limits, peer, issued + life, issued)
    ensures r == Err(NotWritten) ==> !F.Healthy(old(connection.script))
    ensures r.Err? ==> r.error !in {InvalidSource, HashCollision, NotSaved}
    ensures r.Err? && r.error.NoTicket? ==> SomeUnfit(accounts.byUsername.Values, issued, issued + life)
    ensures r.Ok? ==> IsMMPRequest(body) && (grant.Some? <==> R.HashTaken(accounts.byUsername, MMPEncoded(body).value.accountHash))
    ensures r.Ok? && grant.None? ==> sessions.View() == old(sessions.View())
    ensures r.Ok? && grant.None? ==>
              Wrote(old(connection.out), StatusBody(0x0b, 704), connection.out)
    ensures grant.Some? ==>
              && var g := grant.value;
              && IsMMPRequest(body)
              && g.account in accounts.byUsername.Values && g.account.accountHash == MMPEncoded(body).value.accountHash
              && |random| >= C.KEY_SIZE && Issued(p, old(sessions.View()), sessions.View(), g, KeyOf(random), issued, life)
              && Wrote(old(connection.out), g.reply, connection.out)
  {
    hide C.Sound, MMPEncoded, FixedBody, Titled, A.Indexed, R.OneSet, R.HashTaken, TicketOf, C.DecryptCBC, TicketFits;
    hide S.Live, S.SeedsOf, S.CountsAgree, S.WithinLimits, S.NextToken, Within, Purged, AllTaken, Grants, Justified, KeyOf;
    grant := None;
    ghost var before := sessions.bySeed;
    WithinItself(before);
    var request := ParseAccountForMMPBody(body);
    if request.Err? {
      return Err(BadMessage(request.error)), None;
    }
    var account := accounts.LookupHash(request.value.accountHash);
    if account.None? {
      var refusal := MarshalStatusReplyBody(MESSAGE_ACCOUNT_FOR_MMP_REPLY, STATUS_BAD_ACCOUNT);
      StatusWritable(MESSAGE_ACCOUNT_FOR_MMP_REPLY, STATUS_BAD_ACCOUNT);
      var told := F.WriteFrame(connection, refusal);
      if told.Err? {
        return Err(NotWritten), None;
      }
      return Ok(()), None;
    }
    if |random| < C.KEY_SIZE {
      return Err(RandomFailure), None;
    }
    var key := KeyOf(random);
    var expires := issued + life;
    var reserved := ReserveTicket(sessions, account.value, key, expires, peer, issued, random[C.KEY_SIZE..]);
    if reserved.Err? {
      PurgedWithin(sessions.bySeed, before, issued);
      assert account.value in accounts.byUsername.Values;
      assert reserved.error.NotReserved? ==>
          Justified(reserved.error.reservation, S.Live(before, issued), sessions.limits, account.value, peer, issued + life, issued);
      return Err(reserved.error), None;
    }
    var seed, token := reserved.value.0, reserved.value.1;
    ghost var live := S.Live(before, issued);
    ghost var pending := S.Pending(SessionOf(account.value, seed, key, expires), peer.value, token);
    RevokedWithin(before, issued, seed, pending);
    assert account.value in accounts.byUsername.Values;
    var sent, reply := SendTicket(p, sessions, connection, account.value, seed, token, key, issued, expires);
    if sent.Err? {
      return Err(sent.error), None;
    }
    r := Ok(());
    grant := Some(Grant(account.value, pending, reply));
  }

  /** The end of the handler: the reply is built and written, and the ticket revoked when that fails. */
  method SendTicket(p: C.Primitives, sessions: S.MemoryLobbySessionStore, connection: F.Sink, account: Account,
                    seed: u32, token: u64, key: C.SessionKey, issued: int, expires: int)
    returns (r: Result<(), Failure>, ghost sent: seq<byte>)
    requires C.Sound(p) && sessions.Valid() && seed in sessions.bySeed && sessions.bySeed[seed].token == token
    modifies sessions, connection
    ensures sessions.Valid()
    ensures r.Err? ==> sessions.bySeed == old(sessions.bySeed) - {seed} && (r == Err(NotWritten) || r.error.NoTicket?)
    ensures r.Err? && r.error.NoTicket? ==> !TicketFits(account, issued, expires)
    ensures r == Err(NotWritten) ==> !F.Healthy(old(connection.script))
    ensures r.Ok? ==> sessions.View() == old(sessions.View())
    ensures r.Ok? ==> Grants(p, sent, account, seed, key, issued, expires) && Wrote(old(connection.out), sent, connection.out)
  {
    hide C.Sound, FixedBody, Titled, TicketOf, C.DecryptCBC, TicketFits, S.CountsAgree, S.WithinLimits;
    C.SoundIV(p, seed);
    var reply, ticket := MarshalAccountForMMPSuccessBody(p, account, seed, key, issued, expires);
    if reply.Err? {
      sessions.Revoke(seed, token);
      return Err(NoTicket(reply.error)), [];
    }
    SuccessWritable(seed, ticket);
    var written := F.WriteFrame(connection, reply.value);
    if written.Err? {
      sessions.Revoke(seed, token);
      return Err(NotWritten), [];
    }
    r, sent := Ok(()), reply.value;
  }

  lemma WithinItself(t: S.Table)
    ensures Within(t, t)
  {}

  lemma PurgedWithin(t: S.Table, u: S.Table, now: int)
    requires Purged(t, u, now)
    ensures Within(t, u)
  {}

  /** Taking the new ticket away again leaves old tickets only. */
  lemma RevokedWithin(before: S.Table, now: int, seed: u32, pending: S.Pending)
    requires seed !in S.Live(before, now)
    ensures Within(S.Live(before, now)[seed := pending] - {seed}, before)
  {}
}
