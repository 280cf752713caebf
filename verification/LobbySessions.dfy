/**
  Pending lobby tickets (internal/online/auth/lobby_session.go).

  The specification is a plain table of tickets and a counter. The store also keeps a count
  per account; its methods are proved to compute what the plain table says.
 */
module LobbySessions {
  import opened Bytes
  import opened Counts

  const BOZ_TITLE_ID: u32 := 18436

  /** A normalised peer address, used only for equality. */
  type Peer = string

  datatype Session = Session(
    seed: u32, userID: u64, accountHash: u64, titleID: u32, key: seq<byte>, expiresAt: int)

  datatype Pending = Pending(session: Session, peer: Peer, token: u64)

  type Table = map<u32, Pending>

  datatype Error = InvalidLobbySession | SeedCollision | AccountLimit | SessionLimit

  datatype Limits = Limits(sessions: int, perAccount: int)

  datatype Tickets = Tickets(table: Table, nextToken: u64)

  // ---------- the plain table ----------

  function SeedsOf(table: Table, user: u64): set<u32> {
    set seed | seed in table && table[seed].session.userID == user
  }

  /** The tickets that have not expired. */
  function Live(table: Table, now: int): Table {
    map seed | seed in table && table[seed].session.expiresAt > now :: table[seed]
  }

  /** The counter after one increment, skipping zero when it wraps. */
  function NextToken(token: u64): u64 {
    if token + 1 == U64_LIMIT then 1 else token + 1
  }

  function AfterReserve(t: Tickets, limits: Limits, session: Session, peer: Option<Peer>, now: int)
    : (r: (Tickets, Result<u64, Error>))
  {
    if peer.None? || session.userID == 0 || session.titleID != BOZ_TITLE_ID || session.expiresAt <= now then
      (t, Err(InvalidLobbySession))
    else
      var live := Live(t.table, now);
      if session.seed in live then
        (t.(table := live), Err(SeedCollision))
      else if |SeedsOf(live, session.userID)| >= limits.perAccount then
        (t.(table := live), Err(AccountLimit))
      else if |live| >= limits.sessions then
        (t.(table := live), Err(SessionLimit))
      else
        var token := NextToken(t.nextToken);
        (Tickets(live[session.seed := Pending(session, peer.value, token)], token), Ok(token))
  }

  function AfterLookup(t: Tickets, seed: u32, peer: Option<Peer>, now: int)
    : (r: (Tickets, Option<Pending>))
  {
    if peer.None? || seed !in t.table then (t, None)
    else if t.table[seed].session.expiresAt <= now then (t.(table := t.table - {seed}), None)
    else if t.table[seed].peer != peer.value then (t, None)
    else (t, Some(t.table[seed]))
  }

  function AfterConsume(t: Tickets, seed: u32, token: u64, peer: Option<Peer>, now: int)
    : (r: (Tickets, Option<Session>))
  {
    if peer.None? || seed !in t.table || t.table[seed].token != token then (t, None)
    else if t.table[seed].session.expiresAt <= now then (t.(table := t.table - {seed}), None)
    else if t.table[seed].peer != peer.value then (t, None)
    else (t.(table := t.table - {seed}), Some(t.table[seed].session))
  }

  function AfterRevoke(t: Tickets, seed: u32, token: u64): Tickets {
    if seed in t.table && t.table[seed].token == token then t.(table := t.table - {seed}) else t
  }

  // ---------- the counted store ----------

  /** counts has exactly the accounts with stored tickets, each with its number of tickets. */
  ghost predicate CountsAgree(table: Table, counts: map<u64, int>) {
    && (forall u: u64 :: u in counts <==> SeedsOf(table, u) != {})
    && (forall u | u in counts :: counts[u] == |SeedsOf(table, u)|)
  }

  ghost predicate WithinLimits(table: Table, limits: Limits) {
    && |table| <= limits.sessions
    && (forall u: u64 :: |SeedsOf(table, u)| <= limits.perAccount)
  }

  lemma SeedsOfAdd(table: Table, seed: u32, p: Pending, u: u64)
    requires seed !in table
    ensures SeedsOf(table[seed := p], u) ==
            if p.session.userID == u then SeedsOf(table, u) + {seed} else SeedsOf(table, u)
  {}

  lemma SeedsOfRemove(table: Table, seed: u32, u: u64)
    requires seed in table
    ensures SeedsOf(table - {seed}, u) == SeedsOf(table, u) - {seed}
    ensures seed in SeedsOf(table, u) <==> table[seed].session.userID == u
  {}

  lemma SeedsOfOthers(table: Table, seed: u32, v: u64)
    requires seed in table && table[seed].session.userID != v
    ensures SeedsOf(table - {seed}, v) == SeedsOf(table, v)
  {
    SeedsOfRemove(table, seed, v);
    assert seed !in SeedsOf(table, v);
  }

  lemma SeedsOfSame(table: Table, seed: u32)
    requires seed in table
    ensures var u := table[seed].session.userID;
            |SeedsOf(table - {seed}, u)| == |SeedsOf(table, u)| - 1
  {
    var u := table[seed].session.userID;
    SeedsOfRemove(table, seed, u);
    assert |SeedsOf(table, u) - {seed}| == |SeedsOf(table, u)| - 1;
  }

  lemma CountsAfterRemove(table: Table, counts: map<u64, int>, seed: u32)
    requires CountsAgree(table, counts) && seed in table
    ensures CountsAgree(table - {seed}, CountsWithout(counts, table[seed].session.userID))
  {
    var u := table[seed].session.userID;
    var table', counts' := table - {seed}, CountsWithout(counts, u);
    assert seed in SeedsOf(table, u);
    forall v: u64
      ensures v in counts' <==> SeedsOf(table', v) != {}
      ensures v in counts' ==> counts'[v] == |SeedsOf(table', v)|
    {
      if v == u { SeedsOfSame(table, seed); } else { SeedsOfOthers(table, seed, v); }
    }
  }

  lemma CountIs(table: Table, counts: map<u64, int>, u: u64)
    requires CountsAgree(table, counts)
    ensures CountOf(counts, u) == |SeedsOf(table, u)|
  {}

  lemma LimitsAfterAdd(table: Table, limits: Limits, seed: u32, p: Pending)
    requires WithinLimits(table, limits) && seed !in table
    requires |table| < limits.sessions && |SeedsOf(table, p.session.userID)| < limits.perAccount
    ensures WithinLimits(table[seed := p], limits)
  {
    hide SeedsOf;
    var table' := table[seed := p];
    forall u: u64 ensures |SeedsOf(table', u)| <= limits.perAccount {
      SeedsOfAdd(table, seed, p, u);
      assert u == p.session.userID ==> |SeedsOf(table, u) + {seed}| <= |SeedsOf(table, u)| + 1;
    }
  }

  lemma CountsAfterAdd(table: Table, counts: map<u64, int>, seed: u32, p: Pending)
    requires CountsAgree(table, counts) && seed !in table
    ensures var u := p.session.userID;
            CountsAgree(table[seed := p], counts[u := CountOf(counts, u) + 1])
  {
    var u := p.session.userID;
    forall v: u64 { SeedsOfAdd(table, seed, p, v); }
    assert seed !in SeedsOf(table, u);
    assert |SeedsOf(table, u) + {seed}| == |SeedsOf(table, u)| + 1;
  }

  /** Removing tickets never breaks a quota. */
  lemma FewerWithinLimits(table: Table, fewer: Table, limits: Limits)
    requires WithinLimits(table, limits)
    requires forall seed | seed in fewer :: seed in table && fewer[seed] == table[seed]
    ensures WithinLimits(fewer, limits)
  {
    SubsetCardinality(fewer.Keys, table.Keys);
    forall u: u64 ensures |SeedsOf(fewer, u)| <= limits.perAccount {
      SubsetCardinality(SeedsOf(fewer, u), SeedsOf(table, u));
    }
  }

  lemma {:induction false} SubsetCardinality<T>(a: set<T>, b: set<T>)
    requires a <= b
    ensures |a| <= |b|
  {
    if a != {} {
      var x :| x in a;
      SubsetCardinality(a - {x}, b - {x});
    }
  }

  class MemoryLobbySessionStore {
    const limits: Limits
    var bySeed: Table
    var sessionsByAccount: map<u64, int>
    var nextToken: u64

    ghost predicate Valid()
      reads this
    {
      && CountsAgree(bySeed, sessionsByAccount)
      && WithinLimits(bySeed, limits)
      && (forall seed | seed in bySeed :: bySeed[seed].session.seed == seed)
    }

    ghost function View(): Tickets
      reads this
    {
      Tickets(bySeed, nextToken)
    }

    constructor (limits: Limits)
      requires 1 <= limits.sessions <= 1_000_000 && 1 <= limits.perAccount <= 1_000_000
      ensures Valid() && this.limits == limits && View() == Tickets(map[], 0)
    {
      this.limits := limits;
      bySeed, sessionsByAccount, nextToken := map[], map[], 0;
      new;
      assert forall u: u64 :: SeedsOf(bySeed, u) == {};
    }

    method DeleteLocked(seed: u32, pending: Pending)
      requires Valid() && seed in bySeed && bySeed[seed] == pending
      modifies this
      ensures Valid()
      ensures View() == old(View()).(table := old(bySeed) - {seed})
    {
      CountsAfterRemove(bySeed, sessionsByAccount, seed);
      FewerWithinLimits(bySeed, bySeed - {seed}, limits);
      bySeed := bySeed - {seed};
      var remaining := CountOf(sessionsByAccount, pending.session.userID) - 1;
      if remaining <= 0 {
        sessionsByAccount := sessionsByAccount - {pending.session.userID};
        return;
      }
      sessionsByAccount := sessionsByAccount[pending.session.userID := remaining];
    }

    method PurgeExpiredLocked(now: int)
      requires Valid()
      modifies this
      ensures Valid()
      ensures View() == old(View()).(table := Live(old(bySeed), now))
    {
      var todo := bySeed.Keys;
      while todo != {}
        invariant Valid() && nextToken == old(nextToken)
        invariant todo <= bySeed.Keys
        invariant bySeed == map seed | seed in old(bySeed)
                                && (seed in todo || old(bySeed)[seed].session.expiresAt > now) :: old(bySeed)[seed]
      {
        var seed :| seed in todo;
        if bySeed[seed].session.expiresAt <= now {
          DeleteLocked(seed, bySeed[seed]);
        }
        todo := todo - {seed};
      }
    }

    method Reserve(session: Session, peer: Option<Peer>, now: int) returns (r: Result<u64, Error>)
      requires Valid()
      modifies this
      ensures Valid()
      ensures (View(), r) == AfterReserve(old(View()), limits, session, peer, now)
    {
      if peer.None? || session.userID == 0 || session.titleID != BOZ_TITLE_ID || session.expiresAt <= now {
        return Err(InvalidLobbySession);
      }
      PurgeExpiredLocked(now);
      CountIs(bySeed, sessionsByAccount, session.userID);
      hide SeedsOf, CountsAgree, WithinLimits, Live, NextToken;
      if session.seed in bySeed {
        return Err(SeedCollision);
      }
      if CountOf(sessionsByAccount, session.userID) >= limits.perAccount {
        return Err(AccountLimit);
      }
      if |bySeed| >= limits.sessions {
        return Err(SessionLimit);
      }
      nextToken := NextToken(nextToken);
      var pending := Pending(session, peer.value, nextToken);
      CountsAfterAdd(bySeed, sessionsByAccount, session.seed, pending);
      LimitsAfterAdd(bySeed, limits, session.seed, pending);
      bySeed := bySeed[session.seed := pending];
      sessionsByAccount :=
        sessionsByAccount[session.userID := CountOf(sessionsByAccount, session.userID) + 1];
      r := Ok(nextToken);
    }

    method Lookup(seed: u32, peer: Option<Peer>, now: int) returns (r: Option<Pending>)
      requires Valid()
      modifies this
      ensures Valid()
      ensures (View(), r) == AfterLookup(old(View()), seed, peer, now)
    {
      if peer.None? || seed !in bySeed {
        return None;
      }
      var pending := bySeed[seed];
      if pending.session.expiresAt <= now {
        DeleteLocked(seed, pending);
        return None;
      }
      if pending.peer != peer.value {
        return None;
      }
      r := Some(pending);
    }

    method Consume(seed: u32, token: u64, peer: Option<Peer>, now: int) returns (r: Option<Session>)
      requires Valid()
      modifies this
      ensures Valid()
      ensures (View(), r) == AfterConsume(old(View()), seed, token, peer, now)
    {
      if peer.None? || seed !in bySeed || bySeed[seed].token != token {
        return None;
      }
      var pending := bySeed[seed];
      if pending.session.expiresAt <= now {
        DeleteLocked(seed, pending);
        return None;
      }
      if pending.peer != peer.value {
        return None;
      }
      DeleteLocked(seed, pending);
      r := Some(pending.session);
    }

    method Revoke(seed: u32, token: u64)
      requires Valid()
      modifies this
      ensures Valid()
      ensures View() == AfterRevoke(old(View()), seed, token)
    {
      if seed in bySeed && bySeed[seed].token == token {
        DeleteLocked(seed, bySeed[seed]);
      }
    }
  }
}
