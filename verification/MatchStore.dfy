/**
  The match table (internal/online/lobby/matchmaking_store.go).

  The specification is the list of stored matches in order of creation. The store keeps a map by
  session ID and a count per owner; Find recovers the list order by sorting on the creation number.
 */
module MatchStore {
  import opened Bytes
  import opened Counts
  import opened MatchmakingTypes
  import opened Seqs

  const MAX_ID_ATTEMPTS := 16

  datatype Stored = Stored(info: Info, owner: u64, order: u64)

  datatype Error =
    | MalformedRequest
    | SessionLimit
    | OwnerSessionLimit
    | RandomFailure
    | NoSessionID
    | SessionMiss
    | SessionOwner

  datatype Limits = Limits(sessions: int, perOwner: int)

  datatype Matches = Matches(list: seq<Stored>, nextOrder: u64)

  // ---------- predicates on one match ----------

  predicate ValidInfo(info: Info) {
    && |info.hostAddress| <= MAX_HOST_ADDRESS
    && info.maxPlayers != 0
    && |info.attributes.text130| <= MAX_TEXT
    && 0 !in info.attributes.text130
  }

  predicate MatchesQuery(info: Info, query: Query) {
    && info.attributes.i15c == query.value
    && (query.key == WILDCARD_KEY || (info.attributes.u11c == query.key && info.attributes.u158 == query.key))
  }

  function OrderOf(): Stored -> int { (m: Stored) => m.order }

  function OwnedBy(owner: u64): Stored -> bool { (m: Stored) => m.owner == owner }

  function NotOwnedBy(owner: u64): Stored -> bool { (m: Stored) => m.owner != owner }

  function OtherThan(id: SessionID): Stored -> bool { (m: Stored) => m.info.sessionID != id }

  function Answers(query: Query): Stored -> bool { (m: Stored) => MatchesQuery(m.info, query) }

  // ---------- the creation-ordered list ----------

  predicate HasId(list: seq<Stored>, id: SessionID) {
    exists i | 0 <= i < |list| :: list[i].info.sessionID == id
  }

  /** A drawn ID is unusable when it is all zero or already taken. */
  predicate Unusable(list: seq<Stored>, id: SessionID) {
    AllZero(id) || HasId(list, id)
  }

  /** The first usable draw among at most `attempts`; the random source may run dry first. */
  function PickId(list: seq<Stored>, draws: seq<SessionID>, attempts: nat): Result<SessionID, Error> {
    if attempts == 0 then Err(NoSessionID)
    else if draws == [] then Err(RandomFailure)
    else if Unusable(list, draws[0]) then PickId(list, draws[1..], attempts - 1)
    else Ok(draws[0])
  }

  lemma {:induction false} PickIdMeans(list: seq<Stored>, draws: seq<SessionID>, attempts: nat)
    ensures match PickId(list, draws, attempts)
            case Ok(id) => exists k | 0 <= k < attempts && k < |draws| ::
              && draws[k] == id && !Unusable(list, id)
              && forall j | 0 <= j < k :: Unusable(list, draws[j])
            case Err(RandomFailure) => |draws| < attempts && forall j | 0 <= j < |draws| :: Unusable(list, draws[j])
            case Err(e) =>
              && e == NoSessionID && attempts <= |draws|
              && forall j | 0 <= j < attempts :: Unusable(list, draws[j])
  {
    hide Unusable;
    if attempts > 0 && draws != [] && Unusable(list, draws[0]) {
      PickIdMeans(list, draws[1..], attempts - 1);
      var rest := PickId(list, draws[1..], attempts - 1);
      assert forall j | 1 <= j < |draws| :: draws[j] == draws[1..][j - 1];
      if rest.Ok? {
        var k :| 0 <= k < attempts - 1 && k < |draws[1..]| && draws[1..][k] == rest.value
                 && forall j | 0 <= j < k :: Unusable(list, draws[1..][j]);
        assert draws[k + 1] == rest.value;
        assert forall j | 0 <= j < k + 1 :: Unusable(list, draws[j]);
      }
    }
  }

  function CreatedInfo(requested: Info, id: SessionID): Info {
    requested.(sessionID := id, numPlayers := 1)
  }

  ghost function AfterCreate(m: Matches, limits: Limits, owner: u64, requested: Info, random: Option<seq<SessionID>>)
    : (r: (Matches, Result<Info, Error>))
    requires m.nextOrder + 1 < U64_LIMIT
  {
    if owner == 0 || random.None? || !ValidInfo(requested) then (m, Err(MalformedRequest))
    else if |m.list| >= limits.sessions then (m, Err(SessionLimit))
    else if |Filter(m.list, OwnedBy(owner))| >= limits.perOwner then (m, Err(OwnerSessionLimit))
    else
      match PickId(m.list, random.value, MAX_ID_ATTEMPTS)
      case Err(e) => (m, Err(e))
      case Ok(id) =>
        var created := Stored(CreatedInfo(requested, id), owner, m.nextOrder + 1);
        (Matches(m.list + [created], m.nextOrder + 1), Ok(created.info))
  }

  function Replaced(m: Stored, id: SessionID, requested: Info): Stored {
    if m.info.sessionID == id
    then m.(info := requested.(sessionID := id, numPlayers := m.info.numPlayers))
    else m
  }

  /** The list with the match called id given new details, in the same place. */
  function ReplaceId(list: seq<Stored>, id: SessionID, requested: Info): (r: seq<Stored>)
    ensures |r| == |list|
    ensures forall i | 0 <= i < |list| :: r[i] == Replaced(list[i], id, requested)
  {
    seq(|list|, i requires 0 <= i < |list| => Replaced(list[i], id, requested))
  }

  /** The owner of the match called id. */
  ghost predicate OwnsId(list: seq<Stored>, id: SessionID, owner: u64) {
    exists m | m in list :: m.info.sessionID == id && m.owner == owner
  }

  ghost function AfterUpdate(m: Matches, owner: u64, id: SessionID, requested: Info): (r: (Matches, Result<(), Error>)) {
    if owner == 0 || !ValidInfo(requested) then (m, Err(MalformedRequest))
    else if !HasId(m.list, id) then (m, Err(SessionMiss))
    else if !OwnsId(m.list, id, owner) then (m, Err(SessionOwner))
    else (m.(list := ReplaceId(m.list, id, requested)), Ok(()))
  }

  ghost function AfterDelete(m: Matches, owner: u64, id: SessionID): (r: (Matches, Result<(), Error>)) {
    if !HasId(m.list, id) then (m, Err(SessionMiss))
    else if !OwnsId(m.list, id, owner) then (m, Err(SessionOwner))
    else (m.(list := Filter(m.list, OtherThan(id))), Ok(()))
  }

  ghost function AfterDeleteOwner(m: Matches, owner: u64): Matches {
    m.(list := Filter(m.list, NotOwnedBy(owner)))
  }

  function Infos(list: seq<Stored>): (r: seq<Info>)
    ensures |r| == |list|
    ensures forall i | 0 <= i < |list| :: r[i] == list[i].info
  {
    seq(|list|, i requires 0 <= i < |list| => list[i].info)
  }

  function Min(a: int, b: int): int { if a < b then a else b }

  /** The part of all from offset, at most maximum long. */
  function Page<T>(all: seq<T>, offset: nat, maximum: nat): (r: seq<T>)
  {
    if offset >= |all| then [] else all[offset..Min(offset + maximum, |all|)]
  }

  /** What a search answers: a page of the matches that fit, in order of creation, and how many there are. */
  function FindResult(list: seq<Stored>, query: Query, offset: nat, maximum: nat): (r: (seq<Info>, nat)) {
    var all := Filter(list, Answers(query));
    (Infos(Page(all, offset, maximum)), |all|)
  }

  // ---------- well-formed lists ----------

  ghost predicate WellFormed(m: Matches) {
    && Increasing(m.list, OrderOf())
    && (forall i, j | 0 <= i < j < |m.list| :: m.list[i].info.sessionID != m.list[j].info.sessionID)
    && (forall i | 0 <= i < |m.list| :: 1 <= m.list[i].order <= m.nextOrder && m.list[i].owner != 0)
  }

  lemma SameIdSameMatch(m: Matches, x: Stored, y: Stored)
    requires WellFormed(m) && x in m.list && y in m.list && x.info.sessionID == y.info.sessionID
    ensures x == y
  {
    var i :| 0 <= i < |m.list| && m.list[i] == x;
    var j :| 0 <= j < |m.list| && m.list[j] == y;
  }

  lemma FilterWellFormed(m: Matches, p: Stored -> bool)
    requires WellFormed(m)
    ensures WellFormed(m.(list := Filter(m.list, p)))
  {
    var kept := Filter(m.list, p);
    FilterIncreasing(m.list, p, OrderOf());
    FilterMembers(m.list, p);
    forall i, j | 0 <= i < j < |kept| ensures kept[i].info.sessionID != kept[j].info.sessionID {
      assert kept[i] in m.list && kept[j] in m.list;
      if kept[i].info.sessionID == kept[j].info.sessionID { SameIdSameMatch(m, kept[i], kept[j]); }
      assert OrderOf()(kept[i]) < OrderOf()(kept[j]);
    }
    forall i | 0 <= i < |kept| ensures 1 <= kept[i].order <= m.nextOrder && kept[i].owner != 0 {
      assert kept[i] in m.list;
    }
  }

  lemma CreateWellFormed(m: Matches, limits: Limits, owner: u64, requested: Info, random: Option<seq<SessionID>>)
    requires WellFormed(m) && m.nextOrder + 1 < U64_LIMIT
    ensures WellFormed(AfterCreate(m, limits, owner, requested, random).0)
  {
    var (m', r) := AfterCreate(m, limits, owner, requested, random);
    if r.Ok? {
      PickIdMeans(m.list, random.value, MAX_ID_ATTEMPTS);
      assert !HasId(m.list, r.value.sessionID);
      forall i | 0 <= i < |m.list| ensures m.list[i].info.sessionID != r.value.sessionID {}
    }
  }

  lemma UpdateWellFormed(m: Matches, owner: u64, id: SessionID, requested: Info)
    requires WellFormed(m)
    ensures WellFormed(AfterUpdate(m, owner, id, requested).0)
  {
    hide HasId, OwnsId, ValidInfo;
    var list' := AfterUpdate(m, owner, id, requested).0.list;
    assert forall i | 0 <= i < |m.list| :: list'[i].info.sessionID == m.list[i].info.sessionID;
    forall i, j | 0 <= i < j < |list'| ensures OrderOf()(list'[i]) < OrderOf()(list'[j]) {
      assert OrderOf()(m.list[i]) < OrderOf()(m.list[j]);
    }
  }

  // ---------- pages ----------

  /** The first n pages of the given size, one after another. */
  function Pages<T>(all: seq<T>, size: nat, n: nat): seq<T> {
    if n == 0 then [] else Pages(all, size, n - 1) + Page(all, (n - 1) * size, size)
  }

  lemma PageCounts(size: nat, n: nat)
    requires n > 0
    ensures n * size == (n - 1) * size + size && (n - 1) * size >= 0
  {}

  /** Consecutive pages are consecutive: together they are a prefix, with no gap and no repeat. */
  lemma {:induction false} PagesArePrefix<T>(all: seq<T>, size: nat, n: nat)
    ensures n * size >= 0
    ensures Pages(all, size, n) == all[..Min(n * size, |all|)]
  {
    if n > 0 {
      PagesArePrefix(all, size, n - 1);
      PageCounts(size, n);
      NextPage(all, (n - 1) * size, size);
    }
  }

  lemma NextPage<T>(all: seq<T>, from: nat, size: nat)
    ensures all[..Min(from, |all|)] + Page(all, from, size) == all[..Min(from + size, |all|)]
  {}

  /** Once the pages cover the total they are everything. */
  lemma PagesCoverAll<T>(all: seq<T>, size: nat, n: nat)
    requires n * size >= |all|
    ensures Pages(all, size, n) == all
  {
    PagesArePrefix(all, size, n);
  }

  // ---------- relative order ----------

  /** x comes before y. */
  ghost predicate Before(list: seq<Stored>, x: SessionID, y: SessionID) {
    exists i, j | 0 <= i < j < |list| :: list[i].info.sessionID == x && list[j].info.sessionID == y
  }

  lemma BeforeByOrder(m: Matches, x: Stored, y: Stored)
    requires WellFormed(m) && x in m.list && y in m.list
    ensures Before(m.list, x.info.sessionID, y.info.sessionID) <==> x.order < y.order
  {
    var i :| 0 <= i < |m.list| && m.list[i] == x;
    var j :| 0 <= j < |m.list| && m.list[j] == y;
    assert forall a, b | 0 <= a < b < |m.list| :: OrderOf()(m.list[a]) < OrderOf()(m.list[b]);
    assert x.order < y.order ==> i < j;
    forall a, b | 0 <= a < b < |m.list| && m.list[a].info.sessionID == x.info.sessionID
                  && m.list[b].info.sessionID == y.info.sessionID
      ensures x.order < y.order
    {
      SameIdSameMatch(m, m.list[a], x);
      SameIdSameMatch(m, m.list[b], y);
    }
  }

  /** Two states with the same creation numbers for the surviving matches order them alike. */
  lemma OrderSurvives(m: Matches, m': Matches, x: Stored, y: Stored, x': Stored, y': Stored)
    requires WellFormed(m) && WellFormed(m')
    requires x in m.list && y in m.list && x' in m'.list && y' in m'.list
    requires x'.info.sessionID == x.info.sessionID && x'.order == x.order
    requires y'.info.sessionID == y.info.sessionID && y'.order == y.order
    ensures Before(m.list, x.info.sessionID, y.info.sessionID)
            <==> Before(m'.list, x.info.sessionID, y.info.sessionID)
  {
    BeforeByOrder(m, x, y);
    BeforeByOrder(m', x', y');
  }

  // ---------- the store ----------

  /** The map by ID holds exactly the matches of the list. */
  ghost predicate Represents(byID: map<SessionID, Stored>, list: seq<Stored>) {
    && |byID| == |list|
    && (forall m | m in list :: m.info.sessionID in byID && byID[m.info.sessionID] == m)
    && (forall id | id in byID :: byID[id] in list && byID[id].info.sessionID == id)
  }

  ghost predicate CountsAgree(list: seq<Stored>, counts: map<u64, int>) {
    && (forall o: u64 :: o in counts <==> |Filter(list, OwnedBy(o))| > 0)
    && (forall o | o in counts :: counts[o] == |Filter(list, OwnedBy(o))|)
  }

  ghost predicate WithinLimits(list: seq<Stored>, limits: Limits) {
    && |list| <= limits.sessions
    && (forall o: u64 :: |Filter(list, OwnedBy(o))| <= limits.perOwner)
  }

  lemma {:induction false} RemoveOne(list: seq<Stored>, gone: Stored, o: u64)
    requires gone in list
    requires forall i, j | 0 <= i < j < |list| :: list[i].info.sessionID != list[j].info.sessionID
    ensures var kept := Filter(list, OtherThan(gone.info.sessionID));
            && |kept| == |list| - 1
            && |Filter(kept, OwnedBy(o))| == |Filter(list, OwnedBy(o))| - if gone.owner == o then 1 else 0
  {
    var p, rest := OtherThan(gone.info.sessionID), list[1..];
    if list[0] == gone {
      forall x | x in rest ensures p(x) {
        var i :| 0 <= i < |rest| && rest[i] == x;
        assert list[0].info.sessionID != list[i + 1].info.sessionID;
      }
      FilterAll(rest, p);
      assert Filter(list, p) == rest;
    } else {
      assert gone in rest;
      var k :| 0 <= k < |rest| && rest[k] == gone;
      assert list[0].info.sessionID != list[k + 1].info.sessionID;
      RemoveOne(rest, gone, o);
      assert Filter(list, p) == [list[0]] + Filter(rest, p);
      assert Filter(list, p)[1..] == Filter(rest, p);
    }
  }

  lemma CountsAfterRemove(m: Matches, counts: map<u64, int>, gone: Stored)
    requires WellFormed(m) && gone in m.list && CountsAgree(m.list, counts)
    ensures CountsAgree(Filter(m.list, OtherThan(gone.info.sessionID)), CountsWithout(counts, gone.owner))
  {
    var list', counts' := Filter(m.list, OtherThan(gone.info.sessionID)), CountsWithout(counts, gone.owner);
    forall o: u64
      ensures o in counts' <==> |Filter(list', OwnedBy(o))| > 0
      ensures o in counts' ==> counts'[o] == |Filter(list', OwnedBy(o))|
    {
      RemoveOne(m.list, gone, o);
    }
  }

  lemma LimitsAfterFilter(list: seq<Stored>, p: Stored -> bool, limits: Limits)
    requires WithinLimits(list, limits)
    ensures WithinLimits(Filter(list, p), limits)
  {
    forall o: u64 ensures |Filter(Filter(list, p), OwnedBy(o))| <= limits.perOwner {
      FilterTwice(list, p, OwnedBy(o));
    }
  }

  lemma {:induction false} FilterTwice<T>(list: seq<T>, p: T -> bool, q: T -> bool)
    ensures |Filter(Filter(list, p), q)| <= |Filter(list, q)|
  {
    if list != [] {
      FilterTwice(list[1..], p, q);
      FilterAppend(if p(list[0]) then [list[0]] else [], Filter(list[1..], p), q);
    }
  }

  lemma RepresentsAfterRemove(m: Matches, byID: map<SessionID, Stored>, gone: Stored)
    requires WellFormed(m) && gone in m.list && Represents(byID, m.list)
    ensures Represents(byID - {gone.info.sessionID}, Filter(m.list, OtherThan(gone.info.sessionID)))
  {
    var id := gone.info.sessionID;
    RemoveOne(m.list, gone, 0);
    FilterMembers(m.list, OtherThan(id));
    RestRepresents(byID, m.list, Filter(m.list, OtherThan(id)), gone);
  }

  lemma RestRepresents(byID: map<SessionID, Stored>, list: seq<Stored>, kept: seq<Stored>, gone: Stored)
    requires Represents(byID, list) && gone in list && |kept| == |list| - 1
    requires forall x | x in list && x.info.sessionID != gone.info.sessionID :: x in kept
    requires forall x | x in kept :: x in list && x.info.sessionID != gone.info.sessionID
    ensures Represents(byID - {gone.info.sessionID}, kept)
  {
    var id := gone.info.sessionID;
    assert (byID - {id}).Keys == byID.Keys - {id};
    assert |byID.Keys - {id}| == |byID.Keys| - 1;
  }

  lemma HasIdByMap(byID: map<SessionID, Stored>, list: seq<Stored>, id: SessionID)
    requires Represents(byID, list)
    ensures HasId(list, id) <==> id in byID
    ensures id in byID ==> forall o: u64 :: OwnsId(list, id, o) <==> byID[id].owner == o
  {
    if id in byID {
      var i :| 0 <= i < |list| && list[i] == byID[id];
      assert list[i].info.sessionID == id;
    }
    forall i | 0 <= i < |list| && list[i].info.sessionID == id ensures id in byID {
      assert list[i] in list;
    }
  }

  lemma HasIdConsistent(limits: Limits, m: Matches, byID: map<SessionID, Stored>, counts: map<u64, int>, id: SessionID)
    requires Consistent(limits, m, byID, counts)
    ensures HasId(m.list, id) <==> id in byID
    ensures id in byID ==> byID[id] in m.list && byID[id].info.sessionID == id
    ensures id in byID ==> forall o: u64 :: OwnsId(m.list, id, o) <==> byID[id].owner == o
    ensures id in byID ==> forall x | x in m.list && x.info.sessionID == id :: x == byID[id]
  {
    HasIdByMap(byID, m.list, id);
  }

  lemma DifferentOrders(m: Matches, x: Stored, y: Stored)
    requires WellFormed(m) && x in m.list && y in m.list && x != y
    ensures x.order != y.order
  {
    var i :| 0 <= i < |m.list| && m.list[i] == x;
    var j :| 0 <= j < |m.list| && m.list[j] == y;
    assert i < j ==> OrderOf()(m.list[i]) < OrderOf()(m.list[j]);
    assert j < i ==> OrderOf()(m.list[j]) < OrderOf()(m.list[i]);
  }

  lemma {:induction false} ReplaceCounts(list: seq<Stored>, id: SessionID, requested: Info, o: u64)
    ensures |Filter(ReplaceId(list, id, requested), OwnedBy(o))| == |Filter(list, OwnedBy(o))|
  {
    if list != [] {
      ReplaceCounts(list[1..], id, requested, o);
      assert ReplaceId(list, id, requested)[1..] == ReplaceId(list[1..], id, requested);
    }
  }

  lemma ReplaceRepresents(byID: map<SessionID, Stored>, list: seq<Stored>, id: SessionID, requested: Info)
    requires Represents(byID, list) && id in byID
    ensures Represents(byID[id := Replaced(byID[id], id, requested)], ReplaceId(list, id, requested))
  {
    var byID', list' := byID[id := Replaced(byID[id], id, requested)], ReplaceId(list, id, requested);
    assert byID'.Keys == byID.Keys;
    assert |byID'.Keys| == |byID.Keys|;
    forall k | k in byID ensures byID[k] in list && byID'[k] == Replaced(byID[k], id, requested) {}
    ReplacedMembers(list, id, requested);
    forall k | k in byID' ensures byID'[k] in list' && byID'[k].info.sessionID == k {
      assert byID[k] in list;
    }
  }

  lemma ReplacedMembers(list: seq<Stored>, id: SessionID, requested: Info)
    ensures forall x | x in ReplaceId(list, id, requested) :: exists m | m in list :: x == Replaced(m, id, requested)
    ensures forall m | m in list :: Replaced(m, id, requested) in ReplaceId(list, id, requested)
  {
    var list' := ReplaceId(list, id, requested);
    forall m | m in list ensures Replaced(m, id, requested) in list' {
      var i :| 0 <= i < |list| && list[i] == m;
      assert list'[i] == Replaced(m, id, requested);
    }
  }

  /** Everything the fields of the store and its list must satisfy together. */
  ghost predicate Consistent(limits: Limits, m: Matches, byID: map<SessionID, Stored>, counts: map<u64, int>) {
    && WellFormed(m)
    && Represents(byID, m.list)
    && CountsAgree(m.list, counts)
    && WithinLimits(m.list, limits)
  }

  lemma AppendRepresents(byID: map<SessionID, Stored>, list: seq<Stored>, x: Stored)
    requires Represents(byID, list) && x.info.sessionID !in byID
    ensures Represents(byID[x.info.sessionID := x], list + [x])
  {
    var byID' := byID[x.info.sessionID := x];
    assert byID'.Keys == byID.Keys + {x.info.sessionID};
    assert |byID'.Keys| == |byID.Keys| + 1;
  }

  lemma AppendCounts(list: seq<Stored>, counts: map<u64, int>, x: Stored, limits: Limits)
    requires CountsAgree(list, counts) && WithinLimits(list, limits)
    requires |list| < limits.sessions && |Filter(list, OwnedBy(x.owner))| < limits.perOwner
    ensures CountsAgree(list + [x], counts[x.owner := CountOf(counts, x.owner) + 1])
    ensures WithinLimits(list + [x], limits)
  {
    forall o: u64 ensures |Filter(list + [x], OwnedBy(o))|
                          == |Filter(list, OwnedBy(o))| + if o == x.owner then 1 else 0 {
      FilterSnoc(list, x, OwnedBy(o));
    }
  }

  lemma CreateKeeps(limits: Limits, m: Matches, byID: map<SessionID, Stored>, counts: map<u64, int>,
                    owner: u64, requested: Info, random: Option<seq<SessionID>>)
    requires Consistent(limits, m, byID, counts) && m.nextOrder + 1 < U64_LIMIT
    requires AfterCreate(m, limits, owner, requested, random).1.Ok?
    ensures var (m', r) := AfterCreate(m, limits, owner, requested, random);
            var x := Stored(r.value, owner, m'.nextOrder);
            Consistent(limits, m', byID[r.value.sessionID := x], counts[owner := CountOf(counts, owner) + 1])
  {
    hide Filter, WellFormed, Represents, CountsAgree, WithinLimits;
    var (m', r) := AfterCreate(m, limits, owner, requested, random);
    var x := Stored(r.value, owner, m'.nextOrder);
    CreateWellFormed(m, limits, owner, requested, random);
    HasIdByMap(byID, m.list, r.value.sessionID);
    PickIdMeans(m.list, random.value, MAX_ID_ATTEMPTS);
    AppendRepresents(byID, m.list, x);
    AppendCounts(m.list, counts, x, limits);
  }

  lemma UpdateKeeps(limits: Limits, m: Matches, byID: map<SessionID, Stored>, counts: map<u64, int>,
                    owner: u64, id: SessionID, requested: Info)
    requires Consistent(limits, m, byID, counts)
    requires AfterUpdate(m, owner, id, requested).1.Ok?
    ensures id in byID && byID[id].info.sessionID == id
    ensures Consistent(limits, AfterUpdate(m, owner, id, requested).0,
                       byID[id := Replaced(byID[id], id, requested)], counts)
  {
    HasIdByMap(byID, m.list, id);
    UpdateWellFormed(m, owner, id, requested);
    ReplaceRepresents(byID, m.list, id, requested);
    forall o: u64 { ReplaceCounts(m.list, id, requested, o); }
  }

  lemma RemoveKeeps(limits: Limits, m: Matches, byID: map<SessionID, Stored>, counts: map<u64, int>, gone: Stored)
    requires Consistent(limits, m, byID, counts) && gone in m.list
    ensures var id := gone.info.sessionID;
            Consistent(limits, m.(list := Filter(m.list, OtherThan(id))), byID - {id}, CountsWithout(counts, gone.owner))
  {
    var id := gone.info.sessionID;
    FilterWellFormed(m, OtherThan(id));
    RepresentsAfterRemove(m, byID, gone);
    CountsAfterRemove(m, counts, gone);
    LimitsAfterFilter(m.list, OtherThan(id), limits);
  }

  lemma MapCounts(limits: Limits, m: Matches, byID: map<SessionID, Stored>, counts: map<u64, int>)
    requires Consistent(limits, m, byID, counts)
    ensures |byID| == |m.list| <= limits.sessions
    ensures forall o: u64 :: CountOf(counts, o) == |Filter(m.list, OwnedBy(o))|
  {}

  lemma ListedInMap(limits: Limits, m: Matches, byID: map<SessionID, Stored>, counts: map<u64, int>, x: Stored)
    requires Consistent(limits, m, byID, counts) && x in m.list
    ensures x.info.sessionID in byID && byID[x.info.sessionID] == x
  {}

  lemma ConsistentOrder(limits: Limits, m: Matches, byID: map<SessionID, Stored>, counts: map<u64, int>)
    requires Consistent(limits, m, byID, counts)
    ensures Increasing(m.list, OrderOf())
  {}

  lemma DistinctOrders(limits: Limits, m: Matches, byID: map<SessionID, Stored>, counts: map<u64, int>, found: seq<Stored>)
    requires Consistent(limits, m, byID, counts)
    requires forall x | x in found :: x in m.list
    requires forall i, j | 0 <= i < j < |found| :: found[i].info.sessionID != found[j].info.sessionID
    ensures forall i, j | 0 <= i < j < |found| :: OrderOf()(found[i]) != OrderOf()(found[j])
  {
    forall i, j | 0 <= i < j < |found| ensures OrderOf()(found[i]) != OrderOf()(found[j]) {
      assert found[i] in found && found[j] in found;
      DifferentOrders(m, found[i], found[j]);
    }
  }

  class MemoryMatchmakingStore {
    const limits: Limits
    var nextOrder: u64
    var byID: map<SessionID, Stored>
    var sessionsByOwner: map<u64, int>
    ghost var list: seq<Stored>

    ghost function View(): Matches
      reads this
    {
      Matches(list, nextOrder)
    }

    ghost predicate Valid()
      reads this
    {
      && limits.sessions <= 1_000_000
      && Consistent(limits, View(), byID, sessionsByOwner)
    }

    constructor (limits: Limits)
      requires 1 <= limits.sessions <= 1_000_000 && 1 <= limits.perOwner <= 1_000_000
      ensures Valid() && this.limits == limits && View() == Matches([], 0)
    {
      this.limits := limits;
      nextOrder, byID, sessionsByOwner, list := 0, map[], map[], [];
    }

    /** The retry loop of Create. */
    method PickSessionID(draws: seq<SessionID>) returns (r: Result<SessionID, Error>)
      requires Valid()
      ensures r == PickId(list, draws, MAX_ID_ATTEMPTS)
    {
      hide Consistent, HasId, OwnsId;
      var attempt := 0;
      while attempt < MAX_ID_ATTEMPTS
        invariant 0 <= attempt <= MAX_ID_ATTEMPTS && attempt <= |draws|
        invariant PickId(list, draws, MAX_ID_ATTEMPTS) == PickId(list, draws[attempt..], MAX_ID_ATTEMPTS - attempt)
      {
        if attempt == |draws| {
          return Err(RandomFailure);
        }
        var id := draws[attempt];
        HasIdConsistent(limits, View(), byID, sessionsByOwner, id);
        if AllZero(id) || id in byID {
          assert draws[attempt..][1..] == draws[attempt + 1..];
          attempt := attempt + 1;
          continue;
        }
        return Ok(id);
      }
      return Err(NoSessionID);
    }

    method Create(owner: u64, requested: Info, random: Option<seq<SessionID>>) returns (r: Result<Info, Error>)
      requires Valid() && nextOrder + 1 < U64_LIMIT
      modifies this
      ensures Valid()
      ensures (View(), r) == AfterCreate(old(View()), limits, owner, requested, random)
    {
      hide Filter, WellFormed, Represents, CountsAgree, WithinLimits;
      MapCounts(limits, View(), byID, sessionsByOwner);
      if owner == 0 || random.None? || !ValidInfo(requested) {
        return Err(MalformedRequest);
      }
      if |byID| >= limits.sessions {
        return Err(SessionLimit);
      }
      if CountOf(sessionsByOwner, owner) >= limits.perOwner {
        return Err(OwnerSessionLimit);
      }
      var picked := PickSessionID(random.value);
      if picked.Err? {
        return Err(picked.error);
      }
      var id := picked.value;
      CreateKeeps(limits, View(), byID, sessionsByOwner, owner, requested, random);
      var created := CreatedInfo(requested, id);
      nextOrder := nextOrder + 1;
      byID := byID[id := Stored(created, owner, nextOrder)];
      sessionsByOwner := sessionsByOwner[owner := CountOf(sessionsByOwner, owner) + 1];
      list := list + [Stored(created, owner, nextOrder)];
      r := Ok(created);
    }

    method Update(owner: u64, id: SessionID, requested: Info) returns (r: Result<(), Error>)
      requires Valid()
      modifies this
      ensures Valid()
      ensures (View(), r) == AfterUpdate(old(View()), owner, id, requested)
    {
      hide Consistent, HasId, OwnsId, ValidInfo, ReplaceId;
      if owner == 0 || !ValidInfo(requested) {
        return Err(MalformedRequest);
      }
      HasIdConsistent(limits, View(), byID, sessionsByOwner, id);
      if id !in byID {
        return Err(SessionMiss);
      }
      var existing := byID[id];
      if existing.owner != owner {
        return Err(SessionOwner);
      }
      var updated := requested.(sessionID := id, numPlayers := existing.info.numPlayers);
      existing := existing.(info := updated);
      UpdateKeeps(limits, View(), byID, sessionsByOwner, owner, id, requested);
      byID := byID[id := existing];
      list := ReplaceId(list, id, requested);
      r := Ok(());
    }

    method Delete(owner: u64, id: SessionID) returns (r: Result<(), Error>)
      requires Valid()
      modifies this
      ensures Valid()
      ensures (View(), r) == AfterDelete(old(View()), owner, id)
    {
      hide Consistent, HasId, OwnsId, Filter;
      HasIdConsistent(limits, View(), byID, sessionsByOwner, id);
      if id !in byID {
        return Err(SessionMiss);
      }
      var existing := byID[id];
      if existing.owner != owner {
        return Err(SessionOwner);
      }
      DeleteLocked(id, existing);
      r := Ok(());
    }

    method DeleteLocked(id: SessionID, session: Stored)
      requires Valid() && id in byID && byID[id] == session
      modifies this
      ensures Valid() && nextOrder == old(nextOrder)
      ensures byID == old(byID) - {id}
      ensures list == Filter(old(list), OtherThan(id))
    {
      hide Filter, WellFormed, CountsAgree, WithinLimits;
      assert session in list;
      hide Represents;
      RemoveKeeps(limits, View(), byID, sessionsByOwner, session);
      byID := byID - {id};
      list := Filter(list, OtherThan(id));
      var remaining := CountOf(sessionsByOwner, session.owner) - 1;
      if remaining <= 0 {
        sessionsByOwner := sessionsByOwner - {session.owner};
        return;
      }
      sessionsByOwner := sessionsByOwner[session.owner := remaining];
    }

    method DeleteOwner(owner: u64)
      requires Valid()
      modifies this
      ensures Valid()
      ensures View() == AfterDeleteOwner(old(View()), owner)
    {
      hide Consistent, Filter;
      ghost var start := View();
      ghost var startMap, startCounts := byID, sessionsByOwner;
      forall m | m in list ensures m.info.sessionID in byID {
        ListedInMap(limits, start, startMap, startCounts, m);
      }
      var todo := byID.Keys;
      while todo != {}
        invariant Valid() && nextOrder == old(nextOrder)
        invariant todo <= byID.Keys
        invariant forall m | m in list :: m in old(list) && (m.owner != owner || m.info.sessionID in todo)
        invariant forall m | m in old(list) && (m.owner != owner || m.info.sessionID in todo) :: m in list
      {
        var id :| id in todo;
        var session := byID[id];
        HasIdConsistent(limits, View(), byID, sessionsByOwner, id);
        if session.owner == owner {
          FilterMembers(list, OtherThan(id));
          DeleteLocked(id, session);
        }
        todo := todo - {id};
      }
      ConsistentOrder(limits, start, startMap, startCounts);
      ConsistentOrder(limits, View(), byID, sessionsByOwner);
      FilterIncreasing(old(list), NotOwnedBy(owner), OrderOf());
      FilterMembers(old(list), NotOwnedBy(owner));
      IncreasingUnique(list, Filter(old(list), NotOwnedBy(owner)), OrderOf());
    }

    method Find(query: Query, offset: u32, maximum: u32) returns (results: seq<Info>, total: u32)
      requires Valid()
      ensures (results, total) == FindResult(list, query, offset, maximum)
    {
      hide Represents, CountsAgree, WithinLimits, Filter;
      MapCounts(limits, View(), byID, sessionsByOwner);
      var sessions := Collect(query);
      sessions := SortBy(sessions, OrderOf());
      FilterIncreasing(list, Answers(query), OrderOf());
      FilterMembers(list, Answers(query));
      IncreasingUnique(sessions, Filter(list, Answers(query)), OrderOf());
      total := |sessions|;
      if offset >= total || maximum == 0 {
        return [], total;
      }
      var end := offset + maximum;
      if end > total {
        end := total;
      }
      results := CopyPage(sessions, offset, end);
    }

    /** The copying loop of Find. */
    method CopyPage(sessions: seq<Stored>, from: nat, end: nat) returns (results: seq<Info>)
      requires from <= end <= |sessions|
      ensures results == Infos(sessions[from..end])
    {
      results := [];
      for i := from to end
        invariant results == Infos(sessions[from..i])
      {
        assert sessions[from..i + 1] == sessions[from..i] + [sessions[i]];
        results := results + [sessions[i].info];
      }
    }

    /** The loop of Find over the map, which visits the matches in no particular order. */
    method Collect(query: Query) returns (sessions: seq<Stored>)
      requires Valid()
      ensures |sessions| <= |list|
      ensures forall x | x in sessions :: x in list && MatchesQuery(x.info, query)
      ensures forall x | x in list && MatchesQuery(x.info, query) :: x in sessions
      ensures forall i, j | 0 <= i < j < |sessions| :: OrderOf()(sessions[i]) != OrderOf()(sessions[j])
    {
      hide Consistent, HasId, OwnsId, MatchesQuery;
      sessions := [];
      var todo := byID.Keys;
      MapCounts(limits, View(), byID, sessionsByOwner);
      while todo != {}
        invariant todo <= byID.Keys
        invariant |sessions| + |todo| <= |byID|
        invariant forall x | x in sessions :: x in list && MatchesQuery(x.info, query) && x.info.sessionID !in todo
        invariant forall id | id in byID && id !in todo && MatchesQuery(byID[id].info, query) :: byID[id] in sessions
        invariant forall i, j | 0 <= i < j < |sessions| :: sessions[i].info.sessionID != sessions[j].info.sessionID
      {
        var id :| id in todo;
        var session := byID[id];
        HasIdConsistent(limits, View(), byID, sessionsByOwner, id);
        if MatchesQuery(session.info, query) {
          assert forall i | 0 <= i < |sessions| :: sessions[i] in sessions;
          sessions := sessions + [session];
        }
        todo := todo - {id};
      }
      forall x | x in list && MatchesQuery(x.info, query) ensures x in sessions {
        ListedInMap(limits, View(), byID, sessionsByOwner, x);
      }
      DistinctOrders(limits, View(), byID, sessionsByOwner, sessions);
    }
  }
}
