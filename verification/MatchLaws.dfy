/**
  What the operations on the match table do for those who announce and search matches
  (internal/online/lobby/matchmaking_store.go), said of the records themselves.
 */
module MatchLaws {
  import opened Bytes
  import opened MatchmakingTypes
  import opened Seqs
  import opened MatchStore

  // ---------- searching ----------

  /** One of the matches a search answers, if the page is large enough for all. */
  ghost predicate Finds(list: seq<Stored>, key: u32, value: i32, info: Info) {
    info in FindResult(list, Query(key, value), 0, |list|).0
  }

  lemma FindsIs(list: seq<Stored>, key: u32, value: i32, info: Info)
    ensures Finds(list, key, value, info)
            <==> exists m :: m in list && m.info == info && MatchesQuery(info, Query(key, value))
  {
    var query := Query(key, value);
    var all := Filter(list, Answers(query));
    FilterMembers(list, Answers(query));
    assert Page(all, 0, |list|) == all;
    if Finds(list, key, value, info) {
      var i :| 0 <= i < |all| && Infos(all)[i] == info;
      assert all[i] in list;
    }
    if m :| m in list && m.info == info && MatchesQuery(info, query) {
      assert m in all;
      var i :| 0 <= i < |all| && all[i] == m;
      assert Infos(all)[i] == info;
    }
  }

  /** Searches for different keys, neither of them 5381, have no match in common. */
  lemma KeysExclude(list: seq<Stored>, key: u32, key': u32, value: i32, value': i32, info: Info)
    requires key != key' && key != 5381 && key' != 5381
    ensures !(Finds(list, key, value, info) && Finds(list, key', value', info))
  {
    FindsIs(list, key, value, info);
    FindsIs(list, key', value', info);
  }

  /** A search for a key finds exactly those matches of the search for 5381 that carry the key twice. */
  lemma KeyNarrows(list: seq<Stored>, key: u32, value: i32, info: Info)
    ensures Finds(list, key, value, info) ==> Finds(list, 5381, value, info)
    ensures key != 5381 && Finds(list, 5381, value, info) ==>
              (Finds(list, key, value, info) <==> info.attributes.u11c == key == info.attributes.u158)
  {
    FindsIs(list, key, value, info);
    FindsIs(list, 5381, value, info);
  }

  lemma {:induction false} FilterSame<T>(s: seq<T>, p: T -> bool, q: T -> bool)
    requires forall x | x in s :: p(x) == q(x)
    ensures Filter(s, p) == Filter(s, q)
  {
    if s != [] { FilterSame(s[1..], p, q); }
  }

  /**
    The search for 5381 with a page that covers the total answers exactly the stored matches of that value,
    in the order in which they were created.
   */
  lemma WildcardFindsAll(list: seq<Stored>, value: i32, maximum: nat)
    ensures var (results, total) := FindResult(list, Query(5381, value), 0, maximum);
            var fitting := Filter(list, (m: Stored) => m.info.attributes.i15c == value);
            total == |fitting| && (maximum >= total ==> results == Infos(fitting))
  {
    var query := Query(5381, value);
    FilterSame(list, Answers(query), (m: Stored) => m.info.attributes.i15c == value);
    var all := Filter(list, Answers(query));
    if maximum >= |all| { assert Page(all, 0, maximum) == all; }
  }

  // ---------- announcing ----------

  /** Details that a match may have. */
  predicate Announceable(info: Info) {
    && |info.hostAddress| <= 255 && info.maxPlayers > 0
    && |info.attributes.text130| <= 31 && forall i | 0 <= i < |info.attributes.text130| :: info.attributes.text130[i] != 0
  }

  /** Nobody's match has this ID, and it is not all zero. */
  ghost predicate Free(list: seq<Stored>, id: SessionID) {
    id != [0, 0, 0, 0, 0, 0, 0, 0] && forall m | m in list :: m.info.sessionID != id
  }

  lemma FreeIsUsable(list: seq<Stored>, id: SessionID)
    ensures Free(list, id) <==> !Unusable(list, id)
  {
    if AllZero(id) { assert id == [0, 0, 0, 0, 0, 0, 0, 0]; }
    if HasId(list, id) {
      var i :| 0 <= i < |list| && list[i].info.sessionID == id;
      assert list[i] in list;
    }
  }

  /** A match can be announced exactly when its details are allowed, there is room for it, and one of sixteen draws is free. */
  lemma AnnouncedExactly(m: Matches, limits: Limits, owner: u64, requested: Info, random: Option<seq<SessionID>>)
    requires m.nextOrder + 1 < U64_LIMIT
    ensures AfterCreate(m, limits, owner, requested, random).1.Ok?
            <==> && owner != 0 && random.Some? && Announceable(requested)
                 && |m.list| < limits.sessions
                 && |Filter(m.list, (x: Stored) => x.owner == owner)| < limits.perOwner
                 && exists k | 0 <= k < 16 && k < |random.value| :: Free(m.list, random.value[k])
  {
    FilterSame(m.list, OwnedBy(owner), (x: Stored) => x.owner == owner);
    assert ValidInfo(requested) <==> Announceable(requested);
    if random.Some? {
      var draws := random.value;
      PickIdMeans(m.list, draws, MAX_ID_ATTEMPTS);
      hide PickId, Free, Unusable, ValidInfo, Announceable;
      forall k | 0 <= k < |draws| ensures Free(m.list, draws[k]) <==> !Unusable(m.list, draws[k]) {
        FreeIsUsable(m.list, draws[k]);
      }
    }
  }

  /** An announced match stands last, with the details asked for, a free ID and one player, and the search for 5381 finds it. */
  lemma AnnouncedIsFound(m: Matches, limits: Limits, owner: u64, requested: Info, random: Option<seq<SessionID>>)
    requires m.nextOrder + 1 < U64_LIMIT && AfterCreate(m, limits, owner, requested, random).1.Ok?
    ensures var (m', r) := AfterCreate(m, limits, owner, requested, random);
            && r.value == requested.(sessionID := r.value.sessionID, numPlayers := 1) && Free(m.list, r.value.sessionID)
            && |m'.list| == |m.list| + 1 && m'.list[..|m.list|] == m.list
            && m'.list[|m.list|].owner == owner && m'.list[|m.list|].info == r.value
            && Finds(m'.list, 5381, requested.attributes.i15c, r.value)
  {
    var (m', r) := AfterCreate(m, limits, owner, requested, random);
    PickIdMeans(m.list, random.value, MAX_ID_ATTEMPTS);
    FreeIsUsable(m.list, r.value.sessionID);
    FindsIs(m'.list, 5381, requested.attributes.i15c, r.value);
    hide PickId, Free, Unusable, Finds;
    assert m'.list[|m.list|] in m'.list;
  }

  // ---------- changing and removing ----------

  /** An update changes the owner's own match to the details asked for and touches nothing else; it is refused for others. */
  lemma UpdatedExactly(m: Matches, owner: u64, id: SessionID, requested: Info)
    requires WellFormed(m)
    ensures var (m', r) := AfterUpdate(m, owner, id, requested);
            && (r.Ok? <==> owner != 0 && Announceable(requested) && exists x :: x in m.list && x.info.sessionID == id && x.owner == owner)
            && (r.Err? ==> m' == m)
            && (r.Ok? ==>
                  && |m'.list| == |m.list|
                  && forall i | 0 <= i < |m.list| ::
                       if m.list[i].info.sessionID == id
                       then m'.list[i] == Stored(requested.(sessionID := id, numPlayers := m.list[i].info.numPlayers), owner, m.list[i].order)
                       else m'.list[i] == m.list[i])
  {
    assert ValidInfo(requested) <==> Announceable(requested);
    hide ValidInfo, Announceable;
    if OwnsId(m.list, id, owner) {
      var x :| x in m.list && x.info.sessionID == id && x.owner == owner;
      var j :| 0 <= j < |m.list| && m.list[j] == x;
      assert HasId(m.list, id);
      forall i | 0 <= i < |m.list| && m.list[i].info.sessionID == id ensures m.list[i].owner == owner {
        SameIdSameMatch(m, m.list[i], x);
      }
    }
  }

  /** A removal takes out the owner's own match and nothing else. */
  lemma DeletedExactly(m: Matches, owner: u64, id: SessionID, x: Stored)
    requires WellFormed(m)
    ensures var (m', r) := AfterDelete(m, owner, id);
            && (r.Ok? <==> exists y :: y in m.list && y.info.sessionID == id && y.owner == owner)
            && (r.Err? ==> m' == m)
            && (r.Ok? ==> (x in m'.list <==> x in m.list && x.info.sessionID != id))
  {
    FilterMember(m.list, OtherThan(id), x);
    hide Filter, WellFormed;
    if OwnsId(m.list, id, owner) {
      var y :| y in m.list && y.info.sessionID == id && y.owner == owner;
      var j :| 0 <= j < |m.list| && m.list[j] == y;
      assert HasId(m.list, id);
    }
  }
}
