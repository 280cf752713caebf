/** The order of matches over whole histories of the match table (internal/online/lobby/matchmaking_store.go). */
module MatchOrder {
  import opened Bytes
  import opened MatchmakingTypes
  import opened Seqs
  import opened MatchStore

  datatype Operation =
    | CreateOp(limits: Limits, owner: u64, requested: Info, random: Option<seq<SessionID>>)
    | UpdateOp(owner: u64, id: SessionID, requested: Info)
    | DeleteOp(owner: u64, id: SessionID)
    | DeleteOwnerOp(owner: u64)

  ghost function After(m: Matches, op: Operation): Matches
    requires m.nextOrder + 1 < U64_LIMIT
  {
    match op
    case CreateOp(limits, owner, requested, random) => AfterCreate(m, limits, owner, requested, random).0
    case UpdateOp(owner, id, requested) => AfterUpdate(m, owner, id, requested).0
    case DeleteOp(owner, id) => AfterDelete(m, owner, id).0
    case DeleteOwnerOp(owner) => AfterDeleteOwner(m, owner)
  }

  lemma AfterWellFormed(m: Matches, op: Operation)
    requires WellFormed(m) && m.nextOrder + 1 < U64_LIMIT
    ensures WellFormed(After(m, op))
  {
    hide WellFormed, Filter;
    match op
    case CreateOp(limits, owner, requested, random) => CreateWellFormed(m, limits, owner, requested, random);
    case UpdateOp(owner, id, requested) => UpdateWellFormed(m, owner, id, requested);
    case DeleteOp(owner, id) => FilterWellFormed(m, OtherThan(id));
    case DeleteOwnerOp(owner) => FilterWellFormed(m, NotOwnedBy(owner));
  }

  lemma CreateKeepsNumber(m: Matches, op: Operation, x: Stored, y: Stored)
    requires WellFormed(m) && m.nextOrder + 1 < U64_LIMIT && op.CreateOp?
    requires x in m.list && y in After(m, op).list && x.info.sessionID == y.info.sessionID
    ensures x == y
  {
    var (m', r) := AfterCreate(m, op.limits, op.owner, op.requested, op.random);
    if r.Ok? {
      PickIdMeans(m.list, op.random.value, MAX_ID_ATTEMPTS);
      hide PickId;
      assert !HasId(m.list, r.value.sessionID);
      var i :| 0 <= i < |m.list| && m.list[i] == x;
      assert y in m.list;
    }
    SameIdSameMatch(m, x, y);
  }

  lemma UpdateKeepsNumber(m: Matches, op: Operation, x: Stored, y: Stored)
    requires WellFormed(m) && m.nextOrder + 1 < U64_LIMIT && op.UpdateOp?
    requires x in m.list && y in After(m, op).list && x.info.sessionID == y.info.sessionID
    ensures x.order == y.order
  {
    var m' := After(m, op);
    var j :| 0 <= j < |m'.list| && m'.list[j] == y;
    assert m.list[j].info.sessionID == y.info.sessionID && m.list[j].order == y.order;
    SameIdSameMatch(m, x, m.list[j]);
  }

  lemma RemoveKeepsNumber(m: Matches, op: Operation, x: Stored, y: Stored)
    requires WellFormed(m) && m.nextOrder + 1 < U64_LIMIT && (op.DeleteOp? || op.DeleteOwnerOp?)
    requires x in m.list && y in After(m, op).list && x.info.sessionID == y.info.sessionID
    ensures x == y
  {
    hide WellFormed, Filter;
    if op.DeleteOp? {
      FilterMembers(m.list, OtherThan(op.id));
    } else {
      FilterMembers(m.list, NotOwnedBy(op.owner));
    }
    SameIdSameMatch(m, x, y);
  }

  /** Every operation leaves the matches that survive it with their creation numbers. */
  lemma NumbersKept(m: Matches, op: Operation, x: Stored, y: Stored)
    requires WellFormed(m) && m.nextOrder + 1 < U64_LIMIT
    requires x in m.list && y in After(m, op).list && x.info.sessionID == y.info.sessionID
    ensures x.order == y.order
  {
    hide WellFormed, After;
    match op
    case CreateOp(_, _, _, _) => CreateKeepsNumber(m, op, x, y);
    case UpdateOp(_, _, _) => UpdateKeepsNumber(m, op, x, y);
    case _ => RemoveKeepsNumber(m, op, x, y);
  }

  ghost predicate IsHistory(ms: seq<Matches>, ops: seq<Operation>) {
    && |ms| == |ops| + 1 && WellFormed(ms[0])
    && (forall i | 0 <= i < |ms| :: ms[i].nextOrder + 1 < U64_LIMIT)
    && (forall i | 0 <= i < |ops| :: ms[i + 1] == After(ms[i], ops[i]))
  }

  lemma {:induction false} HistoryWellFormed(ms: seq<Matches>, ops: seq<Operation>, i: nat)
    requires IsHistory(ms, ops) && i < |ms|
    ensures WellFormed(ms[i])
  {
    hide WellFormed, After;
    if i > 0 {
      HistoryWellFormed(ms, ops, i - 1);
      assert ms[i - 1 + 1] == After(ms[i - 1], ops[i - 1]);
      AfterWellFormed(ms[i - 1], ops[i - 1]);
    }
  }

  /**
    However the table is used in between, two sessions that are never deleted keep their order: one
    precedes the other at the start exactly when it does at the end.
   */
  lemma {:induction false} SurvivorsKeepOrder(ms: seq<Matches>, ops: seq<Operation>, n: nat, x: SessionID, y: SessionID)
    requires IsHistory(ms, ops) && n < |ms|
    requires forall i | 0 <= i <= n :: HasId(ms[i].list, x) && HasId(ms[i].list, y)
    ensures Before(ms[0].list, x, y) <==> Before(ms[n].list, x, y)
  {
    hide WellFormed, After, Before;
    if n > 0 {
      SurvivorsKeepOrder(ms, ops, n - 1, x, y);
      HistoryWellFormed(ms, ops, n - 1);
      HistoryWellFormed(ms, ops, n);
      var a := CalledBy(ms[n - 1].list, x);
      var b := CalledBy(ms[n - 1].list, y);
      var a' := CalledBy(ms[n].list, x);
      var b' := CalledBy(ms[n].list, y);
      assert ms[n - 1 + 1] == After(ms[n - 1], ops[n - 1]);
      NumbersKept(ms[n - 1], ops[n - 1], a, a');
      NumbersKept(ms[n - 1], ops[n - 1], b, b');
      OrderSurvives(ms[n - 1], ms[n], a, b, a', b');
    }
  }

  lemma CalledBy(list: seq<Stored>, id: SessionID) returns (m: Stored)
    requires HasId(list, id)
    ensures m in list && m.info.sessionID == id
  {
    var i :| 0 <= i < |list| && list[i].info.sessionID == id;
    m := list[i];
  }
}
