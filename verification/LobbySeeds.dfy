/**
  The seeds of pushes (internal/online/lobby/client.go: serverSeed; internal/online/lobby/lsg.go:
  deliverGlobalInstantMessage). A seed selects the initialization vector of an encrypted push, so one
  connection should never see the same seed twice.
 */
module LobbySeeds {
  import opened Bytes
  import opened MatchmakingTypes
  import opened Outputs
  import opened Lobby
  import opened LobbyInvariants
  import opened LobbySafety
  import M = MatchStore
  import S = LobbySessions
  import Seqs

  // ---------- steps that have nothing to do with a push ----------

  /** On the way to push a message to another client. */
  predicate Carrying(pc: Pc) { pc.Delivering? || pc.Pushing? }

  /** No seed was taken from k, no push was written to it, and it did not get hold of a message or a seed. */
  ghost predicate Quiet(k: Conn, k1: Conn) {
    && k1.nextSeed == k.nextSeed
    && (k1.out == k.out || exists item: Sent :: !item.Push? && k1.out == k.out + [item])
    && (Carrying(k1.pc) ==> k1.pc == k.pc)
  }

  predicate Untouched(k: Conn) { k.nextSeed == 0 && k.out == [] && !Carrying(k.pc) }

  ghost predicate QuietStep(s: State, s': State) {
    && (forall c | c in s.conns :: c in s'.conns && Quiet(s.conns[c], s'.conns[c]))
    && (forall c | c in s'.conns && c !in s.conns :: Untouched(s'.conns[c]))
  }

  lemma OneQuiet(s: State, s': State, c: Ref)
    requires OnlyConn(s, s', c) && Quiet(s.conns[c], s'.conns[c])
    ensures QuietStep(s, s')
  {}

  lemma SameConnsQuiet(s: State, s': State)
    requires s'.conns == s.conns
    ensures QuietStep(s, s')
  {}

  lemma WithQuiet(s: State, s1: State, c: Ref, k1: Conn)
    requires s1.conns == s.conns && c in s.conns && Quiet(s.conns[c], k1)
    ensures QuietStep(s, With(s1, c, k1))
  {}

  /** Nothing written and no message in hand. */
  lemma MoveOnly(k: Conn, k1: Conn)
    requires k1.nextSeed == k.nextSeed && k1.out == k.out && !Carrying(k1.pc)
    ensures Quiet(k, k1)
  {}

  lemma WrittenQuiet(k: Conn, item: Sent, ok: bool)
    requires !item.Push?
    ensures Quiet(k, Written(k, item, ok))
  {}

  lemma ControlQuiet(s: State, c: Ref, keepalive: bool, written: bool)
    requires c in s.conns && StepControl(s, c, s.conns[c], keepalive, written).Some?
    ensures QuietStep(s, StepControl(s, c, s.conns[c], keepalive, written).value)
  {
    var s' := StepControl(s, c, s.conns[c], keepalive, written).value;
    hide QuietStep;
    OneQuiet(s, s', c);
  }

  lemma LoginQuiet(s: State, c: Ref, seed: u32, title: u32, now: int)
    requires c in s.conns && StepLogin(s, c, s.conns[c], seed, title, now).Some?
    ensures QuietStep(s, StepLogin(s, c, s.conns[c], seed, title, now).value)
  {
    hide QuietStep, S.AfterLookup;
    OneQuiet(s, StepLogin(s, c, s.conns[c], seed, title, now).value, c);
  }

  lemma BindQuiet(s: State, c: Ref)
    requires c in s.conns
    ensures StepBind(s, c, s.conns[c]).Some? ==> QuietStep(s, StepBind(s, c, s.conns[c]).value)
    ensures StepNumber(s, c, s.conns[c]).Some? ==> QuietStep(s, StepNumber(s, c, s.conns[c]).value)
  {
    hide QuietStep;
    var k := s.conns[c];
    if StepBind(s, c, k).Some? { OneQuiet(s, StepBind(s, c, k).value, c); }
    if StepNumber(s, c, k).Some? { OneQuiet(s, StepNumber(s, c, k).value, c); }
  }

  lemma SendNumberQuiet(s: State, c: Ref, written: bool)
    requires c in s.conns && StepSendNumber(s, c, s.conns[c], written).Some?
    ensures QuietStep(s, StepSendNumber(s, c, s.conns[c], written).value)
  {
    hide QuietStep;
    var k := s.conns[c];
    WrittenQuiet(k, ConnectionID(k.id), written);
    OneQuiet(s, StepSendNumber(s, c, k, written).value, c);
  }

  lemma RequestQuiet(s: State, c: Ref, now: int)
    requires c in s.conns && StepRequest(s, c, s.conns[c], now).Some?
    ensures QuietStep(s, StepRequest(s, c, s.conns[c], now).value)
  {
    hide QuietStep, Quiet, With, S.AfterConsume;
    var k := s.conns[c];
    if k.confirmed {
      MoveOnly(k, k.(pc := Serving));
      WithQuiet(s, s, c, k.(pc := Serving));
    } else {
      var (tickets, r) := S.AfterConsume(s.tickets, k.ticket.value.session.seed, k.ticket.value.token, k.peer, now);
      var k1 := match r
                case Some(session) => k.(pc := Consumed, confirmed := true,
                                         ticket := Some(Ticket(session, k.ticket.value.token)))
                case None => k.(pc := Leaving);
      MoveOnly(k, k1);
      WithQuiet(s, s.(tickets := tickets), c, k1);
    }
  }

  lemma ActivateQuiet(s: State, c: Ref)
    requires c in s.conns && StepActivate(s, c, s.conns[c]).Some?
    ensures QuietStep(s, StepActivate(s, c, s.conns[c]).value)
  {
    hide QuietStep;
    OneQuiet(s, StepActivate(s, c, s.conns[c]).value, c);
  }

  lemma MatchQuiet(s: State, c: Ref, call: MatchCall)
    requires c in s.conns && StepMatch(s, c, s.conns[c], call).Some?
    ensures QuietStep(s, StepMatch(s, c, s.conns[c], call).value)
  {
    hide QuietStep, With, Quiet, M.AfterCreate, M.AfterUpdate, M.AfterDelete, M.Infos, M.Page, Seqs.Filter, BoundInfo;
    var k := s.conns[c];
    MoveQuiet(s, s, c, Leaving);
    var username := k.account.value.username;
    match call
    case CallCreate(info, random) =>
      if |username| <= MAX_TEXT {
        var (matches, r) := M.AfterCreate(s.matches, s.config.matches, k.id, BoundInfo(info, username), random);
        MoveQuiet(s, s.(matches := matches), c, if r.Ok? then Replying(Created(r.value.sessionID)) else Leaving);
      }
    case CallUpdate(id, info) =>
      var (matches, r) := M.AfterUpdate(s.matches, k.id, id, BoundInfo(info, username));
      MoveQuiet(s, s.(matches := matches), c, if r.Ok? || r.error == M.SessionMiss then Replying(Plain(2)) else Leaving);
    case CallDelete(id) =>
      var (matches, r) := M.AfterDelete(s.matches, k.id, id);
      MoveQuiet(s, s.(matches := matches), c, if r.Ok? || r.error == M.SessionMiss then Replying(Plain(3)) else Leaving);
    case CallFind(query, offset, maximum) =>
      var all := Seqs.Filter(s.matches.list, M.Answers(query));
      MoveQuiet(s, s, c, Replying(Found(M.Infos(M.Page(all, offset, maximum)), |all|)));
  }

  lemma ReplyQuiet(s: State, c: Ref, written: bool)
    requires c in s.conns && StepReply(s, c, s.conns[c], written).Some?
    ensures QuietStep(s, StepReply(s, c, s.conns[c], written).value)
  {
    hide QuietStep;
    var k := s.conns[c];
    WrittenQuiet(k, Reply(k.tx, k.pc.outcome), written);
    OneQuiet(s, StepReply(s, c, k, written).value, c);
  }

  lemma MoveQuiet(s: State, s1: State, c: Ref, pc: Pc)
    requires s1.conns == s.conns && c in s.conns && !Carrying(pc)
    ensures QuietStep(s, With(s1, c, s1.conns[c].(pc := pc)))
  {
    hide QuietStep, Quiet;
    MoveOnly(s.conns[c], s1.conns[c].(pc := pc));
    WithQuiet(s, s1, c, s1.conns[c].(pc := pc));
  }

  /** Closing a connection changes nothing that matters here. */
  predicate Alike(k: Conn, k1: Conn) { k1.nextSeed == k.nextSeed && k1.out == k.out && k1.pc == k.pc }

  lemma ClosedConns(s: State, victim: Ref)
    ensures var s1 := Closed(s, victim);
            && (forall d :: d in s1.conns <==> d in s.conns)
            && (forall d | d in s.conns :: Alike(s.conns[d], s1.conns[d]))
  {}

  lemma AlikeQuiet(k: Conn, k1: Conn, pc: Pc)
    requires Alike(k, k1) && !Carrying(pc)
    ensures Quiet(k, k1) && Quiet(k, k1.(pc := pc))
  {}

  lemma CloseQuiet(s: State, c: Ref, victim: Ref, pc: Pc)
    requires c in s.conns && !Carrying(pc)
    ensures var s1 := Closed(s, victim); c in s1.conns && QuietStep(s, With(s1, c, s1.conns[c].(pc := pc)))
  {
    ClosedConns(s, victim);
    hide Closed, Quiet, Alike;
    var s1 := Closed(s, victim);
    var s2 := With(s1, c, s1.conns[c].(pc := pc));
    forall d | d in s.conns ensures Quiet(s.conns[d], s2.conns[d]) {
      AlikeQuiet(s.conns[d], s1.conns[d], pc);
    }
  }

  lemma DeactivatedConns(s: State, c: Ref, k: Conn)
    ensures Deactivated(s, c, k).conns == s.conns
  {}

  predicate PushEvent(e: Event) { e.ServeMessage? || e.TakeSeed? || e.Deliver? }

  lemma ConnQuiet(s: State, c: Ref, e: Event)
    requires c in s.conns && ConnEvent(e) && ConnNext(s, c, s.conns[c], e).Some? && !PushEvent(e)
    ensures QuietStep(s, ConnNext(s, c, s.conns[c], e).value)
  {
    hide QuietStep, StepControl, StepLogin, StepBind, StepNumber, StepSendNumber, StepRequest, StepActivate, StepMatch, StepMessage, StepReply;
    hide M.AfterDeleteOwner, Closed, Deactivated;
    var k := s.conns[c];
    match e
    case Control(_, keepalive, written) => ControlQuiet(s, c, keepalive, written);
    case Login(_, seed, title, now) => LoginQuiet(s, c, seed, title, now);
    case Bind(_) => BindQuiet(s, c);
    case Number(_) => BindQuiet(s, c);
    case SendNumber(_, written) => SendNumberQuiet(s, c, written);
    case Request(_, now) => RequestQuiet(s, c, now);
    case Activate(_) => ActivateQuiet(s, c);
    case CloseDisplaced(_) => CloseQuiet(s, c, k.pc.victim, Serving);
    case CloseDropped(_) => CloseQuiet(s, c, k.pc.to, Replying(Plain(0x0e)));
    case ServeEvent(_, task) => MoveQuiet(s, s, c, Replying(Plain(task)));
    case ServeMatch(_, call) => MatchQuiet(s, c, call);
    case SendReply(_, written) => ReplyQuiet(s, c, written);
    case _ => LeaveQuiet(s, c, e);
  }

  lemma LeaveQuiet(s: State, c: Ref, e: Event)
    requires c in s.conns && (e.Fail? || e.Drop? || e.Unregister? || e.Cleanup?) && ConnNext(s, c, s.conns[c], e).Some?
    ensures QuietStep(s, ConnNext(s, c, s.conns[c], e).value)
  {
    hide QuietStep, M.AfterDeleteOwner, Deactivated;
    var k := s.conns[c];
    if e.Fail? {
      MoveQuiet(s, s, c, Leaving);
    } else if e.Drop? {
      DeactivatedConns(s, k.pc.to, s.conns[k.pc.to]);
      MoveQuiet(s, Deactivated(s, k.pc.to, s.conns[k.pc.to]), c, HangingUp(k.pc.to));
    } else if e.Unregister? {
      DeactivatedConns(s, c, k);
      MoveQuiet(s, Deactivated(s, c, k), c, Unregistered);
    } else {
      var matches := if k.id != 0 then M.AfterDeleteOwner(s.matches, k.id) else s.matches;
      MoveQuiet(s, s.(matches := matches), c, Done);
    }
  }

  lemma SharedQuiet(s: State, e: Event)
    requires !ConnEvent(e) && Next(s, e).Some?
    ensures QuietStep(s, Next(s, e).value)
  {
    hide QuietStep, ConnNext, S.AfterReserve, S.AfterRevoke;
    if e.Open? {
      OpenQuiet(s, e.c, e.peer);
    } else {
      SameConnsQuiet(s, Next(s, e).value);
    }
  }

  lemma OpenQuiet(s: State, c: Ref, peer: Option<S.Peer>)
    requires c !in s.conns
    ensures QuietStep(s, With(s, c, Fresh(peer)))
  {}

  lemma OtherStepsQuiet(s: State, e: Event)
    requires Next(s, e).Some? && !PushEvent(e)
    ensures QuietStep(s, Next(s, e).value)
  {
    hide QuietStep, Next, ConnNext;
    if ConnEvent(e) {
      NextIsConnNext(s, e);
      ConnQuiet(s, e.c, e);
    } else {
      SharedQuiet(s, e);
    }
  }

  // ---------- the invariant ----------

  /** The seed that d holds for a push to c, if it holds one. */
  ghost predicate HoldsSeed(s: State, d: Ref, c: Ref) {
    d in s.conns && s.conns[d].pc.Pushing? && s.conns[d].pc.to == c
  }

  /** The pushes written to a connection carry different seeds below n. */
  predicate SentOk(out: seq<Sent>, n: nat) {
    && (forall i | 0 <= i < |out| && out[i].Push? :: out[i].seed < n)
    && (forall i, j | 0 <= i < j < |out| && out[i].Push? && out[j].Push? :: out[i].seed != out[j].seed)
  }

  predicate NotSent(out: seq<Sent>, seed: u32) {
    forall i | 0 <= i < |out| && out[i].Push? :: out[i].seed != seed
  }

  /** The seeds held for c are below n, have not been sent, and are different. */
  ghost predicate HeldOk(s: State, c: Ref, n: nat)
    requires c in s.conns
  {
    && (forall d | HoldsSeed(s, d, c) :: s.conns[d].pc.seed < n && NotSent(s.conns[c].out, s.conns[d].pc.seed))
    && (forall d, e | HoldsSeed(s, d, c) && HoldsSeed(s, e, c) && d != e :: s.conns[d].pc.seed != s.conns[e].pc.seed)
  }

  /** n seeds have been taken from c. */
  ghost predicate SeedsOk(s: State, c: Ref, n: nat)
    requires c in s.conns
  {
    s.conns[c].nextSeed == n % U32_LIMIT && SentOk(s.conns[c].out, n) && HeldOk(s, c, n)
  }

  lemma QuietSent(out: seq<Sent>, item: Sent, n: nat, seed: u32)
    requires !item.Push?
    ensures SentOk(out, n) ==> SentOk(out + [item], n)
    ensures NotSent(out, seed) ==> NotSent(out + [item], seed)
  {}

  lemma QuietKeeps(s: State, s': State, c: Ref, n: nat)
    requires QuietStep(s, s') && c in s.conns && SeedsOk(s, c, n)
    ensures SeedsOk(s', c, n)
  {
    var k, k1 := s.conns[c], s'.conns[c];
    assert Quiet(k, k1);
    hide SentOk, NotSent;
    assert forall d | HoldsSeed(s', d, c) :: HoldsSeed(s, d, c) && s'.conns[d].pc == s.conns[d].pc;
    if k1.out != k.out {
      var item: Sent :| !item.Push? && k1.out == k.out + [item];
      forall seed: u32 ensures SentOk(k.out, n) ==> SentOk(k1.out, n)
                       ensures NotSent(k.out, seed) ==> NotSent(k1.out, seed) {
        QuietSent(k.out, item, n, seed);
      }
      assert SentOk(k1.out, n) by { QuietSent(k.out, item, n, 0); }
    }
  }

  /** e takes a seed from c. */
  ghost predicate Takes(s: State, e: Event, c: Ref) {
    e.TakeSeed? && e.c in s.conns && s.conns[e.c].pc.Delivering? && s.conns[e.c].pc.to == c
  }

  lemma LargerBound(out: seq<Sent>, n: nat)
    requires SentOk(out, n)
    ensures SentOk(out, n + 1) && (n < U32_LIMIT ==> NotSent(out, n))
  {}

  lemma TakeKeeps(s: State, d: Ref, c: Ref, n: nat)
    requires c in s.conns && d in s.conns && SeedsOk(s, c, n) && StepTakeSeed(s, d, s.conns[d]).Some?
    requires s.conns[d].pc.to == c && n < U32_LIMIT
    ensures SeedsOk(StepTakeSeed(s, d, s.conns[d]).value, c, n + 1)
  {
    LargerBound(s.conns[c].out, n);
    hide SentOk, NotSent;
    var s' := StepTakeSeed(s, d, s.conns[d]).value;
    assert s'.conns[d].pc == Pushing(c, n, s.conns[d].pc.message) && s'.conns[c].out == s.conns[c].out;
    assert forall e | HoldsSeed(s', e, c) && e != d :: HoldsSeed(s, e, c) && s'.conns[e].pc == s.conns[e].pc;
  }

  lemma TakeElsewhere(s: State, d: Ref, c: Ref, n: nat)
    requires c in s.conns && d in s.conns && SeedsOk(s, c, n) && StepTakeSeed(s, d, s.conns[d]).Some?
    requires s.conns[d].pc.to != c
    ensures SeedsOk(StepTakeSeed(s, d, s.conns[d]).value, c, n)
  {
    hide SentOk, NotSent;
    var s' := StepTakeSeed(s, d, s.conns[d]).value;
    assert forall e | HoldsSeed(s', e, c) :: HoldsSeed(s, e, c) && s'.conns[e].pc == s.conns[e].pc;
  }

  lemma SentOne(out: seq<Sent>, push: Sent, n: nat)
    requires SentOk(out, n) && push.Push? && push.seed < n && NotSent(out, push.seed)
    ensures SentOk(out + [push], n)
    ensures forall seed: u32 | NotSent(out, seed) && seed != push.seed :: NotSent(out + [push], seed)
  {}

  lemma DeliverKeepsSeeds(s: State, d: Ref, c: Ref, n: nat, written: bool)
    requires c in s.conns && d in s.conns && SeedsOk(s, c, n) && StepDeliver(s, d, s.conns[d], written).Some?
    ensures SeedsOk(StepDeliver(s, d, s.conns[d], written).value, c, n)
  {
    var k := s.conns[d];
    var s' := StepDeliver(s, d, k, written).value;
    var push := Push(k.pc.seed, k.account.value.hash, Truncated(k.account.value.username), k.pc.message);
    assert forall e | HoldsSeed(s', e, c) :: e != d && HoldsSeed(s, e, c) && s'.conns[e].pc == s.conns[e].pc;
    if k.pc.to == c && written {
      assert HoldsSeed(s, d, c);
      SentOne(s.conns[c].out, push, n);
      hide SentOk, NotSent;
      assert s'.conns[c].out == s.conns[c].out + [push];
    } else {
      hide SentOk, NotSent;
      assert s'.conns[c].out == s.conns[c].out;
    }
  }

  lemma StepKeepsSeeds(s: State, e: Event, c: Ref, n: nat)
    requires c in s.conns && SeedsOk(s, c, n) && Next(s, e).Some? && (Takes(s, e, c) ==> n < U32_LIMIT)
    ensures c in Next(s, e).value.conns && SeedsOk(Next(s, e).value, c, if Takes(s, e, c) then n + 1 else n)
  {
    hide SeedsOk, QuietStep;
    if e.TakeSeed? {
      NextIsConnNext(s, e);
      hide Next;
      TakeIsStep(s, e);
      hide ConnNext, StepTakeSeed;
      if s.conns[e.c].pc.to == c { TakeKeeps(s, e.c, c, n); } else { TakeElsewhere(s, e.c, c, n); }
    } else if e.Deliver? {
      NextIsConnNext(s, e);
      hide Next;
      DeliverIsStep(s, e);
      hide ConnNext, StepDeliver;
      DeliverKeepsSeeds(s, e.c, c, n, e.written);
    } else if e.ServeMessage? {
      NextIsConnNext(s, e);
      hide Next;
      MessageIsStep(s, e);
      hide ConnNext, StepMessage;
      MessageKeepsSeeds(s, e.c, c, n, e.recipient, e.message);
    } else {
      hide Next;
      OtherStepsQuiet(s, e);
      StillThere(s, Next(s, e).value, c);
      QuietKeeps(s, Next(s, e).value, c, n);
    }
  }

  lemma MessageKeepsSeeds(s: State, d: Ref, c: Ref, n: nat, recipient: u64, message: seq<byte>)
    requires c in s.conns && d in s.conns && SeedsOk(s, c, n) && StepMessage(s, d, s.conns[d], recipient, message).Some?
    ensures SeedsOk(StepMessage(s, d, s.conns[d], recipient, message).value, c, n)
  {
    hide SentOk, NotSent;
    var s' := StepMessage(s, d, s.conns[d], recipient, message).value;
    assert s'.conns[c].out == s.conns[c].out && !s'.conns[d].pc.Pushing?;
    assert forall e | HoldsSeed(s', e, c) :: HoldsSeed(s, e, c) && s'.conns[e].pc == s.conns[e].pc;
  }

  lemma StillThere(s: State, s': State, c: Ref)
    requires QuietStep(s, s') && c in s.conns
    ensures c in s'.conns
  {}

  lemma TakeIsStep(s: State, e: Event)
    requires e.TakeSeed? && e.c in s.conns && ConnNext(s, e.c, s.conns[e.c], e).Some?
    ensures ConnNext(s, e.c, s.conns[e.c], e) == StepTakeSeed(s, e.c, s.conns[e.c])
    ensures s.conns[e.c].pc.Delivering?
    ensures forall c | c in s.conns :: c in StepTakeSeed(s, e.c, s.conns[e.c]).value.conns
  {}

  lemma DeliverIsStep(s: State, e: Event)
    requires e.Deliver? && e.c in s.conns && ConnNext(s, e.c, s.conns[e.c], e).Some?
    ensures ConnNext(s, e.c, s.conns[e.c], e) == StepDeliver(s, e.c, s.conns[e.c], e.written)
    ensures forall c | c in s.conns :: c in StepDeliver(s, e.c, s.conns[e.c], e.written).value.conns
  {}

  lemma MessageIsStep(s: State, e: Event)
    requires e.ServeMessage? && e.c in s.conns && ConnNext(s, e.c, s.conns[e.c], e).Some?
    ensures ConnNext(s, e.c, s.conns[e.c], e) == StepMessage(s, e.c, s.conns[e.c], e.recipient, e.message)
    ensures forall c | c in s.conns :: c in StepMessage(s, e.c, s.conns[e.c], e.recipient, e.message).value.conns
  {}

  // ---------- whole runs ----------

  /** The number of seeds taken from c before state i. */
  ghost function Taken(states: seq<State>, events: seq<Event>, i: nat, c: Ref): nat
    requires |states| == |events| + 1 && i < |states|
  {
    if i == 0 then 0
    else Taken(states, events, i - 1, c) + if Takes(states[i - 1], events[i - 1], c) then 1 else 0
  }

  lemma {:induction false} TakenGrows(states: seq<State>, events: seq<Event>, i: nat, j: nat, c: Ref)
    requires |states| == |events| + 1 && i <= j < |states|
    ensures Taken(states, events, i, c) <= Taken(states, events, j, c)
    decreases j
  {
    if i < j { TakenGrows(states, events, i, j - 1, c); }
  }

  /** Nothing is taken from a connection that is not there yet, and nobody holds a seed for it. */
  lemma NobodyHolds(s: State, e: Event, c: Ref)
    requires Inv(s) && c !in s.conns
    ensures !Takes(s, e, c) && forall d :: !HoldsSeed(s, d, c)
  {
    forall d | d in s.conns ensures TargetOk(s, s.conns[d].pc) {
      Facts(s, d);
    }
  }

  lemma OpenedSeeds(s: State, s': State, c: Ref)
    requires QuietStep(s, s') && c !in s.conns && c in s'.conns && forall d :: !HoldsSeed(s, d, c)
    ensures SeedsOk(s', c, 0)
  {
    assert Untouched(s'.conns[c]);
    forall d | d in s'.conns ensures !HoldsSeed(s', d, c) {
      if d in s.conns { assert Quiet(s.conns[d], s'.conns[d]) && !HoldsSeed(s, d, c); }
    }
  }

  lemma OnlyOpenAdds(s: State, e: Event, c: Ref)
    requires Next(s, e).Some? && c !in s.conns && c in Next(s, e).value.conns
    ensures !PushEvent(e)
  {
    hide S.AfterReserve, S.AfterRevoke, S.AfterConsume, S.AfterLookup, StepMatch, M.AfterDeleteOwner;
    if PushEvent(e) { NextIsConnNext(s, e); }
  }

  /** The seeds of c are in order in every reachable state, and none was taken before c was opened. */
  lemma {:induction false} RunSeeds(config: Config, states: seq<State>, events: seq<Event>, i: nat, c: Ref)
    requires IsRun(config, states, events) && i < |states| && Taken(states, events, i, c) <= U32_LIMIT
    ensures c in states[i].conns ==> SeedsOk(states[i], c, Taken(states, events, i, c))
    ensures c !in states[i].conns ==> Taken(states, events, i, c) == 0
  {
    hide SeedsOk, QuietStep, Inv, Next, Takes;
    if i > 0 {
      RunStep(config, states, events, i - 1);
      var s, e := states[i - 1], events[i - 1];
      TakenGrows(states, events, i - 1, i, c);
      RunSeeds(config, states, events, i - 1, c);
      if c in s.conns {
        StepKeepsSeeds(s, e, c, Taken(states, events, i - 1, c));
      } else {
        ReachableInv(config, states, events, i - 1);
        NobodyHolds(s, e, c);
        if c in states[i].conns {
          OnlyOpenAdds(s, e, c);
          OtherStepsQuiet(s, e);
          OpenedSeeds(s, states[i], c);
        }
      }
    }
  }

  /**
    While at most 2^32 seeds have been taken from a connection, no two of them are equal, whoever took
    them and whether or not the pushes were written.
   */
  lemma SeedsNeverRepeat(config: Config, states: seq<State>, events: seq<Event>, i: nat, j: nat, c: Ref)
    requires IsRun(config, states, events) && i < j < |events|
    requires Takes(states[i], events[i], c) && Takes(states[j], events[j], c)
    requires Taken(states, events, j, c) < U32_LIMIT
    ensures c in states[i].conns && c in states[j].conns
    ensures states[i].conns[c].nextSeed != states[j].conns[c].nextSeed
  {
    hide Next, Takes;
    TakenGrows(states, events, i, j, c);
    TakenGrows(states, events, i + 1, j, c);
    SeedTakenAt(config, states, events, i, c);
    SeedTakenAt(config, states, events, j, c);
  }

  /** The seed taken is the number of seeds taken before it. */
  lemma SeedTakenAt(config: Config, states: seq<State>, events: seq<Event>, i: nat, c: Ref)
    requires IsRun(config, states, events) && i < |events| && Takes(states[i], events[i], c)
    requires Taken(states, events, i, c) < U32_LIMIT
    ensures c in states[i].conns && states[i].conns[c].nextSeed == Taken(states, events, i, c)
  {
    hide SeedsOk, Inv, Takes, Next;
    ReachableInv(config, states, events, i);
    TakerKnows(states[i], events[i], c);
    RunSeeds(config, states, events, i, c);
    SeedIs(states[i], c, Taken(states, events, i, c));
  }

  lemma SeedIs(s: State, c: Ref, n: nat)
    requires c in s.conns && SeedsOk(s, c, n) && n < U32_LIMIT
    ensures s.conns[c].nextSeed == n
  {}

  lemma TakerKnows(s: State, e: Event, c: Ref)
    requires Inv(s) && Takes(s, e, c)
    ensures c in s.conns
  {
    Facts(s, e.c);
  }

  /** So no two pushes a connection is ever sent are encrypted under the same seed. */
  lemma PushSeedsDiffer(config: Config, states: seq<State>, events: seq<Event>, i: nat, c: Ref, m: nat, n: nat)
    requires IsRun(config, states, events) && i < |states| && c in states[i].conns
    requires Taken(states, events, i, c) <= U32_LIMIT
    requires m < n < |states[i].conns[c].out| && states[i].conns[c].out[m].Push? && states[i].conns[c].out[n].Push?
    ensures states[i].conns[c].out[m].seed != states[i].conns[c].out[n].seed
  {
    RunSeeds(config, states, events, i, c);
  }
}
