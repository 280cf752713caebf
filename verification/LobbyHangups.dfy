/**
  Clients that must go (internal/online/lobby/lsg.go, client.go): one to which a push failed is taken out
  of the registry and closed before the sender is answered, and one that a newer login replaces is closed
  before the newer one is served.
 */
module LobbyHangups {
  import opened Bytes
  import opened MatchmakingTypes
  import opened Outputs
  import opened Lobby
  import opened LobbyInvariants
  import opened LobbySafety
  import opened LobbySeeds
  import opened LobbyPushes
  import S = LobbySessions
  import M = MatchStore
  import Seqs

  // ---------- one step ----------

  /** A step that is not d's own leaves d where it is, and nothing opens a closed connection. */
  ghost predicate Calm(s: State, e: Event, s': State, d: Ref)
    requires d in s.conns
  {
    && d in s'.conns
    && (s.conns[d].closed ==> s'.conns[d].closed)
    && (!(ConnEvent(e) && e.c == d) ==> s'.conns[d].pc == s.conns[d].pc)
  }

  lemma SharedCalm(s: State, e: Event, d: Ref)
    requires d in s.conns && !ConnEvent(e) && Next(s, e).Some?
    ensures Calm(s, e, Next(s, e).value, d)
  {
    hide ConnNext, S.AfterReserve, S.AfterRevoke;
  }

  lemma WithCalm(s: State, e: Event, s1: State, pc: Pc, d: Ref)
    requires d in s.conns && ConnEvent(e) && e.c in s.conns && s1.conns == s.conns
    ensures Calm(s, e, With(s1, e.c, s1.conns[e.c].(pc := pc)), d)
  {}

  lemma MatchCalm(s: State, e: Event, d: Ref)
    requires d in s.conns && e.ServeMatch? && e.c in s.conns && StepMatch(s, e.c, s.conns[e.c], e.call).Some?
    ensures Calm(s, e, StepMatch(s, e.c, s.conns[e.c], e.call).value, d)
  {
    hide Calm, With, M.AfterCreate, M.AfterUpdate, M.AfterDelete, M.Infos, M.Page, Seqs.Filter, BoundInfo;
    var k := s.conns[e.c];
    WithCalm(s, e, s, Leaving, d);
    var username := k.account.value.username;
    match e.call
    case CallCreate(info, random) =>
      if |username| <= MAX_TEXT {
        var (matches, r) := M.AfterCreate(s.matches, s.config.matches, k.id, BoundInfo(info, username), random);
        WithCalm(s, e, s.(matches := matches), if r.Ok? then Replying(Created(r.value.sessionID)) else Leaving, d);
      }
    case CallUpdate(id, info) =>
      var (matches, r) := M.AfterUpdate(s.matches, k.id, id, BoundInfo(info, username));
      WithCalm(s, e, s.(matches := matches), if r.Ok? || r.error == M.SessionMiss then Replying(Plain(2)) else Leaving, d);
    case CallDelete(id) =>
      var (matches, r) := M.AfterDelete(s.matches, k.id, id);
      WithCalm(s, e, s.(matches := matches), if r.Ok? || r.error == M.SessionMiss then Replying(Plain(3)) else Leaving, d);
    case CallFind(query, offset, maximum) =>
      var all := Seqs.Filter(s.matches.list, M.Answers(query));
      WithCalm(s, e, s, Replying(Found(M.Infos(M.Page(all, offset, maximum)), |all|)), d);
  }

  lemma LoginCalm(s: State, e: Event, d: Ref)
    requires d in s.conns && ConnEvent(e) && e.c in s.conns && ConnNext(s, e.c, s.conns[e.c], e).Some?
    requires e.Login? || e.Bind? || e.Number? || e.SendNumber? || e.Request? || e.Activate? || e.Control?
    ensures Calm(s, e, ConnNext(s, e.c, s.conns[e.c], e).value, d)
  {
    hide S.AfterLookup, S.AfterConsume;
  }

  lemma ServeCalm(s: State, e: Event, d: Ref)
    requires d in s.conns && ConnEvent(e) && e.c in s.conns && ConnNext(s, e.c, s.conns[e.c], e).Some?
    requires e.ServeEvent? || e.ServeMessage? || e.TakeSeed? || e.Deliver? || e.SendReply?
    ensures Calm(s, e, ConnNext(s, e.c, s.conns[e.c], e).value, d)
  {}

  lemma CloseCalm(s: State, e: Event, victim: Ref, pc: Pc, d: Ref)
    requires d in s.conns && ConnEvent(e) && e.c in s.conns
    ensures var s1 := Closed(s, victim);
            e.c in s1.conns && Calm(s, e, With(s1, e.c, s1.conns[e.c].(pc := pc)), d)
  {}

  lemma DeactivatedConns(s: State, c: Ref, k: Conn)
    ensures Deactivated(s, c, k).conns == s.conns
  {}

  lemma LeaveCalm(s: State, e: Event, d: Ref)
    requires d in s.conns && ConnEvent(e) && e.c in s.conns && ConnNext(s, e.c, s.conns[e.c], e).Some?
    requires e.CloseDisplaced? || e.Drop? || e.CloseDropped? || e.Fail? || e.Unregister? || e.Cleanup?
    ensures Calm(s, e, ConnNext(s, e.c, s.conns[e.c], e).value, d)
  {
    hide Calm, With, Closed, Deactivated, M.AfterDeleteOwner;
    var k := s.conns[e.c];
    if e.CloseDisplaced? {
      CloseCalm(s, e, k.pc.victim, Serving, d);
    } else if e.CloseDropped? {
      CloseCalm(s, e, k.pc.to, Replying(Plain(0x0e)), d);
    } else if e.Drop? {
      DeactivatedConns(s, k.pc.to, s.conns[k.pc.to]);
      WithCalm(s, e, Deactivated(s, k.pc.to, s.conns[k.pc.to]), HangingUp(k.pc.to), d);
    } else if e.Unregister? {
      DeactivatedConns(s, e.c, k);
      WithCalm(s, e, Deactivated(s, e.c, k), Unregistered, d);
    } else if e.Cleanup? {
      var matches := if k.id != 0 then M.AfterDeleteOwner(s.matches, k.id) else s.matches;
      WithCalm(s, e, s.(matches := matches), Done, d);
    } else {
      WithCalm(s, e, s, Leaving, d);
    }
  }

  lemma StepCalm(s: State, e: Event, d: Ref)
    requires d in s.conns && Next(s, e).Some?
    ensures Calm(s, e, Next(s, e).value, d)
  {
    hide Calm;
    if ConnEvent(e) {
      NextIsConnNext(s, e);
      hide Next;
      if e.ServeMatch? {
        hide StepMatch;
        MatchCalm(s, e, d);
      } else {
        hide ConnNext;
        if e.ServeEvent? || e.ServeMessage? || e.TakeSeed? || e.Deliver? || e.SendReply? {
          ServeCalm(s, e, d);
        } else if e.CloseDisplaced? || e.Drop? || e.CloseDropped? || e.Fail? || e.Unregister? || e.Cleanup? {
          LeaveCalm(s, e, d);
        } else {
          LoginCalm(s, e, d);
        }
      }
    } else {
      SharedCalm(s, e, d);
    }
  }

  // ---------- a push that failed ----------

  /** c is neither found nor open. */
  ghost predicate Gone(s: State, c: Ref) {
    c in s.conns && s.conns[c].closed && Absent(s, c)
  }

  /** d is about to take c out of the registry, or has done so and is about to close it, or c is gone. */
  ghost predicate Dismissing(s: State, d: Ref, c: Ref) {
    || (d in s.conns && s.conns[d].pc == Dropping(c))
    || (d in s.conns && s.conns[d].pc == HangingUp(c) && Absent(s, c))
    || Gone(s, c)
  }

  lemma FailedPushDrops(s: State, d: Ref, c: Ref)
    requires d in s.conns && s.conns[d].pc.Pushing? && s.conns[d].pc.to == c && Next(s, Deliver(d, false)).Some?
    ensures Dismissing(Next(s, Deliver(d, false)).value, d, c)
  {
    NextIsConnNext(s, Deliver(d, false));
    hide Next;
    DeliverIsStep(s, Deliver(d, false));
    hide ConnNext;
  }

  /** The steps that a connection with someone to dismiss can take itself. */
  lemma OwnStep(s: State, e: Event, d: Ref)
    requires ConnEvent(e) && e.c == d && Next(s, e).Some?
    ensures d in s.conns
    ensures s.conns[d].pc.Dropping? ==> e == Drop(d)
    ensures s.conns[d].pc.HangingUp? ==> e == CloseDropped(d)
    ensures s.conns[d].pc.Displacing? ==> e == CloseDisplaced(d)
  {
    NextIsConnNext(s, e);
    hide Next, S.AfterLookup, S.AfterConsume, M.AfterCreate, M.AfterUpdate, M.AfterDelete, M.AfterDeleteOwner, With, Closed, Deactivated;
  }

  lemma DropRemoves(s: State, d: Ref)
    requires Inv(s) && Next(s, Drop(d)).Some?
    ensures d in s.conns && s.conns[d].pc.Dropping?
    ensures var c, s' := s.conns[d].pc.to, Next(s, Drop(d)).value;
            d in s'.conns && s'.conns[d].pc == HangingUp(c) && Absent(s', c)
  {
    NextIsConnNext(s, Drop(d));
    hide Next;
    var c := s.conns[d].pc.to;
    forall h | h in s.registry && s.registry[h] == c
      ensures s.conns[c].account.Some? && s.conns[c].account.value.hash == h
    {
      assert Registrable(s, h, s.registry[h]);
    }
  }

  lemma CloseCloses(s: State, d: Ref)
    requires Next(s, CloseDropped(d)).Some? && d in s.conns && s.conns[d].pc.HangingUp? && s.conns[d].pc.to in s.conns
    ensures var c, s' := s.conns[d].pc.to, Next(s, CloseDropped(d)).value;
            c in s'.conns && s'.conns[c].closed && s'.registry == s.registry
  {
    NextIsConnNext(s, CloseDropped(d));
    hide Next;
  }

  lemma StepDismisses(s: State, e: Event, d: Ref, c: Ref)
    requires Inv(s) && Next(s, e).Some? && c in s.conns && s.conns[c].activated && Dismissing(s, d, c)
    ensures Dismissing(Next(s, e).value, d, c)
    ensures Gone(s, c) ==> Gone(Next(s, e).value, c)
  {
    hide Inv, Next, Absent, RegistryChange;
    StepCalm(s, e, c);
    if Absent(s, c) { StepAbsent(s, e, c); }
    if !Gone(s, c) {
      StepCalm(s, e, d);
      if ConnEvent(e) && e.c == d {
        OwnStep(s, e, d);
        if e.Drop? { DropRemoves(s, d); } else { CloseCloses(s, d); }
      }
    }
  }

  lemma {:induction false} RunDismisses(config: Config, states: seq<State>, events: seq<Event>, i: nat, j: nat, d: Ref, c: Ref)
    requires IsRun(config, states, events) && i <= j < |states|
    requires c in states[i].conns && states[i].conns[c].activated && Dismissing(states[i], d, c)
    ensures Dismissing(states[j], d, c) && (Gone(states[i], c) ==> Gone(states[j], c))
    decreases j
  {
    hide IsRun, Next, Inv, Dismissing, Gone, ConnsGrow, IssuedGrows, WithdrawnStays;
    if i < j {
      RunDismisses(config, states, events, i, j - 1, d, c);
      RunStep(config, states, events, j - 1);
      ReachableInv(config, states, events, j - 1);
      RunGrows(config, states, events, i, j - 1);
      StaysActivated(states[i], states[j - 1], c);
      StepDismisses(states[j - 1], events[j - 1], d, c);
    }
  }

  /** Whoever gets a push was registered once. */
  lemma TargetActivated(config: Config, states: seq<State>, events: seq<Event>, i: nat, d: Ref)
    requires IsRun(config, states, events) && i < |states|
    requires d in states[i].conns && states[i].conns[d].pc.Pushing?
    ensures var c := states[i].conns[d].pc.to; c in states[i].conns && states[i].conns[c].activated
  {
    hide Next, Inv, ConnsGrow, IssuedGrows, WithdrawnStays;
    var pc := states[i].conns[d].pc;
    RunLength(config, states, events);
    var k := CarriedWasRequested(config, states, events, i, d, pc.to, pc.message);
    hide IsRun;
    ReachableInv(config, states, events, k);
    AskedActivated(states[k], events[k], d, pc.to, pc.message);
    RunGrows(config, states, events, k, i);
    StaysActivated(states[k], states[i], pc.to);
  }

  lemma AskedActivated(s: State, e: Event, d: Ref, c: Ref, message: seq<byte>)
    requires Inv(s) && Asks(s, e, d, c, message)
    ensures c in s.conns && s.conns[c].activated
  {
    assert Registrable(s, e.recipient, c);
  }

  /**
    When a push to c fails, c is out of the registry and closed, for good, before its sender answers the
    request or leaves.
   */
  lemma FailedPushHangsUp(config: Config, states: seq<State>, events: seq<Event>, i: nat, j: nat, k: nat, d: Ref, c: Ref)
    requires IsRun(config, states, events) && i < j < |events| && j <= k < |states|
    requires events[i] == Deliver(d, false) && d in states[i].conns && states[i].conns[d].pc.Pushing? && states[i].conns[d].pc.to == c
    requires events[j].SendReply? || events[j].Cleanup?
    requires events[j].c == d
    ensures c in states[k].conns && states[k].conns[c].closed
    ensures forall h | h in states[k].registry :: states[k].registry[h] != c
  {
    hide IsRun, Next, Inv, Dismissing, ConnsGrow, IssuedGrows, WithdrawnStays;
    RunLength(config, states, events);
    TargetActivated(config, states, events, i, d);
    RunStep(config, states, events, i);
    FailedPushDrops(states[i], d, c);
    RunGrows(config, states, events, i, i + 1);
    StaysActivated(states[i], states[i + 1], c);
    RunDismisses(config, states, events, i + 1, j, d, c);
    RunStep(config, states, events, j);
    OwnStep(states[j], events[j], d);
    DismissedThen(states[j], d, c);
    RunGrows(config, states, events, i, j);
    StaysActivated(states[i], states[j], c);
    RunDismisses(config, states, events, j, k, d, c);
  }

  lemma DismissedThen(s: State, d: Ref, c: Ref)
    requires Dismissing(s, d, c) && d in s.conns && !s.conns[d].pc.Dropping? && !s.conns[d].pc.HangingUp?
    ensures Gone(s, c)
  {}

  // ---------- a newer login ----------

  /** c has replaced v and is about to close it, or has done so. */
  ghost predicate Replacing(s: State, c: Ref, v: Ref) {
    || (c in s.conns && s.conns[c].pc == Displacing(v) && Absent(s, v))
    || Gone(s, v)
  }

  lemma ActivateReplaces(s: State, c: Ref, h: u64)
    requires Inv(s) && Next(s, Activate(c)).Some? && c in s.conns && s.conns[c].account.Some? && s.conns[c].account.value.hash == h
    ensures var s' := Next(s, Activate(c)).value;
            && h in s'.registry && s'.registry[h] == c
            && (h in s.registry && s.registry[h] != c ==> Replacing(s', c, s.registry[h]))
  {
    OneHash(s);
    NextIsConnNext(s, Activate(c));
    hide Next, Inv;
    ActivateStep(s, c);
    hide ConnNext, StepActivate;
    ActivateEffect(s, c, h);
    var s' := StepActivate(s, c, s.conns[c]).value;
    if h in s.registry && s.registry[h] != c {
      var v := s.registry[h];
      forall g | g in s'.registry ensures s'.registry[g] != v { assert g == h || g in s.registry; }
    }
  }

  lemma ActivateEffect(s: State, c: Ref, h: u64)
    requires c in s.conns && StepActivate(s, c, s.conns[c]).Some? && s.conns[c].account.Some? && s.conns[c].account.value.hash == h
    ensures var s' := StepActivate(s, c, s.conns[c]).value;
            && s'.registry == s.registry[h := c] && c in s'.conns
            && s'.conns[c].pc == if h in s.registry && s.registry[h] != c then Displacing(s.registry[h]) else Serving
  {}

  /** A client stands in the registry under one hash only. */
  lemma OneHash(s: State)
    requires Inv(s)
    ensures forall g, h | g in s.registry && h in s.registry && s.registry[g] == s.registry[h] :: g == h
  {
    forall g | g in s.registry
      ensures s.registry[g] in s.conns && s.conns[s.registry[g]].account.Some? && s.conns[s.registry[g]].account.value.hash == g
    {
      assert Registrable(s, g, s.registry[g]);
    }
  }

  lemma ActivateStep(s: State, c: Ref)
    requires c in s.conns && ConnNext(s, c, s.conns[c], Activate(c)).Some?
    ensures ConnNext(s, c, s.conns[c], Activate(c)) == StepActivate(s, c, s.conns[c])
  {}

  lemma DisplaceCloses(s: State, c: Ref)
    requires Inv(s) && Next(s, CloseDisplaced(c)).Some? && c in s.conns && s.conns[c].pc.Displacing?
    ensures var v, s' := s.conns[c].pc.victim, Next(s, CloseDisplaced(c)).value;
            v in s'.conns && s'.conns[v].closed && s'.registry == s.registry
  {
    NextIsConnNext(s, CloseDisplaced(c));
    hide Next;
    Facts(s, c);
  }

  lemma StepReplaces(s: State, e: Event, c: Ref, v: Ref)
    requires Inv(s) && Next(s, e).Some? && v in s.conns && s.conns[v].activated && Replacing(s, c, v)
    ensures Replacing(Next(s, e).value, c, v)
    ensures Gone(s, v) ==> Gone(Next(s, e).value, v)
  {
    hide Inv, Next, Absent, RegistryChange;
    StepCalm(s, e, v);
    StepAbsent(s, e, v);
    if !Gone(s, v) {
      StepCalm(s, e, c);
      if ConnEvent(e) && e.c == c {
        OwnStep(s, e, c);
        DisplaceCloses(s, c);
      }
    }
  }

  lemma {:induction false} RunReplaces(config: Config, states: seq<State>, events: seq<Event>, i: nat, j: nat, c: Ref, v: Ref)
    requires IsRun(config, states, events) && i <= j < |states|
    requires v in states[i].conns && states[i].conns[v].activated && Replacing(states[i], c, v)
    ensures Replacing(states[j], c, v) && (Gone(states[i], v) ==> Gone(states[j], v))
    decreases j
  {
    hide IsRun, Next, Inv, Replacing, Gone, ConnsGrow, IssuedGrows, WithdrawnStays;
    if i < j {
      RunReplaces(config, states, events, i, j - 1, c, v);
      RunStep(config, states, events, j - 1);
      ReachableInv(config, states, events, j - 1);
      RunGrows(config, states, events, i, j - 1);
      StaysActivated(states[i], states[j - 1], v);
      StepReplaces(states[j - 1], events[j - 1], c, v);
    }
  }

  lemma RegisteredActivated(s: State, h: u64)
    requires Inv(s) && h in s.registry
    ensures s.registry[h] in s.conns && s.conns[s.registry[h]].activated
  {
    assert Registrable(s, h, s.registry[h]);
  }

  /**
    When a login on the same account replaces a client, the older one is out of the registry and closed,
    for good, before the newer one takes any step but the one that closes it.
   */
  lemma NewerLoginCloses(config: Config, states: seq<State>, events: seq<Event>, i: nat, j: nat, k: nat, c: Ref, h: u64)
    requires IsRun(config, states, events) && i < j < |events| && j <= k < |states|
    requires events[i] == Activate(c) && c in states[i].conns
    requires states[i].conns[c].account.Some? && states[i].conns[c].account.value.hash == h
    requires h in states[i].registry && states[i].registry[h] != c
    requires ConnEvent(events[j]) && events[j].c == c && events[j] != CloseDisplaced(c)
    ensures var v := states[i].registry[h];
            && v in states[k].conns && states[k].conns[v].closed
            && forall g | g in states[k].registry :: states[k].registry[g] != v
  {
    hide IsRun, Next, Inv, Replacing, ConnsGrow, IssuedGrows, WithdrawnStays;
    var v := states[i].registry[h];
    RunLength(config, states, events);
    ReachableInv(config, states, events, i);
    RegisteredActivated(states[i], h);
    RunStep(config, states, events, i);
    ActivateReplaces(states[i], c, h);
    RunGrows(config, states, events, i, i + 1);
    StaysActivated(states[i], states[i + 1], v);
    RunReplaces(config, states, events, i + 1, j, c, v);
    RunStep(config, states, events, j);
    OwnStep(states[j], events[j], c);
    ReplacedThen(states[j], c, v);
    RunGrows(config, states, events, i, j);
    StaysActivated(states[i], states[j], v);
    RunReplaces(config, states, events, j, k, c, v);
  }

  lemma ReplacedThen(s: State, c: Ref, v: Ref)
    requires Replacing(s, c, v) && c in s.conns && !s.conns[c].pc.Displacing?
    ensures Gone(s, v)
  {}

  // ---------- who is found ----------

  /** With e, the client c of hash h may leave the registry: on its own return, after a failed push, for a newer login. */
  ghost predicate MayLeave(s: State, e: Event, h: u64, c: Ref) {
    || e == Unregister(c)
    || (e.Drop? && e.c in s.conns && s.conns[e.c].pc == Dropping(c))
    || (e.Activate? && e.c != c && e.c in s.conns && s.conns[e.c].account.Some? && s.conns[e.c].account.value.hash == h)
  }

  lemma StepFinds(s: State, e: Event, h: u64, c: Ref)
    requires Inv(s) && Next(s, e).Some? && h in s.registry && s.registry[h] == c && !MayLeave(s, e, h, c)
    ensures var s' := Next(s, e).value; h in s'.registry && s'.registry[h] == c
  {
    hide Inv, Next;
    RegistrationEndsProperly(s, e, h);
    if e.Drop? || e.Activate? {
      DropOrActivateKnown(s, e);
    }
  }

  lemma DropOrActivateKnown(s: State, e: Event)
    requires Inv(s) && Next(s, e).Some? && (e.Drop? || e.Activate?)
    ensures e.c in s.conns && (e.Activate? ==> s.conns[e.c].account.Some?)
  {
    NextIsConnNext(s, e);
    hide Next;
  }

  /** Once activated, a client is found under its account's hash for as long as nothing ends its registration. */
  lemma {:induction false} ActivatedIsFound(config: Config, states: seq<State>, events: seq<Event>, i: nat, j: nat, c: Ref, h: u64)
    requires IsRun(config, states, events) && i < j < |states| && |states| == |events| + 1
    requires events[i] == Activate(c) && c in states[i].conns
    requires states[i].conns[c].account.Some? && states[i].conns[c].account.value.hash == h
    requires forall m | i < m < j :: !MayLeave(states[m], events[m], h, c)
    ensures h in states[j].registry && states[j].registry[h] == c
    decreases j
  {
    hide IsRun, Next, Inv, MayLeave, Replacing;
    RunStep(config, states, events, j - 1);
    ReachableInv(config, states, events, j - 1);
    if j == i + 1 {
      ActivateReplaces(states[i], c, h);
    } else {
      ActivatedIsFound(config, states, events, i, j - 1, c, h);
      StepFinds(states[j - 1], events[j - 1], h, c);
    }
  }
}
