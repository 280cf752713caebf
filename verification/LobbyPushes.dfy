/**
  Where pushes come from (internal/online/lobby/lsg.go: deliverGlobalInstantMessage).
  Every push on a connection answers a request of its own, made by the sender it names for the account
  it arrives at, and one sender's pushes arrive in the order of the requests.
 */
module LobbyPushes {
  import opened Bytes
  import opened Outputs
  import opened Lobby
  import opened LobbyInvariants
  import opened LobbySafety
  import opened LobbySeeds
  import S = LobbySessions
  import M = MatchStore

  /** d is on its way to push message to c. */
  ghost predicate Carries(s: State, d: Ref, c: Ref, message: seq<byte>) {
    d in s.conns && Carrying(s.conns[d].pc) && s.conns[d].pc.to == c && s.conns[d].pc.message == message
  }

  /** With e, connection d asks for message to be pushed to an account whose client is c. */
  ghost predicate Asks(s: State, e: Event, d: Ref, c: Ref, message: seq<byte>) {
    && e.ServeMessage? && e.c == d && e.message == message
    && d in s.conns && s.conns[d].pc == Serving
    && e.recipient in s.registry && s.registry[e.recipient] == c
  }

  /** With e, connection d writes push on c: it names d's account and carries what d was carrying. */
  ghost predicate Delivers(s: State, e: Event, d: Ref, c: Ref, push: Sent) {
    && e == Deliver(d, true) && d in s.conns && s.conns[d].pc.Pushing? && s.conns[d].pc.to == c
    && s.conns[d].account.Some?
    && push == Push(s.conns[d].pc.seed, s.conns[d].account.value.hash, Truncated(s.conns[d].account.value.username),
                    s.conns[d].pc.message)
  }

  // ---------- one step ----------

  lemma QuietCarries(s: State, s': State, d: Ref, c: Ref, message: seq<byte>)
    requires QuietStep(s, s') && Carries(s', d, c, message)
    ensures Carries(s, d, c, message)
  {
    if d in s.conns { assert Quiet(s.conns[d], s'.conns[d]); }
  }

  lemma TakeCarries(s: State, a: Ref, d: Ref, c: Ref, message: seq<byte>)
    requires a in s.conns && StepTakeSeed(s, a, s.conns[a]).Some?
    requires Carries(StepTakeSeed(s, a, s.conns[a]).value, d, c, message)
    ensures Carries(s, d, c, message)
  {}

  lemma DeliverCarries(s: State, a: Ref, written: bool, d: Ref, c: Ref, message: seq<byte>)
    requires a in s.conns && StepDeliver(s, a, s.conns[a], written).Some?
    requires Carries(StepDeliver(s, a, s.conns[a], written).value, d, c, message)
    ensures d != a && Carries(s, d, c, message)
  {}

  lemma MessageCarries(s: State, a: Ref, recipient: u64, asked: seq<byte>, d: Ref, c: Ref, message: seq<byte>)
    requires a in s.conns && StepMessage(s, a, s.conns[a], recipient, asked).Some?
    requires Carries(StepMessage(s, a, s.conns[a], recipient, asked).value, d, c, message)
    ensures if d == a then Asks(s, ServeMessage(a, recipient, asked), d, c, message) else Carries(s, d, c, message)
  {}

  /** A connection carries a message after a step only if it did before or has just been asked to. */
  lemma StepCarries(s: State, e: Event, d: Ref, c: Ref, message: seq<byte>)
    requires Next(s, e).Some? && Carries(Next(s, e).value, d, c, message)
    ensures Carries(s, d, c, message) || Asks(s, e, d, c, message)
    ensures e.Deliver? ==> e.c != d
  {
    hide QuietStep, Carries, Asks;
    if PushEvent(e) {
      NextIsConnNext(s, e);
      hide Next;
      PushCarries(s, e, d, c, message);
    } else {
      hide Next;
      OtherStepsQuiet(s, e);
      QuietCarries(s, Next(s, e).value, d, c, message);
    }
  }

  lemma PushCarries(s: State, e: Event, d: Ref, c: Ref, message: seq<byte>)
    requires PushEvent(e) && e.c in s.conns && ConnNext(s, e.c, s.conns[e.c], e).Some?
    requires Carries(ConnNext(s, e.c, s.conns[e.c], e).value, d, c, message)
    ensures Carries(s, d, c, message) || Asks(s, e, d, c, message)
    ensures e.Deliver? ==> e.c != d
  {
    hide Carries, Asks;
    if e.TakeSeed? {
      TakeIsStep(s, e);
      hide ConnNext, StepTakeSeed;
      TakeCarries(s, e.c, d, c, message);
    } else if e.Deliver? {
      DeliverIsStep(s, e);
      hide ConnNext, StepDeliver;
      DeliverCarries(s, e.c, e.written, d, c, message);
    } else {
      MessageIsStep(s, e);
      hide ConnNext, StepMessage;
      MessageCarries(s, e.c, e.recipient, e.message, d, c, message);
    }
  }

  /** A step writes at most one item on c, and a push only if a sender delivers it. */
  ghost predicate WritesOne(s: State, e: Event, s': State, c: Ref) {
    if c !in s.conns then c in s'.conns ==> s'.conns[c].out == []
    else
      && c in s'.conns
      && (|| s'.conns[c].out == s.conns[c].out
          || exists item: Sent :: s'.conns[c].out == s.conns[c].out + [item]
                                  && (item.Push? ==> exists d :: Delivers(s, e, d, c, item)))
  }

  lemma QuietWrites(s: State, e: Event, s': State, c: Ref)
    requires QuietStep(s, s')
    ensures WritesOne(s, e, s', c)
  {
    if c in s.conns {
      assert Quiet(s.conns[c], s'.conns[c]);
    } else if c in s'.conns {
      assert Untouched(s'.conns[c]);
    }
  }

  lemma SameWrites(s: State, e: Event, s': State, c: Ref)
    requires c in s.conns <==> c in s'.conns
    requires c in s.conns ==> s'.conns[c].out == s.conns[c].out
    ensures WritesOne(s, e, s', c)
  {}

  lemma DeliverWrites(s: State, a: Ref, written: bool, c: Ref)
    requires a in s.conns && StepDeliver(s, a, s.conns[a], written).Some?
    ensures WritesOne(s, Deliver(a, written), StepDeliver(s, a, s.conns[a], written).value, c)
  {
    var k := s.conns[a];
    var s' := StepDeliver(s, a, k, written).value;
    if c == k.pc.to && written {
      var push := Push(k.pc.seed, k.account.value.hash, Truncated(k.account.value.username), k.pc.message);
      assert Delivers(s, Deliver(a, written), a, c, push);
      assert s'.conns[c].out == s.conns[c].out + [push];
    } else {
      SameWrites(s, Deliver(a, written), s', c);
    }
  }

  lemma MessageWrites(s: State, e: Event, a: Ref, recipient: u64, message: seq<byte>, c: Ref)
    requires a in s.conns && StepMessage(s, a, s.conns[a], recipient, message).Some?
    ensures WritesOne(s, e, StepMessage(s, a, s.conns[a], recipient, message).value, c)
  {
    hide WritesOne;
    SameWrites(s, e, StepMessage(s, a, s.conns[a], recipient, message).value, c);
  }

  lemma TakeWrites(s: State, e: Event, a: Ref, c: Ref)
    requires a in s.conns && StepTakeSeed(s, a, s.conns[a]).Some?
    ensures WritesOne(s, e, StepTakeSeed(s, a, s.conns[a]).value, c)
  {
    hide WritesOne;
    SameWrites(s, e, StepTakeSeed(s, a, s.conns[a]).value, c);
  }

  lemma StepWrites(s: State, e: Event, c: Ref)
    requires Next(s, e).Some?
    ensures WritesOne(s, e, Next(s, e).value, c)
  {
    hide QuietStep, WritesOne;
    if PushEvent(e) {
      NextIsConnNext(s, e);
      hide Next;
      if e.TakeSeed? {
        TakeIsStep(s, e);
        hide ConnNext, StepTakeSeed;
        TakeWrites(s, e, e.c, c);
      } else if e.Deliver? {
        DeliverIsStep(s, e);
        hide ConnNext, StepDeliver;
        DeliverWrites(s, e.c, e.written, c);
      } else {
        MessageIsStep(s, e);
        hide ConnNext, StepMessage;
        MessageWrites(s, e, e.c, e.recipient, e.message, c);
      }
    } else {
      hide Next;
      OtherStepsQuiet(s, e);
      QuietWrites(s, e, Next(s, e).value, c);
    }
  }

  // ---------- whole runs ----------

  /** What d carries in state i it was asked for with event k, and it has done nothing else since. */
  ghost predicate Requested(states: seq<State>, events: seq<Event>, i: nat, k: nat, d: Ref, c: Ref, message: seq<byte>)
    requires |states| == |events| + 1 && i < |states|
  {
    && k < i
    && Asks(states[k], events[k], d, c, message)
    && forall l | k < l <= i :: Carries(states[l], d, c, message)
  }

  lemma {:induction false} CarriedWasRequested(config: Config, states: seq<State>, events: seq<Event>, i: nat,
                                               d: Ref, c: Ref, message: seq<byte>) returns (k: nat)
    requires IsRun(config, states, events) && i < |states| && Carries(states[i], d, c, message)
    ensures Requested(states, events, i, k, d, c, message)
  {
    hide Next, Carries, Asks;
    if i == 0 {
      NothingCarried(config, d, c, message);
      assert false;
    } else {
      RunStep(config, states, events, i - 1);
      StepCarries(states[i - 1], events[i - 1], d, c, message);
      if Carries(states[i - 1], d, c, message) {
        k := CarriedWasRequested(config, states, events, i - 1, d, c, message);
      } else {
        k := i - 1;
      }
    }
  }

  lemma NothingCarried(config: Config, d: Ref, c: Ref, message: seq<byte>)
    ensures !Carries(Init(config), d, c, message)
  {}

  /**
    Item m on connection c was written with event j by sender d, which was asked for it with event k:
    the request was for an account whose client is c, and the push carries what was asked.
   */
  ghost predicate Delivered(states: seq<State>, events: seq<Event>, i: nat, c: Ref, m: nat, d: Ref, j: nat, k: nat)
    requires |states| == |events| + 1 && i < |states| && c in states[i].conns && m < |states[i].conns[c].out|
  {
    && j < i && c in states[j].conns && |states[j].conns[c].out| == m
    && var push := states[i].conns[c].out[m];
    && Delivers(states[j], events[j], d, c, push)
    && Requested(states, events, j, k, d, c, push.message)
  }

  /** Every push on a connection was delivered by a sender that was asked for it. */
  lemma {:induction false} PushWasRequested(config: Config, states: seq<State>, events: seq<Event>, i: nat, c: Ref, m: nat)
    returns (d: Ref, j: nat, k: nat)
    requires IsRun(config, states, events) && i < |states| && c in states[i].conns
    requires m < |states[i].conns[c].out| && states[i].conns[c].out[m].Push?
    ensures Delivered(states, events, i, c, m, d, j, k)
  {
    hide Next, Carries, Asks, Delivers, Requested;
    assert i > 0;
    RunStep(config, states, events, i - 1);
    StepWrites(states[i - 1], events[i - 1], c);
    assert c in states[i - 1].conns;
    var before, after := states[i - 1].conns[c].out, states[i].conns[c].out;
    if m < |before| {
      assert after[m] == before[m];
      d, j, k := PushWasRequested(config, states, events, i - 1, c, m);
    } else {
      d :| Delivers(states[i - 1], events[i - 1], d, c, after[m]);
      j := i - 1;
      DelivererCarries(states[j], events[j], d, c, after[m]);
      k := CarriedWasRequested(config, states, events, j, d, c, after[m].message);
    }
  }

  lemma DelivererCarries(s: State, e: Event, d: Ref, c: Ref, push: Sent)
    requires Delivers(s, e, d, c, push)
    ensures push.Push? && Carries(s, d, c, push.message)
  {}

  /** Sender and recipient of a push, at the moment it was asked for and ever after. */
  ghost predicate Between(s: State, d: Ref, sender: u64, name: seq<byte>, c: Ref, recipient: u64) {
    && d in s.conns && s.conns[d].confirmed && s.conns[d].account.Some?
    && sender == s.conns[d].account.value.hash && name == Truncated(s.conns[d].account.value.username)
    && s.conns[d].ticket.Some? && sender == s.conns[d].ticket.value.session.accountHash
    && c in s.conns && s.conns[c].confirmed && s.conns[c].account.Some? && recipient == s.conns[c].account.value.hash
  }

  lemma AskerConfirmed(s: State, e: Event, d: Ref, c: Ref, message: seq<byte>)
    requires Inv(s) && Asks(s, e, d, c, message)
    ensures var a := s.conns[d].account;
            a.Some? && Between(s, d, a.value.hash, Truncated(a.value.username), c, e.recipient)
  {
    Facts(s, d);
    Facts(s, c);
    assert Registrable(s, e.recipient, c);
  }

  lemma StillBetween(s: State, s': State, d: Ref, sender: u64, name: seq<byte>, c: Ref, recipient: u64)
    requires ConnsGrow(s, s') && Between(s, d, sender, name, c, recipient)
    ensures Between(s', d, sender, name, c, recipient)
    ensures d in s.conns && d in s'.conns && s'.conns[d].account == s.conns[d].account
  {
    hide Truncated;
    assert Grows(s.conns[d], s'.conns[d]) && Grows(s.conns[c], s'.conns[c]);
  }

  /**
    Every push on a connection was asked for: its sender is a confirmed connection, named by the hash
    and the name of the account its ticket was issued for, and asked for this very message to be sent
    to the account of the connection the push is on.
   */
  lemma PushIsAuthentic(config: Config, states: seq<State>, events: seq<Event>, i: nat, c: Ref, m: nat)
    returns (d: Ref, j: nat, k: nat)
    requires IsRun(config, states, events) && i < |states| && c in states[i].conns
    requires m < |states[i].conns[c].out| && states[i].conns[c].out[m].Push?
    ensures Delivered(states, events, i, c, m, d, j, k)
    ensures var push := states[i].conns[c].out[m];
            && events[k] == ServeMessage(d, events[k].recipient, push.message)
            && forall l | k <= l <= i :: Between(states[l], d, push.sender, push.name, c, events[k].recipient)
  {
    hide Next, Carries, Inv, Between, ConnsGrow, IssuedGrows, WithdrawnStays;
    d, j, k := PushWasRequested(config, states, events, i, c, m);
    RunLength(config, states, events);
    hide IsRun;
    ReachableInv(config, states, events, k);
    var push := states[i].conns[c].out[m];
    AskerConfirmed(states[k], events[k], d, c, push.message);
    var a := states[k].conns[d].account.value;
    forall l | k <= l <= i
      ensures Between(states[l], d, a.hash, Truncated(a.username), c, events[k].recipient)
      ensures d in states[l].conns && states[l].conns[d].account == Some(a)
    {
      RunGrows(config, states, events, k, l);
      StillBetween(states[k], states[l], d, a.hash, Truncated(a.username), c, events[k].recipient);
    }
    assert states[j].conns[d].account == Some(a);
  }

  lemma RunLength(config: Config, states: seq<State>, events: seq<Event>)
    requires IsRun(config, states, events)
    ensures |states| == |events| + 1
  {
    hide Next;
  }

  // ---------- one push for one request, in order ----------

  lemma {:induction false} OutputGrows(config: Config, states: seq<State>, events: seq<Event>, i: nat, j: nat, c: Ref)
    requires IsRun(config, states, events) && i <= j < |states| && c in states[i].conns
    ensures c in states[j].conns && |states[i].conns[c].out| <= |states[j].conns[c].out|
    decreases j
  {
    hide Next, Delivers, IsRun;
    if i < j {
      OutputGrows(config, states, events, i, j - 1, c);
      RunStep(config, states, events, j - 1);
      StepWrites(states[j - 1], events[j - 1], c);
    }
  }

  /** What a sender delivers later it was asked for later, after the earlier delivery. */
  lemma LaterRequest(config: Config, states: seq<State>, events: seq<Event>, i: nat, d: Ref,
                     c: Ref, m: nat, j: nat, k: nat, c': Ref, n: nat, j': nat, k': nat)
    requires IsRun(config, states, events) && |states| == |events| + 1 && i < |states|
    requires c in states[i].conns && m < |states[i].conns[c].out| && Delivered(states, events, i, c, m, d, j, k)
    requires c' in states[i].conns && n < |states[i].conns[c'].out| && Delivered(states, events, i, c', n, d, j', k')
    requires j < j'
    ensures k < j < k' < j'
  {
    hide Next, Carries, Asks, IsRun;
    RunStep(config, states, events, j);
    var message := states[i].conns[c'].out[n].message;
    if k' <= j {
      assert Carries(states[j + 1], d, c', message);
      StepCarries(states[j], events[j], d, c', message);
      assert false;
    }
  }

  /** Different pushes, wherever they arrive, answer different requests. */
  lemma OnePushPerRequest(config: Config, states: seq<State>, events: seq<Event>, i: nat,
                          c: Ref, m: nat, d: Ref, j: nat, k: nat, c': Ref, n: nat, d': Ref, j': nat, k': nat)
    requires IsRun(config, states, events) && |states| == |events| + 1 && i < |states|
    requires c in states[i].conns && m < |states[i].conns[c].out| && Delivered(states, events, i, c, m, d, j, k)
    requires c' in states[i].conns && n < |states[i].conns[c'].out| && Delivered(states, events, i, c', n, d', j', k')
    requires (c, m) != (c', n)
    ensures k != k'
  {
    hide IsRun, Next, Carries;
    if d == d' {
      if j < j' {
        LaterRequest(config, states, events, i, d, c, m, j, k, c', n, j', k');
      } else if j' < j {
        LaterRequest(config, states, events, i, d, c', n, j', k', c, m, j, k);
      }
    }
  }

  /** Pushes arrive in the order in which they were written, and those of one sender in the order of its requests. */
  lemma PushesInOrder(config: Config, states: seq<State>, events: seq<Event>, i: nat, c: Ref,
                      m: nat, d: Ref, j: nat, k: nat, n: nat, d': Ref, j': nat, k': nat)
    requires IsRun(config, states, events) && |states| == |events| + 1 && i < |states| && c in states[i].conns
    requires m < n < |states[i].conns[c].out|
    requires Delivered(states, events, i, c, m, d, j, k) && Delivered(states, events, i, c, n, d', j', k')
    ensures j < j' && (d == d' ==> k < k')
  {
    hide IsRun, Next, Carries;
    if j' <= j {
      OutputGrows(config, states, events, j', j, c);
      assert false;
    }
    if d == d' { LaterRequest(config, states, events, i, d, c, m, j, k, c, n, j', k'); }
  }
}
