/**
  What the server does with connections and calls that nothing disturbs (internal/online/server/server.go):
  who is admitted, how a connection leaves no trace, and that Serve and Shutdown come to their ends.
 */
module ServerLaws {
  import opened Bytes
  import opened Counts
  import opened Server

  /** The events one after the other, if all of them are possible. */
  function Through(s: State, es: seq<Event>): Option<State>
    decreases |es|
  {
    if es == [] then Some(s)
    else
      match Next(s, es[0])
      case None => None
      case Some(s') => Through(s', es[1..])
  }

  lemma ThroughFirst(s: State, e: Event, es: seq<Event>, t: State)
    requires Next(s, e) == Some(t)
    ensures Through(s, [e] + es) == Through(t, es)
    ensures Through(t, []) == Some(t)
  {
    hide Next;
    assert ([e] + es)[1..] == es;
  }

  lemma TwoEvents(s: State, e: Event, f: Event, t: State, u: State)
    requires Next(s, e) == Some(t) && Next(t, f) == Some(u)
    ensures Through(s, [e, f]) == Some(u)
  {
    hide Next, Through;
    ThroughFirst(s, e, [f], t);
    ThroughFirst(t, f, [], u);
    assert [e] + [f] == [e, f] && [f] + [] == [f];
  }

  lemma FourEvents(s: State, e: Event, f: Event, g: Event, h: Event, s1: State, s2: State, s3: State, s4: State)
    requires Next(s, e) == Some(s1) && Next(s1, f) == Some(s2) && Next(s2, g) == Some(s3) && Next(s3, h) == Some(s4)
    ensures Through(s, [e, f, g, h]) == Some(s4)
  {
    hide Next, Through;
    TwoEvents(s2, g, h, s3, s4);
    ThroughFirst(s1, f, [g, h], s2);
    ThroughFirst(s, e, [f, g, h], s1);
    assert [e] + [f, g, h] == [e, f, g, h] && [f] + [g, h] == [f, g, h];
  }

  lemma {:induction false} ThroughAll(s: State, es: seq<Event>, fs: seq<Event>, t: State)
    requires Through(s, es) == Some(t)
    ensures Through(s, es + fs) == Through(t, fs)
    decreases |es|
  {
    hide Next;
    if es == [] {
      assert es + fs == fs;
    } else {
      ThroughAll(Next(s, es[0]).value, es[1..], fs, t);
      assert (es + fs)[0] == es[0] && (es + fs)[1..] == es[1..] + fs;
    }
  }

  // ---------- admission ----------

  /** The registered connections of a source. */
  function Of(t: Tables, source: Source): set<Conn> {
    set c | c in t.connections && c in t.sourceOf && t.sourceOf[c] == source
  }

  lemma CountIs(t: Tables, acceptor: Acceptor, config: Config, source: Source)
    requires TablesOk(t, acceptor, config)
    ensures CountOf(t.bySource, source) == |Of(t, source)|
  {
    assert Of(t, source) == FromSource(t.connections, t.sourceOf, source);
    hide InStage;
  }

  /** t is s with connection c registered for this source. */
  predicate Admits(s: State, t: State, c: Conn, source: Source) {
    && t.acceptor == Accepting && t.closed == s.closed
    && t.tables.slots == s.tables.slots + 1
    && c !in s.tables.connections && t.tables.connections == s.tables.connections + {c}
    && Of(t.tables, source) == Of(s.tables, source) + {c}
    && t.tables.workers == s.tables.workers[c := Running]
  }

  lemma RegisteredMeans(s: State, c: Conn, source: Source)
    requires Inv(s) && s.acceptor == Offered(c, Some(source))
    ensures Admits(s, s.(tables := Registered(s.tables.(slots := s.tables.slots + 1), c, source), acceptor := Accepting), c, source)
  {
    FreshConn(s.tables, c);
    hide Inv;
  }

  lemma TakeIs(s: State, c: Conn, source: Source)
    requires s.acceptor == Offered(c, Some(source))
    ensures Next(s, TakeSlot)
            == Some(if s.tables.slots >= s.config.maxConns then s.(acceptor := Rejecting(c))
                    else s.(tables := s.tables.(slots := s.tables.slots + 1), acceptor := HasSlot(c, source)))
  {}

  lemma RegisterIs(s: State, c: Conn, source: Source)
    requires s.acceptor == HasSlot(c, source) && s.tables.slots > 0
    ensures Next(s, Register)
            == Some(if s.shuttingDown || CountOf(s.tables.bySource, source) >= s.config.maxPerSource
                    then s.(tables := s.tables.(slots := s.tables.slots - 1), acceptor := Rejecting(c))
                    else s.(tables := Registered(s.tables, c, source), acceptor := Accepting))
  {
    hide CountOf, Registered;
  }

  lemma CloseIs(s: State, c: Conn, stop: bool)
    requires s.acceptor == Rejecting(c)
    ensures Next(s, CloseRejected(stop)) == Some(s.(closed := s.closed + {c}, acceptor := if stop then Stopped else Accepting))
  {}

  lemma RejectsIs(s: State, c: Conn, peer: Option<Source>)
    requires s.acceptor == Offered(c, peer) && (peer.None? || s.tables.slots >= s.config.maxConns)
    ensures Next(s, TakeSlot) == Some(s.(acceptor := Rejecting(c)))
  {}

  /** Without a source or a free slot a connection is closed; nothing else happens to it, and the loop goes on unless told to stop. */
  lemma TurnedAway(s: State, c: Conn, peer: Option<Source>, stop: bool)
    requires s.acceptor == Offered(c, peer) && (peer.None? || s.tables.slots >= s.config.maxConns)
    ensures Through(s, [TakeSlot, CloseRejected(stop)])
            == Some(s.(closed := s.closed + {c}, acceptor := if stop then Stopped else Accepting))
  {
    hide Next, Through;
    RejectsIs(s, c, peer);
    var mid := s.(acceptor := Rejecting(c));
    CloseIs(mid, c, stop);
    TwoEvents(s, TakeSlot, CloseRejected(stop), mid, Next(mid, CloseRejected(stop)).value);
  }

  /**
    With both, it is registered exactly when no shutdown was requested and fewer connections than allowed
    are registered for its source; otherwise it is closed and the tables are as they were.
   */
  lemma AdmittedExactly(s: State, c: Conn, source: Source, stop: bool)
    requires Inv(s) && s.acceptor == Offered(c, Some(source)) && s.tables.slots < s.config.maxConns
    ensures if !s.shuttingDown && |Of(s.tables, source)| < s.config.maxPerSource
            then var t := Through(s, [TakeSlot, Register]); t.Some? && Admits(s, t.value, c, source)
            else Through(s, [TakeSlot] + [Register, CloseRejected(stop)])
                 == Some(s.(closed := s.closed + {c}, acceptor := if stop then Stopped else Accepting))
  {
    CountIs(s.tables, s.acceptor, s.config, source);
    hide Inv, Admits, Of, Through, Next, CountOf, Registered;
    RegisteredMeans(s, c, source);
    TakeIs(s, c, source);
    var mid := s.(tables := s.tables.(slots := s.tables.slots + 1), acceptor := HasSlot(c, source));
    RegisterIs(mid, c, source);
    var end := Next(mid, Register).value;
    TwoEvents(s, TakeSlot, Register, mid, end);
    if end.acceptor.Rejecting? {
      CloseIs(end, c, stop);
      TwoEvents(mid, Register, CloseRejected(stop), end, Next(end, CloseRejected(stop)).value);
      ThroughFirst(s, TakeSlot, [Register, CloseRejected(stop)], mid);
    }
  }

  // ---------- leaving ----------

  /** The tables with the worker of c at another point. */
  function Placed(t: Tables, c: Conn, w: Worker): Tables { t.(workers := t.workers[c := w]) }

  lemma PlacedTwice(t: Tables, c: Conn, v: Worker, w: Worker)
    ensures Placed(Placed(t, c, v), c, w) == Placed(t, c, w)
  {
    assert t.workers[c := v][c := w] == t.workers[c := w];
  }

  lemma ReturnStep(s: State, c: Conn)
    requires c in s.tables.workers && s.tables.workers[c] == Running
    ensures Next(s, Return(c)) == Some(s.(tables := Placed(s.tables, c, Returned), closed := s.closed + {c}))
  {}

  lemma ReleaseStep(s: State, t: Tables, c: Conn)
    requires s.tables == Placed(t, c, Returned) && c in t.sourceOf
    ensures Next(s, Release(c))
            == Some(s.(tables := Placed(t.(connections := t.connections - {c}, bySource := CountsWithout(t.bySource, t.sourceOf[c])),
                                        c, Unregistered)))
  {
    PlacedTwice(t, c, Returned, Unregistered);
    hide CountsWithout;
  }

  lemma SlotStep(s: State, t: Tables, c: Conn)
    requires s.tables == Placed(t, c, Unregistered) && t.slots > 0
    ensures Next(s, ReturnSlot(c)) == Some(s.(tables := Placed(t.(slots := t.slots - 1), c, SlotReturned)))
  {
    PlacedTwice(t, c, Unregistered, SlotReturned);
  }

  lemma DoneStep(s: State, t: Tables, c: Conn)
    requires s.tables == Placed(t, c, SlotReturned)
    ensures Next(s, WorkerDone(c)) == Some(s.(tables := t.(workers := t.workers - {c})))
  {
    assert t.workers[c := SlotReturned] - {c} == t.workers - {c};
  }

  lemma RunningKnown(s: State, c: Conn)
    requires Inv(s) && c in s.tables.workers && s.tables.workers[c] == Running
    ensures c in s.tables.sourceOf && c in s.tables.connections && s.tables.slots > 0
  {
    assert c in InStage(s.tables.workers, Running);
    assert |s.tables.connections| > 0;
  }

  lemma Unregisters(s: State, c: Conn)
    requires c in s.tables.workers && s.tables.workers[c] == Running && c in s.tables.sourceOf
    ensures var t := s.tables;
            var u := t.(connections := t.connections - {c}, bySource := CountsWithout(t.bySource, t.sourceOf[c]));
            Through(s, [Return(c), Release(c)]) == Some(s.(tables := Placed(u, c, Unregistered), closed := s.closed + {c}))
  {
    hide Next, Through, CountsWithout, Placed;
    var s1 := s.(tables := Placed(s.tables, c, Returned), closed := s.closed + {c});
    ReturnStep(s, c);
    ReleaseStep(s1, s.tables, c);
    TwoEvents(s, Return(c), Release(c), s1, Next(s1, Release(c)).value);
  }

  lemma GivesBack(s: State, u: Tables, c: Conn)
    requires s.tables == Placed(u, c, Unregistered) && u.slots > 0
    ensures Through(s, [ReturnSlot(c), WorkerDone(c)])
            == Some(s.(tables := u.(slots := u.slots - 1, workers := u.workers - {c})))
  {
    hide Next, Through, Placed;
    var v := u.(slots := u.slots - 1);
    var s1 := s.(tables := Placed(v, c, SlotReturned));
    SlotStep(s, u, c);
    DoneStep(s1, v, c);
    TwoEvents(s, ReturnSlot(c), WorkerDone(c), s1, Next(s1, WorkerDone(c)).value);
  }

  /** When its handler returns, a connection is closed and leaves the tables, the count of its source and its slot as they were without it. */
  lemma LeavesNoTrace(s: State, c: Conn)
    requires Inv(s) && c in s.tables.workers && s.tables.workers[c] == Running
    ensures c in s.tables.sourceOf && c in s.tables.connections
    ensures Through(s, [Return(c), Release(c)] + [ReturnSlot(c), WorkerDone(c)])
            == Some(s.(closed := s.closed + {c},
                       tables := Tables(s.tables.slots - 1, s.tables.connections - {c},
                                        CountsWithout(s.tables.bySource, s.tables.sourceOf[c]),
                                        s.tables.workers - {c}, s.tables.sourceOf)))
  {
    hide Next, Through, CountsWithout, Placed, Inv;
    RunningKnown(s, c);
    var t := s.tables;
    var u := t.(connections := t.connections - {c}, bySource := CountsWithout(t.bySource, t.sourceOf[c]));
    Unregisters(s, c);
    GivesBack(s.(tables := Placed(u, c, Unregistered), closed := s.closed + {c}), u, c);
    ThroughAll(s, [Return(c), Release(c)], [ReturnSlot(c), WorkerDone(c)],
               s.(tables := Placed(u, c, Unregistered), closed := s.closed + {c}));
  }

  // ---------- the ends of Serve and Shutdown ----------

  lemma StartIs(s: State)
    ensures Next(s, StartServe)
            == if s.serve == Off && !s.shuttingDown
               then Some(s.(serve := Started, generation := s.generation + 1, acceptor := Accepting, udpRunning := true))
               else None
  {}

  lemma LoopsEnd(s: State)
    requires s.serve == Started && s.acceptor == Accepting && s.udpRunning
    ensures Through(s, [EndAccept, FirstResult, EndUDP, SecondResult])
            == Some(s.(acceptor := Stopped, udpRunning := false, serve := Sweeping))
  {
    var a, b := s.(acceptor := Stopped), s.(acceptor := Stopped, serve := Stopping);
    var d := b.(udpRunning := false);
    assert Next(s, EndAccept) == Some(a) && Next(a, FirstResult) == Some(b) && Next(b, EndUDP) == Some(d);
    hide Through;
    FourEvents(s, EndAccept, FirstResult, EndUDP, SecondResult, a, b, d, d.(serve := Sweeping));
  }

  lemma SweepEnds(s: State)
    requires s.serve == Sweeping && s.tables.workers == map[] && s.tables.connections == {}
    ensures Through(s, [ServeSweep, ServeEnd])
            == Some(s.(serve := Off, acceptor := NoAcceptor, doneClosed := s.doneClosed + {s.generation}))
  {
    assert s.closed + s.tables.connections == s.closed;
    hide Through;
    TwoEvents(s, ServeSweep, ServeEnd, s.(serve := Draining), s.(serve := Off, acceptor := NoAcceptor, doneClosed := s.doneClosed + {s.generation}));
  }

  /**
    A Serve call starts exactly when none is in progress and no shutdown was requested; if nobody
    connects, it ends once both its loops do, and its done channel is closed.
   */
  lemma ServeRuns(s: State)
    requires Inv(s)
    ensures s.serve != Off || s.shuttingDown ==> Next(s, StartServe).None?
    ensures s.serve == Off && !s.shuttingDown ==>
              Through(s, [StartServe] + ([EndAccept, FirstResult, EndUDP, SecondResult] + [ServeSweep, ServeEnd]))
              == Some(s.(generation := s.generation + 1, doneClosed := s.doneClosed + {s.generation + 1}))
  {
    StartIs(s);
    if s.serve == Off && !s.shuttingDown {
      assert InStage(s.tables.workers, Running) + InStage(s.tables.workers, Returned) == {};
      assert s.tables.workers == map[] && s.tables.connections == {} && !s.udpRunning && s.acceptor == NoAcceptor;
      hide Inv, Next, Through;
      var a := Next(s, StartServe).value;
      ThroughFirst(s, StartServe, [EndAccept, FirstResult, EndUDP, SecondResult] + [ServeSweep, ServeEnd], a);
      LoopsEnd(a);
      var b := Through(a, [EndAccept, FirstResult, EndUDP, SecondResult]).value;
      ThroughAll(a, [EndAccept, FirstResult, EndUDP, SecondResult], [ServeSweep, ServeEnd], b);
      SweepEnds(b);
    }
  }

  lemma ShutdownSteps(s: State, r: Ref, g: nat, snapshot: set<Conn>)
    ensures r !in s.shutdowns && s.serve != Off ==>
              Next(s, CallShutdown(r)) == Some(s.(shuttingDown := true, shutdowns := s.shutdowns[r := Sweep(s.generation)]))
    ensures r in s.shutdowns && s.shutdowns[r] == Sweep(g) ==>
              Next(s, Snapshot(r)) == Some(s.(shutdowns := s.shutdowns[r := Closing(g, s.tables.connections)]))
    ensures r in s.shutdowns && s.shutdowns[r] == Closing(g, snapshot) ==>
              Next(s, CloseSnapshot(r)) == Some(s.(closed := s.closed + snapshot, shutdowns := s.shutdowns[r := Await(g)]))
    ensures r in s.shutdowns && s.shutdowns[r] == Await(g) ==>
              Next(s, AwaitDone(r)) == if g in s.doneClosed then Some(s.(shutdowns := s.shutdowns[r := Finished(true)])) else None
  {}

  /** A Shutdown call closes what is registered when it looks, and returns nil exactly once the Serve call it found has ended. */
  lemma ShutdownEnds(s: State, r: Ref, u: State)
    requires r !in s.shutdowns && s.serve != Off
    requires r in u.shutdowns && u.shutdowns[r] == Await(s.generation)
    ensures Through(s, [CallShutdown(r)] + [Snapshot(r), CloseSnapshot(r)])
            == Some(s.(shuttingDown := true, closed := s.closed + s.tables.connections, shutdowns := s.shutdowns[r := Await(s.generation)]))
    ensures Next(u, AwaitDone(r)) == if s.generation in u.doneClosed then Some(u.(shutdowns := u.shutdowns[r := Finished(true)])) else None
  {
    hide Next, Through;
    var g, m := s.generation, s.shutdowns;
    var a := s.(shuttingDown := true, shutdowns := m[r := Sweep(g)]);
    var b := a.(shutdowns := m[r := Closing(g, s.tables.connections)]);
    assert a.shutdowns[r := Closing(g, s.tables.connections)] == b.shutdowns && b.shutdowns[r := Await(g)] == m[r := Await(g)];
    ShutdownSteps(s, r, g, {});
    ShutdownSteps(a, r, g, {});
    ShutdownSteps(b, r, g, s.tables.connections);
    ShutdownSteps(u, r, g, {});
    ThroughFirst(s, CallShutdown(r), [Snapshot(r), CloseSnapshot(r)], a);
    TwoEvents(a, Snapshot(r), CloseSnapshot(r), b, Next(b, CloseSnapshot(r)).value);
  }
}
