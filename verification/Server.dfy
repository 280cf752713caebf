/**
  Connection accounting and shutdown (internal/online/server/server.go).

  Threads: at most one Serve call in progress with its accept loop and UDP loop, one worker per
  accepted connection, and any number of Shutdown calls. A step is one lock section, one channel
  operation, or one wait. `generation` numbers the successive Serve calls and their done channels;
  `sourceOf` is the address a connection reports; `closed` is the connections Close was called on.
 */
module Server {
  import opened Bytes
  import opened Counts

  type Conn = int
  type Source = string
  type Ref = int

  datatype Config = Config(maxConns: nat, maxPerSource: nat)

  datatype Acceptor =
    | NoAcceptor
    | Accepting
    | Offered(conn: Conn, peer: Option<Source>)  // Accept returned conn
    | HasSlot(conn: Conn, source: Source)          // slot taken, lock not yet taken
    | Rejecting(conn: Conn)                        // not accepted, still open
    | Stopped                                      // serveTCP returned

  datatype Worker =
    | Running        // HandleTCP in progress
    | Returned       // HandleTCP returned and the connection was closed
    | Unregistered   // out of the tables, slot not yet returned
    | SlotReturned   // only workers.Done is left

  datatype Serve =
    | Off        // serving == false
    | Started    // waiting for the first loop to end
    | Stopping   // listeners closed, waiting for the other loop
    | Sweeping   // both loops ended, about to close the connections
    | Draining   // waiting for the workers

  datatype Shutdown =
    | Sweep(generation: nat)   // shuttingDown is set, snapshot not yet taken
    | Closing(generation: nat, snapshot: set<Conn>)
    | Await(generation: nat)   // the snapshot is closed
    | Finished(clean: bool)    // Shutdown returned nil, or the context's error

  /** The slot channel, the two tables behind the lock, and the workers. */
  datatype Tables = Tables(
    slots: nat, connections: set<Conn>, bySource: map<Source, int>,
    workers: map<Conn, Worker>, sourceOf: map<Conn, Source>)

  datatype State = State(
    config: Config,
    serve: Serve, shuttingDown: bool, generation: nat, doneClosed: set<nat>,
    acceptor: Acceptor, udpRunning: bool, tables: Tables, closed: set<Conn>,
    shutdowns: map<Ref, Shutdown>)

  datatype Event =
    | StartServe
    | EndUDP
    | Accept(conn: Conn, peer: Option<Source>)
    | TakeSlot
    | Register
    | CloseRejected(stop: bool)
    | EndAccept
    | FirstResult
    | SecondResult
    | ServeSweep
    | ServeEnd
    | Return(c: Conn)
    | Release(c: Conn)
    | ReturnSlot(c: Conn)
    | WorkerDone(c: Conn)
    | CallShutdown(r: Ref)
    | Snapshot(r: Ref)
    | CloseSnapshot(r: Ref)
    | AwaitDone(r: Ref)
    | AwaitExpired(r: Ref)

  function Init(config: Config): State {
    State(config, Off, false, 0, {}, NoAcceptor, false, Tables(0, {}, map[], map[], map[]), {}, map[])
  }

  predicate Serving(s: State) { s.serve != Off }

  function Registered(t: Tables, c: Conn, source: Source): Tables {
    t.(connections := t.connections + {c},
       bySource := t.bySource[source := CountOf(t.bySource, source) + 1],
       workers := t.workers[c := Running], sourceOf := t.sourceOf[c := source])
  }

  /** The lock section of reserveTCPConnection; a rejection gives the slot back before unlocking. */
  function RegisterStep(s: State): Option<State> {
    if !s.acceptor.HasSlot? then None
    else
      var c, source := s.acceptor.conn, s.acceptor.source;
      if s.shuttingDown || CountOf(s.tables.bySource, source) >= s.config.maxPerSource then
        if s.tables.slots == 0 then None  // the receive would block
        else Some(s.(tables := s.tables.(slots := s.tables.slots - 1), acceptor := Rejecting(c)))
      else
        Some(s.(tables := Registered(s.tables, c, source), acceptor := Accepting))
  }

  function WorkerTables(t: Tables, c: Conn, e: Event): Option<Tables> {
    if c !in t.workers then None
    else
      match e
      case Return(_) =>
        if t.workers[c] != Running then None else Some(t.(workers := t.workers[c := Returned]))
      case Release(_) =>
        if t.workers[c] != Returned || c !in t.sourceOf then None
        else Some(t.(workers := t.workers[c := Unregistered], connections := t.connections - {c},
                  bySource := CountsWithout(t.bySource, t.sourceOf[c])))
      case ReturnSlot(_) =>
        if t.workers[c] != Unregistered || t.slots == 0 then None
        else Some(t.(workers := t.workers[c := SlotReturned], slots := t.slots - 1))
      case WorkerDone(_) =>
        if t.workers[c] != SlotReturned then None else Some(t.(workers := t.workers - {c}))
      case _ => None
  }

  function WorkerStep(s: State, c: Conn, e: Event): Option<State> {
    match WorkerTables(s.tables, c, e)
    case None => None
    case Some(tables) => Some(s.(tables := tables, closed := if e.Return? then s.closed + {c} else s.closed))
  }

  function ShutdownStep(s: State, r: Ref, e: Event): Option<State> {
    match e
    case CallShutdown(_) =>
      if r in s.shutdowns then None
      else if s.serve == Off then
        Some(s.(shuttingDown := true, shutdowns := s.shutdowns[r := Finished(true)]))
      else
        Some(s.(shuttingDown := true, shutdowns := s.shutdowns[r := Sweep(s.generation)]))
    case Snapshot(_) =>
      if r !in s.shutdowns || !s.shutdowns[r].Sweep? then None
      else Some(s.(shutdowns := s.shutdowns[r := Closing(s.shutdowns[r].generation, s.tables.connections)]))
    case CloseSnapshot(_) =>
      if r !in s.shutdowns || !s.shutdowns[r].Closing? then None
      else Some(s.(closed := s.closed + s.shutdowns[r].snapshot,
                shutdowns := s.shutdowns[r := Await(s.shutdowns[r].generation)]))
    case AwaitDone(_) =>
      if r !in s.shutdowns || !s.shutdowns[r].Await? || s.shutdowns[r].generation !in s.doneClosed then None
      else Some(s.(shutdowns := s.shutdowns[r := Finished(true)]))
    case AwaitExpired(_) =>
      if r !in s.shutdowns || !s.shutdowns[r].Await? then None
      else Some(s.(shutdowns := s.shutdowns[r := Finished(false)]))
    case _ => None
  }

  function ServeStep(s: State, e: Event): Option<State> {
    match e
    case StartServe =>
      if s.serve != Off || s.shuttingDown then None
      else Some(s.(serve := Started, generation := s.generation + 1, acceptor := Accepting, udpRunning := true))
    case EndUDP => if !s.udpRunning then None else Some(s.(udpRunning := false))
    case Accept(c, peer) =>
      if s.acceptor != Accepting || c in s.tables.sourceOf then None
      else Some(s.(acceptor := Offered(c, peer)))
    case TakeSlot =>
      if !s.acceptor.Offered? then None
      else if s.acceptor.peer.None? || s.tables.slots >= s.config.maxConns then
        Some(s.(acceptor := Rejecting(s.acceptor.conn)))
      else Some(s.(tables := s.tables.(slots := s.tables.slots + 1),
                  acceptor := HasSlot(s.acceptor.conn, s.acceptor.peer.value)))
    case Register => RegisterStep(s)
    case CloseRejected(stop) =>
      if !s.acceptor.Rejecting? then None
      else Some(s.(closed := s.closed + {s.acceptor.conn}, acceptor := if stop then Stopped else Accepting))
    case EndAccept => if s.acceptor != Accepting then None else Some(s.(acceptor := Stopped))
    case FirstResult =>
      if s.serve != Started || (s.acceptor != Stopped && s.udpRunning) then None
      else Some(s.(serve := Stopping))
    case SecondResult =>
      if s.serve != Stopping || s.acceptor != Stopped || s.udpRunning then None
      else Some(s.(serve := Sweeping))
    case ServeSweep =>
      if s.serve != Sweeping then None
      else Some(s.(serve := Draining, closed := s.closed + s.tables.connections))
    case ServeEnd =>
      if s.serve != Draining || s.tables.workers != map[] then None
      else Some(s.(serve := Off, acceptor := NoAcceptor, doneClosed := s.doneClosed + {s.generation}))
    case _ => None
  }

  function Next(s: State, e: Event): Option<State> {
    match e
    case Return(c) => WorkerStep(s, c, e)
    case Release(c) => WorkerStep(s, c, e)
    case ReturnSlot(c) => WorkerStep(s, c, e)
    case WorkerDone(c) => WorkerStep(s, c, e)
    case CallShutdown(r) => ShutdownStep(s, r, e)
    case Snapshot(r) => ShutdownStep(s, r, e)
    case CloseSnapshot(r) => ShutdownStep(s, r, e)
    case AwaitDone(r) => ShutdownStep(s, r, e)
    case AwaitExpired(r) => ShutdownStep(s, r, e)
    case _ => ServeStep(s, e)
  }

  // ---------- the invariant ----------

  function InStage(workers: map<Conn, Worker>, w: Worker): set<Conn> {
    set c | c in workers && workers[c] == w
  }

  function FromSource(connections: set<Conn>, sourceOf: map<Conn, Source>, source: Source): set<Conn> {
    set c | c in connections && c in sourceOf && sourceOf[c] == source
  }

  /** Every occupied slot is a registered connection, a reservation in progress, or a release in progress. */
  predicate SlotsOk(t: Tables, acceptor: Acceptor, maxConns: nat) {
    && t.slots == |t.connections| + |InStage(t.workers, Unregistered)| + (if acceptor.HasSlot? then 1 else 0)
    && t.slots <= maxConns
  }

  ghost predicate CountsOk(connections: set<Conn>, sourceOf: map<Conn, Source>, bySource: map<Source, int>, limit: nat) {
    && (forall source: Source :: source in bySource <==> FromSource(connections, sourceOf, source) != {})
    && (forall source | source in bySource ::
          bySource[source] == |FromSource(connections, sourceOf, source)| <= limit)
  }

  predicate WorkersOk(t: Tables) {
    && t.connections == InStage(t.workers, Running) + InStage(t.workers, Returned)
    && t.workers.Keys <= t.sourceOf.Keys
  }

  predicate OfferOk(t: Tables, acceptor: Acceptor) {
    acceptor.Offered? || acceptor.HasSlot? || acceptor.Rejecting? ==> acceptor.conn !in t.sourceOf
  }

  ghost predicate TablesOk(t: Tables, acceptor: Acceptor, config: Config) {
    && SlotsOk(t, acceptor, config.maxConns)
    && CountsOk(t.connections, t.sourceOf, t.bySource, config.maxPerSource)
    && WorkersOk(t)
    && OfferOk(t, acceptor)
  }

  predicate ServeOk(s: State) {
    && (s.serve == Off <==> s.acceptor == NoAcceptor)
    && (s.serve == Off ==> s.tables.workers == map[] && !s.udpRunning)
    && (s.serve == Sweeping || s.serve == Draining ==> s.acceptor == Stopped && !s.udpRunning)
    && (s.serve == Draining ==> s.tables.connections <= s.closed)
    && (forall g | g in s.doneClosed :: g <= s.generation)
    && (s.serve != Off ==> s.generation !in s.doneClosed)
  }

  ghost predicate ShutdownsOk(s: State) {
    forall r | r in s.shutdowns ::
      match s.shutdowns[r]
      case Sweep(g) => s.shuttingDown && g == s.generation
      case Closing(g, snapshot) => s.shuttingDown && g == s.generation && s.tables.connections <= snapshot
      case Await(g) => s.shuttingDown && g == s.generation && s.tables.connections <= s.closed
      case Finished(clean) => s.shuttingDown && (clean ==> s.serve == Off)
  }

  ghost predicate Inv(s: State) {
    TablesOk(s.tables, s.acceptor, s.config) && ServeOk(s) && ShutdownsOk(s)
  }

  lemma InitInv(config: Config)
    ensures Inv(Init(config))
  {
    assert forall source: Source :: FromSource({}, map[], source) == {};
  }

  lemma FromAdd(connections: set<Conn>, sourceOf: map<Conn, Source>, c: Conn, source: Source, other: Source)
    requires c !in connections
    ensures FromSource(connections + {c}, sourceOf[c := source], other)
            == FromSource(connections, sourceOf, other) + if other == source then {c} else {}
  {}

  lemma FromRemove(connections: set<Conn>, sourceOf: map<Conn, Source>, c: Conn, other: Source)
    requires c in connections && c in sourceOf
    ensures FromSource(connections - {c}, sourceOf, other)
            == FromSource(connections, sourceOf, other) - if other == sourceOf[c] then {c} else {}
  {}

  lemma CountsAdd(connections: set<Conn>, sourceOf: map<Conn, Source>, bySource: map<Source, int>, limit: nat,
                  c: Conn, source: Source)
    requires CountsOk(connections, sourceOf, bySource, limit)
    requires c !in connections && c !in sourceOf && CountOf(bySource, source) < limit
    ensures CountsOk(connections + {c}, sourceOf[c := source], bySource[source := CountOf(bySource, source) + 1], limit)
  {
    var connections', sourceOf' := connections + {c}, sourceOf[c := source];
    var bySource' := bySource[source := CountOf(bySource, source) + 1];
    assert c !in FromSource(connections, sourceOf, source);
    forall other: Source
      ensures other in bySource' <==> FromSource(connections', sourceOf', other) != {}
      ensures other in bySource' ==> bySource'[other] == |FromSource(connections', sourceOf', other)| <= limit
    {
      FromAdd(connections, sourceOf, c, source, other);
    }
  }

  lemma CountsRemove(connections: set<Conn>, sourceOf: map<Conn, Source>, bySource: map<Source, int>, limit: nat, c: Conn)
    requires CountsOk(connections, sourceOf, bySource, limit) && c in connections && c in sourceOf
    ensures CountsOk(connections - {c}, sourceOf, CountsWithout(bySource, sourceOf[c]), limit)
  {
    var source := sourceOf[c];
    var bySource' := CountsWithout(bySource, source);
    assert c in FromSource(connections, sourceOf, source);
    assert |FromSource(connections, sourceOf, source) - {c}| == |FromSource(connections, sourceOf, source)| - 1;
    forall other: Source
      ensures other in bySource' <==> FromSource(connections - {c}, sourceOf, other) != {}
      ensures other in bySource' ==> bySource'[other] == |FromSource(connections - {c}, sourceOf, other)| <= limit
    {
      FromRemove(connections, sourceOf, c, other);
    }
  }

  /** A worker moving from one stage to another leaves the first set and enters the second. */
  lemma StageMove(workers: map<Conn, Worker>, c: Conn, w: Worker)
    requires c in workers ==> workers[c] != w
    ensures forall other | other != w && (c !in workers || workers[c] != other) ::
              InStage(workers[c := w], other) == InStage(workers, other)
    ensures InStage(workers[c := w], w) == InStage(workers, w) + {c}
    ensures |InStage(workers[c := w], w)| == |InStage(workers, w)| + 1
    ensures c !in InStage(workers, w)
    ensures c in workers ==>
              && c in InStage(workers, workers[c])
              && InStage(workers[c := w], workers[c]) == InStage(workers, workers[c]) - {c}
              && |InStage(workers[c := w], workers[c])| == |InStage(workers, workers[c])| - 1
  {
    var workers' := workers[c := w];
    assert InStage(workers', w) == InStage(workers, w) + {c};
    assert c !in InStage(workers, w);
    if c in workers {
      assert InStage(workers', workers[c]) == InStage(workers, workers[c]) - {c};
      assert c in InStage(workers, workers[c]);
    }
  }

  lemma StageNew(workers: map<Conn, Worker>, c: Conn)
    requires c !in workers
    ensures InStage(workers[c := Running], Running) + InStage(workers[c := Running], Returned)
            == InStage(workers, Running) + InStage(workers, Returned) + {c}
    ensures InStage(workers[c := Running], Unregistered) == InStage(workers, Unregistered)
  {
    StageMove(workers, c, Running);
  }

  lemma FreshConn(t: Tables, c: Conn)
    requires WorkersOk(t) && c !in t.sourceOf
    ensures c !in t.workers && c !in t.connections
  {}

  lemma RegisterWorkers(t: Tables, maxConns: nat, c: Conn, source: Source)
    requires SlotsOk(t, HasSlot(c, source), maxConns) && WorkersOk(t) && c !in t.sourceOf
    ensures SlotsOk(Registered(t, c, source), Accepting, maxConns) && WorkersOk(Registered(t, c, source))
  {
    FreshConn(t, c);
    StageNew(t.workers, c);
    hide InStage;
    assert |t.connections + {c}| == |t.connections| + 1;
  }

  lemma RegisterTables(t: Tables, config: Config, c: Conn, source: Source)
    requires TablesOk(t, HasSlot(c, source), config) && CountOf(t.bySource, source) < config.maxPerSource
    ensures c !in t.connections && c !in t.sourceOf
    ensures TablesOk(Registered(t, c, source), Accepting, config)
  {
    hide CountsOk, WorkersOk, SlotsOk, InStage;
    FreshConn(t, c);
    CountsAdd(t.connections, t.sourceOf, t.bySource, config.maxPerSource, c, source);
    RegisterWorkers(t, config.maxConns, c, source);
  }

  lemma ReleaseTables(t: Tables, acceptor: Acceptor, config: Config, c: Conn)
    requires TablesOk(t, acceptor, config) && WorkerTables(t, c, Release(c)).Some?
    ensures TablesOk(WorkerTables(t, c, Release(c)).value, acceptor, config)
  {
    StageMove(t.workers, c, Unregistered);
    CountsRemove(t.connections, t.sourceOf, t.bySource, config.maxPerSource, c);
    hide CountsOk;
    assert Running != Returned && c !in InStage(t.workers, Running);
    hide InStage;
    var t' := WorkerTables(t, c, Release(c)).value;
    assert |t'.connections| == |t.connections| - 1;
    assert WorkersOk(t');
    assert SlotsOk(t', acceptor, config.maxConns);
  }

  lemma StageTables(t: Tables, acceptor: Acceptor, config: Config, c: Conn, e: Event)
    requires TablesOk(t, acceptor, config) && WorkerTables(t, c, e).Some? && (e.Return? || e.ReturnSlot?)
    ensures TablesOk(WorkerTables(t, c, e).value, acceptor, config)
  {
    hide CountsOk;
    StageMove(t.workers, c, if e.Return? then Returned else SlotReturned);
    hide InStage;
    var t' := WorkerTables(t, c, e).value;
    assert t'.workers.Keys == t.workers.Keys;
    assert WorkersOk(t');
    assert SlotsOk(t', acceptor, config.maxConns);
  }

  lemma DoneTables(t: Tables, acceptor: Acceptor, config: Config, c: Conn)
    requires TablesOk(t, acceptor, config) && WorkerTables(t, c, WorkerDone(c)).Some?
    ensures TablesOk(WorkerTables(t, c, WorkerDone(c)).value, acceptor, config)
  {
    hide CountsOk;
    assert forall w | w != SlotReturned :: InStage(t.workers - {c}, w) == InStage(t.workers, w);
  }

  lemma WorkerTablesOk(t: Tables, acceptor: Acceptor, config: Config, c: Conn, e: Event)
    requires TablesOk(t, acceptor, config) && WorkerTables(t, c, e).Some? && (e.Return? || e.Release? || e.ReturnSlot? || e.WorkerDone?) && e.c == c
    ensures var t' := WorkerTables(t, c, e).value;
            && TablesOk(t', acceptor, config) && t'.connections <= t.connections && t.workers != map[]
  {
    hide TablesOk;
    match e
    case Release(_) => ReleaseTables(t, acceptor, config, c);
    case WorkerDone(_) => DoneTables(t, acceptor, config, c);
    case _ => StageTables(t, acceptor, config, c, e);
  }

  /** What every worker step leaves alone. */
  lemma WorkerRest(s: State, c: Conn, e: Event)
    requires WorkerStep(s, c, e).Some?
    ensures var s' := WorkerStep(s, c, e).value;
            && WorkerTables(s.tables, c, e) == Some(s'.tables) && s.closed <= s'.closed
            && s' == s.(tables := s'.tables, closed := s'.closed)
  {
    hide WorkerTables;
  }

  lemma ServeStays(s: State, s': State)
    requires ServeOk(s) && s' == s.(tables := s'.tables, closed := s'.closed) && s.closed <= s'.closed
    requires s'.tables.connections <= s.tables.connections && s.tables.workers != map[]
    ensures ServeOk(s')
  {}

  lemma ShutdownsStay(s: State, s': State)
    requires ShutdownsOk(s) && s' == s.(tables := s'.tables, closed := s'.closed) && s.closed <= s'.closed
    requires s'.tables.connections <= s.tables.connections
    ensures ShutdownsOk(s')
  {}

  lemma WorkerKeeps(s: State, c: Conn, e: Event)
    requires Inv(s) && WorkerStep(s, c, e).Some? && (e.Return? || e.Release? || e.ReturnSlot? || e.WorkerDone?) && e.c == c
    ensures Inv(WorkerStep(s, c, e).value)
  {
    hide TablesOk, WorkerTables, ServeOk, ShutdownsOk, WorkerStep;
    var s' := WorkerStep(s, c, e).value;
    WorkerRest(s, c, e);
    WorkerTablesOk(s.tables, s.acceptor, s.config, c, e);
    ServeStays(s, s');
    ShutdownsStay(s, s');
  }

  lemma RejectTables(t: Tables, config: Config, c: Conn, source: Source)
    requires TablesOk(t, HasSlot(c, source), config)
    ensures t.slots > 0 && TablesOk(t.(slots := t.slots - 1), Rejecting(c), config)
  {
    hide CountsOk, InStage;
  }

  lemma RegisterRest(s: State)
    requires ServeOk(s) && ShutdownsOk(s) && RegisterStep(s).Some?
    requires s.acceptor.conn !in s.tables.connections
    ensures ServeOk(RegisterStep(s).value) && ShutdownsOk(RegisterStep(s).value)
  {
    assert s.serve == Started || s.serve == Stopping;
    assert !s.shuttingDown ==> forall r :: r !in s.shutdowns;
  }

  lemma RegisterKeeps(s: State)
    requires Inv(s) && RegisterStep(s).Some?
    ensures Inv(RegisterStep(s).value)
  {
    var c := s.acceptor.conn;
    hide CountsOk, WorkersOk, SlotsOk, ServeOk, ShutdownsOk;
    FreshConn(s.tables, c);
    RegisterRest(s);
    if RegisterStep(s).value.acceptor == Accepting {
      RegisterTables(s.tables, s.config, c, s.acceptor.source);
    } else {
      RejectTables(s.tables, s.config, c, s.acceptor.source);
    }
    hide TablesOk;
  }

  lemma ShutdownKeeps(s: State, r: Ref, e: Event)
    requires Inv(s) && ShutdownStep(s, r, e).Some?
    ensures Inv(ShutdownStep(s, r, e).value)
  {
    hide TablesOk;
  }

  lemma AcceptorMove(t: Tables, config: Config, acceptor: Acceptor, acceptor': Acceptor)
    requires TablesOk(t, acceptor, config) && !acceptor.HasSlot? && !acceptor'.HasSlot? && OfferOk(t, acceptor')
    ensures TablesOk(t, acceptor', config)
  {
    hide CountsOk;
  }

  lemma SlotTables(s: State)
    requires Inv(s) && ServeStep(s, TakeSlot).Some?
    ensures TablesOk(ServeStep(s, TakeSlot).value.tables, ServeStep(s, TakeSlot).value.acceptor, s.config)
  {
    hide CountsOk, ServeOk, ShutdownsOk;
  }

  lemma ServeTables(s: State, e: Event)
    requires Inv(s) && ServeStep(s, e).Some? && !e.Register?
    ensures var s' := ServeStep(s, e).value;
            TablesOk(s'.tables, s'.acceptor, s.config) && s'.config == s.config
  {
    hide RegisterStep;
    if e.TakeSlot? {
      SlotTables(s);
    } else {
      var s' := ServeStep(s, e).value;
      assert OfferOk(s.tables, s.acceptor);
      assert s'.tables == s.tables;
      assert s'.acceptor == s.acceptor || (!s.acceptor.HasSlot? && !s'.acceptor.HasSlot? && OfferOk(s.tables, s'.acceptor));
      hide TablesOk, ServeStep;
      if s'.acceptor != s.acceptor {
        AcceptorMove(s.tables, s.config, s.acceptor, s'.acceptor);
      }
    }
  }

  lemma ServeStage(s: State, e: Event)
    requires ServeOk(s) && ServeStep(s, e).Some? && !e.Register?
    ensures ServeOk(ServeStep(s, e).value)
  {
    hide RegisterStep;
  }

  lemma ServeShutdowns(s: State, e: Event)
    requires ServeOk(s) && ShutdownsOk(s) && ServeStep(s, e).Some? && !e.Register?
    ensures ShutdownsOk(ServeStep(s, e).value)
  {
    hide RegisterStep;
    var s' := ServeStep(s, e).value;
    assert s'.shutdowns == s.shutdowns && s'.tables.connections == s.tables.connections && s.closed <= s'.closed;
    assert s'.shuttingDown == s.shuttingDown;
    assert s.shuttingDown ==> s'.generation == s.generation && (s.serve == Off ==> s'.serve == Off);
    hide ServeStep, ServeOk;
  }

  lemma ServeKeeps(s: State, e: Event)
    requires Inv(s) && ServeStep(s, e).Some? && !e.Register?
    ensures Inv(ServeStep(s, e).value)
  {
    ServeTables(s, e);
    ServeStage(s, e);
    ServeShutdowns(s, e);
    hide TablesOk, ServeOk, ShutdownsOk, ServeStep;
  }

  lemma StepKeeps(s: State, e: Event)
    requires Inv(s) && Next(s, e).Some?
    ensures Inv(Next(s, e).value)
  {
    hide Inv;
    match e
    case Return(c) => WorkerKeeps(s, c, e);
    case Release(c) => WorkerKeeps(s, c, e);
    case ReturnSlot(c) => WorkerKeeps(s, c, e);
    case WorkerDone(c) => WorkerKeeps(s, c, e);
    case CallShutdown(r) => ShutdownKeeps(s, r, e);
    case Snapshot(r) => ShutdownKeeps(s, r, e);
    case CloseSnapshot(r) => ShutdownKeeps(s, r, e);
    case AwaitDone(r) => ShutdownKeeps(s, r, e);
    case AwaitExpired(r) => ShutdownKeeps(s, r, e);
    case Register => RegisterKeeps(s);
    case _ => ServeKeeps(s, e);
  }

  // ---------- whole runs ----------

  ghost predicate IsRun(config: Config, states: seq<State>, events: seq<Event>) {
    && |states| == |events| + 1
    && states[0] == Init(config)
    && forall i | 0 <= i < |events| :: Next(states[i], events[i]) == Some(states[i + 1])
  }

  lemma RunStep(config: Config, states: seq<State>, events: seq<Event>, i: nat)
    requires IsRun(config, states, events) && i + 1 < |states|
    ensures i < |events| && Next(states[i], events[i]) == Some(states[i + 1])
  {
    hide Next;
  }

  lemma {:induction false} ReachableInv(config: Config, states: seq<State>, events: seq<Event>, i: nat)
    requires IsRun(config, states, events) && i < |states|
    ensures Inv(states[i]) && states[i].config == config
  {
    hide Inv, Next;
    if i == 0 {
      InitInv(config);
    } else {
      ReachableInv(config, states, events, i - 1);
      RunStep(config, states, events, i - 1);
      hide IsRun;
      StepConfig(states[i - 1], events[i - 1]);
      StepKeeps(states[i - 1], events[i - 1]);
    }
  }

  lemma StepConfig(s: State, e: Event)
    requires Next(s, e).Some?
    ensures Next(s, e).value.config == s.config
    ensures s.shuttingDown ==> Next(s, e).value.shuttingDown && Next(s, e).value.tables.connections <= s.tables.connections
    ensures s.shuttingDown && s.serve == Off ==> Next(s, e).value.serve == Off
  {}

  /**
    Slots are conserved under every interleaving, the counts per source are exact, both limits hold,
    and neither receive from connectionSlots can find it empty.
   */
  lemma SlotConservation(config: Config, states: seq<State>, events: seq<Event>, i: nat)
    requires IsRun(config, states, events) && i < |states|
    ensures var s := states[i];
            && s.tables.slots == |s.tables.connections| + |InStage(s.tables.workers, Unregistered)| + (if s.acceptor.HasSlot? then 1 else 0)
            && s.tables.slots <= config.maxConns
            && (forall source: Source :: CountOf(s.tables.bySource, source) == |FromSource(s.tables.connections, s.tables.sourceOf, source)|)
            && (forall source: Source :: source in s.tables.bySource ==> 1 <= s.tables.bySource[source] <= config.maxPerSource)
            && (s.acceptor.HasSlot? ==> s.tables.slots > 0)
            && (forall c | c in s.tables.workers && s.tables.workers[c] == Unregistered :: s.tables.slots > 0)
  {
    hide IsRun, Next;
    ReachableInv(config, states, events, i);
    var s := states[i];
    forall c | c in s.tables.workers && s.tables.workers[c] == Unregistered ensures s.tables.slots > 0 {
      assert c in InStage(s.tables.workers, Unregistered);
    }
  }

  /** When no Serve call is in progress there are no workers, connections, counts or occupied slots. */
  lemma IdleIsEmpty(config: Config, states: seq<State>, events: seq<Event>, i: nat)
    requires IsRun(config, states, events) && i < |states| && !Serving(states[i])
    ensures var s := states[i];
            s.tables.workers == map[] && s.tables.connections == {} && s.tables.bySource == map[] && s.tables.slots == 0 && s.acceptor == NoAcceptor
  {
    hide IsRun, Next;
    ReachableInv(config, states, events, i);
    var s := states[i];
    assert s.tables.connections == {} && InStage(s.tables.workers, Unregistered) == {};
    assert forall source: Source :: FromSource(s.tables.connections, s.tables.sourceOf, source) == {};
    assert s.tables.bySource.Keys == {};
  }

  /** Once shutdown is requested nothing is registered any more and no new Serve call starts. */
  lemma {:induction false} ShutdownOnlyShrinks(config: Config, states: seq<State>, events: seq<Event>, i: nat, j: nat)
    requires IsRun(config, states, events) && i <= j < |states| && states[i].shuttingDown
    ensures states[j].shuttingDown && states[j].tables.connections <= states[i].tables.connections
    ensures states[i].serve == Off ==> states[j].serve == Off
    decreases j
  {
    if i < j {
      hide IsRun, Next;
      ShutdownOnlyShrinks(config, states, events, i, j - 1);
      RunStep(config, states, events, j - 1);
      StepConfig(states[j - 1], events[j - 1]);
    }
  }

  /** The snapshot a Shutdown call closes covers every connection registered from then on. */
  lemma SnapshotCoversAll(config: Config, states: seq<State>, events: seq<Event>, i: nat, j: nat, r: Ref)
    requires IsRun(config, states, events) && i <= j < |states|
    requires r in states[i].shutdowns && states[i].shutdowns[r].Closing?
    ensures states[j].tables.connections <= states[i].shutdowns[r].snapshot
  {
    hide IsRun, Next;
    ReachableInv(config, states, events, i);
    ShutdownOnlyShrinks(config, states, events, i, j);
  }

  /** After a Shutdown call has closed its snapshot every connection still registered has been closed. */
  lemma AwaitMeansClosed(config: Config, states: seq<State>, events: seq<Event>, i: nat, r: Ref)
    requires IsRun(config, states, events) && i < |states|
    requires r in states[i].shutdowns && states[i].shutdowns[r].Await?
    ensures states[i].tables.connections <= states[i].closed
  {
    hide IsRun, Next;
    ReachableInv(config, states, events, i);
  }

  /** Shutdown returning nil means no worker runs, then or ever after. */
  lemma CleanShutdownIsQuiet(config: Config, states: seq<State>, events: seq<Event>, i: nat, j: nat, r: Ref)
    requires IsRun(config, states, events) && i <= j < |states|
    requires r in states[i].shutdowns && states[i].shutdowns[r] == Finished(true)
    ensures !Serving(states[j]) && states[j].tables.workers == map[] && states[j].tables.connections == {} && states[j].tables.slots == 0
  {
    hide IsRun, Next;
    ReachableInv(config, states, events, i);
    ShutdownOnlyShrinks(config, states, events, i, j);
    IdleIsEmpty(config, states, events, j);
  }
}
