/**
  The connection tables of the server as the code keeps them (internal/online/server/server.go): the
  slot channel, the connection set and the counts, changed by the lock sections of a reservation and
  a release. Each method makes the step that the transition system of module Server takes.
 */
module ServerTables {
  import opened Bytes
  import opened Counts
  import opened Server

  class TCPConnections {
    const config: Config
    var shuttingDown: bool
    var connectionSlots: nat
    var connections: set<Conn>
    var connectionsBySource: map<Source, int>
    ghost var workers: map<Conn, Worker>
    ghost var sourceOf: map<Conn, Source>

    ghost function View(): Tables
      reads this
    {
      Tables(connectionSlots, connections, connectionsBySource, workers, sourceOf)
    }

    /** The tables are in order while the accept loop is at this point. */
    ghost predicate Valid(acceptor: Acceptor)
      reads this
    {
      TablesOk(View(), acceptor, config)
    }

    constructor (config: Config)
      ensures Valid(NoAcceptor) && this.config == config && View() == Tables(0, {}, map[], map[], map[])
      ensures !shuttingDown
    {
      this.config := config;
      shuttingDown, connectionSlots, connections, connectionsBySource := false, 0, {}, map[];
      workers, sourceOf := map[], map[];
      new;
      InitInv(config);
    }

    /** The send that takes a slot if one is free. */
    method TakeSlot(connection: Conn, source: Source) returns (taken: bool)
      requires Valid(Offered(connection, Some(source)))
      modifies this
      ensures taken <==> old(connectionSlots) < config.maxConns
      ensures View() == old(View()).(slots := old(connectionSlots) + if taken then 1 else 0)
      ensures shuttingDown == old(shuttingDown)
      ensures Valid(if taken then HasSlot(connection, source) else Rejecting(connection))
    {
      hide CountsOk;
      if connectionSlots >= config.maxConns {
        return false;
      }
      connectionSlots := connectionSlots + 1;
      taken := true;
    }

    /** The lock section of a reservation. */
    method Admit(connection: Conn, source: Source) returns (accepted: bool)
      requires Valid(HasSlot(connection, source))
      modifies this
      ensures accepted <==> !shuttingDown && CountOf(old(connectionsBySource), source) < config.maxPerSource
      ensures View() == if accepted then Registered(old(View()), connection, source)
                        else old(View()).(slots := old(connectionSlots) - 1)
      ensures shuttingDown == old(shuttingDown)
      ensures Valid(if accepted then Accepting else Rejecting(connection))
    {
      hide CountsOk, WorkersOk, SlotsOk, InStage;
      if shuttingDown || CountOf(connectionsBySource, source) >= config.maxPerSource {
        RejectTables(View(), config, connection, source);
        connectionSlots := connectionSlots - 1;
        return false;
      }
      RegisterTables(View(), config, connection, source);
      connections := connections + {connection};
      connectionsBySource := connectionsBySource[source := CountOf(connectionsBySource, source) + 1];
      workers, sourceOf := workers[connection := Running], sourceOf[connection := source];
      accepted := true;
    }

    /** A whole reservation. A connection that is not accepted leaves every table as it was. */
    method ReserveTCPConnection(connection: Conn, peer: Option<Source>) returns (accepted: bool)
      requires Valid(Offered(connection, peer))
      modifies this
      ensures accepted <==> peer.Some? && old(connectionSlots) < config.maxConns && !shuttingDown
                            && CountOf(old(connectionsBySource), peer.value) < config.maxPerSource
      ensures View() == if accepted
                        then Registered(old(View()).(slots := old(connectionSlots) + 1), connection, peer.value)
                        else old(View())
      ensures shuttingDown == old(shuttingDown)
      ensures Valid(if accepted then Accepting else Rejecting(connection))
    {
      hide CountsOk, InStage;
      if peer.None? {
        return false;
      }
      accepted := TakeSlot(connection, peer.value);
      if accepted {
        accepted := Admit(connection, peer.value);
      }
    }

    /** The lock section of a release. */
    method Remove(connection: Conn, source: Source, ghost acceptor: Acceptor)
      requires Valid(acceptor) && connection in workers && workers[connection] == Returned
      requires connection in sourceOf && sourceOf[connection] == source
      modifies this
      ensures WorkerTables(old(View()), connection, Release(connection)) == Some(View())
      ensures Valid(acceptor) && shuttingDown == old(shuttingDown)
    {
      hide TablesOk;
      ReleaseTables(View(), acceptor, config, connection);
      connections := connections - {connection};
      var remaining := CountOf(connectionsBySource, source) - 1;
      if remaining <= 0 {
        connectionsBySource := connectionsBySource - {source};
      } else {
        connectionsBySource := connectionsBySource[source := remaining];
      }
      workers := workers[connection := Unregistered];
    }

    /** The receive that returns the slot; it never finds the channel empty. */
    method ReturnOneSlot(connection: Conn, ghost acceptor: Acceptor)
      requires Valid(acceptor) && connection in workers && workers[connection] == Unregistered
      modifies this
      ensures WorkerTables(old(View()), connection, ReturnSlot(connection)) == Some(View())
      ensures Valid(acceptor) && shuttingDown == old(shuttingDown)
    {
      hide TablesOk;
      SlotHeld(View(), acceptor, config, connection);
      StageTables(View(), acceptor, config, connection, ReturnSlot(connection));
      connectionSlots := connectionSlots - 1;
      workers := workers[connection := SlotReturned];
    }

    /** A whole release. */
    method ReleaseTCPConnection(connection: Conn, source: Source, ghost acceptor: Acceptor)
      requires Valid(acceptor) && connection in workers && workers[connection] == Returned
      requires connection in sourceOf && sourceOf[connection] == source
      modifies this
      ensures var removed := WorkerTables(old(View()), connection, Release(connection));
              removed.Some? && WorkerTables(removed.value, connection, ReturnSlot(connection)) == Some(View())
      ensures Valid(acceptor) && shuttingDown == old(shuttingDown)
    {
      hide TablesOk;
      Remove(connection, source, acceptor);
      ReturnOneSlot(connection, acceptor);
    }
  }

  /** A connection that is out of the tables but has not returned its slot still holds one. */
  lemma SlotHeld(t: Tables, acceptor: Acceptor, config: Config, c: Conn)
    requires TablesOk(t, acceptor, config) && c in t.workers && t.workers[c] == Unregistered
    ensures t.slots > 0
  {
    assert c in InStage(t.workers, Unregistered);
  }
}
