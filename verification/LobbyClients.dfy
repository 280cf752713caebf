/**
  The registry of active clients (internal/online/lobby/client.go), as a map of client objects. Its
  methods change it as the steps of module Lobby change the registry of connection names.
 */
module LobbyClients {
  import opened Bytes
  import Lobby

  class LobbyClient {
    ghost const name: Lobby.Ref
    const accountHash: u64
    var nextServerSeed: u32
    var closed: bool

    constructor (ghost name: Lobby.Ref, accountHash: u64)
      ensures this.name == name && this.accountHash == accountHash && nextServerSeed == 0 && !closed
    {
      this.name, this.accountHash := name, accountHash;
      nextServerSeed, closed := 0, false;
    }

    /** Hands out 0, 1, 2, ... modulo 2^32. */
    method ServerSeed() returns (seed: u32)
      modifies this`nextServerSeed
      ensures seed == old(nextServerSeed) && nextServerSeed == (old(nextServerSeed) + 1) % U32_LIMIT
    {
      seed := nextServerSeed;
      nextServerSeed := (nextServerSeed + 1) % U32_LIMIT;
    }

    method Close()
      modifies this`closed
      ensures closed
    {
      closed := true;
    }
  }

  class ActiveLobbyClients {
    var byAccount: map<u64, LobbyClient>

    /** Clients are filed under their own account hash. */
    ghost predicate Valid()
      reads this
    {
      forall h | h in byAccount :: byAccount[h].accountHash == h
    }

    /** The registry by the names of the clients. */
    ghost function Registry(): map<u64, Lobby.Ref>
      reads this
    {
      map h | h in byAccount :: byAccount[h].name
    }

    constructor ()
      ensures Valid() && Registry() == map[]
    {
      byAccount := map[];
    }

    /** The newcomer replaces whoever was active on its account; the one replaced is closed, nobody else. */
    method Activate(client: LobbyClient)
      requires Valid()
      modifies this, byAccount.Values`closed
      ensures Valid() && byAccount == old(byAccount)[client.accountHash := client]
      ensures Registry() == old(Registry())[client.accountHash := client.name]
      ensures forall h | h in old(byAccount) ::
                old(byAccount)[h].closed == (old(byAccount[h].closed) || (h == client.accountHash && old(byAccount)[h] != client))
    {
      var previous := if client.accountHash in byAccount then Some(byAccount[client.accountHash]) else None;
      byAccount := byAccount[client.accountHash := client];
      if previous.Some? && previous.value != client {
        previous.value.Close();
      }
    }

    /** Removes exactly this client: a replacement on the same account stays. */
    method Deactivate(client: LobbyClient)
      requires Valid()
      modifies this
      ensures Valid()
      ensures client.accountHash in old(byAccount) && old(byAccount)[client.accountHash] == client
              ==> byAccount == old(byAccount) - {client.accountHash} && Registry() == old(Registry()) - {client.accountHash}
      ensures client.accountHash !in old(byAccount) || old(byAccount)[client.accountHash] != client
              ==> byAccount == old(byAccount) && Registry() == old(Registry())
      ensures client !in byAccount.Values
    {
      if client.accountHash in byAccount && byAccount[client.accountHash] == client {
        byAccount := byAccount - {client.accountHash};
      }
    }

    method Lookup(accountHash: u64) returns (client: Option<LobbyClient>)
      requires Valid()
      ensures client.Some? <==> accountHash in byAccount
      ensures client.Some? ==> client.value == byAccount[accountHash] && client.value.accountHash == accountHash
    {
      client := if accountHash in byAccount then Some(byAccount[accountHash]) else None;
    }
  }
}
