# Verification of the game-lobby server

The server creates accounts, issues short-lived tickets, and runs a lobby in which clients log in with a
ticket, announce and search matches and send each other messages. This project models its hand-written
core in Dafny 4.11 and proves the properties it depends on. Verify it with `dafny verify dfyconfig.toml`.

- **Lobby protocol** (`Lobby`, `LobbyInvariants`, `LobbySafety`, `LobbySeeds`, `LobbyPushes`, `LobbyHangups`,
  `LobbySuccess`, `LobbyReplies`, `LobbyClients`). Any number of connections and ticket requests interleave at
  every lock section, atomic counter and network write. A state holds the pending tickets, the registry of
  clients, the match table, the counters and one thread of `HandleTCP` per connection; the results are about all
  states of all runs.
- **Tickets and matches** (`LobbySessions`, `MatchStore`, `MatchOrder`, `MatchLaws`). The stores are classes with their
  maps and counts, proved against a plain table and a creation-ordered list.
- **Connection accounting** (`Server`, `ServerTables`, `ServerLaws`). Slots, the two tables, the workers and the Serve and
  Shutdown calls as a transition system, and the tables as a class.
- **Codecs** (`Bits`, `BitBuffer`, `ByteBuffer`, `Frame`, `Router`, `Crypto`, `Envelope`, `PaddedFields`,
  `AuthMessages`, `AuthReplies`, `LsgLogin`, `Matchmaking`, `EventLog`, `Messaging`, `Outbox`). Readers and
  writers are classes. Each format has one encoding function; what a reader accepts is exactly its range. Where
  the bytes of each message are is said in `BitLaws`, `AuthWire` and `LobbyWire`.
- **Accounts** (`Accounts`, `AccountStore`, `AccountLaws`, `AccountHash`, `AuthHandler`). The store with its three maps and
  its file, whose writes can fail before or after the rename, over runs with restarts; and the two requests
  of the authentication service.
- **Tiger** (`Words64`, `Tiger`, `TigerLaws`). The hash for any S-boxes, and its published description.

`Bytes`, `Seqs`, `Counts`, `MatchmakingTypes` and `Outputs` hold shared definitions and lemmas.

Go strings are sequences of bytes, and integers of the source keep their widths. Times are integers: Unix
nanoseconds where a ticket's times are encoded, and any unit elsewhere. The block cipher and its inverse, the
authentication code and the vector derived from a seed are functions given as parameters, of which only
invertibility and result sizes are assumed (`Crypto.Sound`); the vectors of `Tiger` meet this
(`Tiger.DerivedIVIsSound`). Random numbers are given as the stream of values that is drawn. A peer or source
address is an opaque key, absent where the source cannot normalise it.

Facts about the code that one might not expect, with the lemmas that prove them:

- An account whose registration failed after the rename is in the file. A restart finds it registered
  (`Accounts.UnacknowledgedAppears`); the next registration of another name that reaches the file removes it
  (`Accounts.UnacknowledgedVanishes`).
- `Register` itself does not check names, and the account file loads again exactly when every name is valid for
  the create-account message (`Accounts.InvalidNameBreaksReload`, and `Accounts.InvalidNameExample` at a name).
- The UTF-8 test in `parsePaddedUsername` never decides anything: what it refuses is refused by the loop after
  it, with the same error (`AuthMessages.PrintableIsUTF8`).
- A matchmaking or event-log payload longer than any frame could be accepted with a tail that is not valid
  padding, because its length is cut to 32 bits (`Matchmaking.LongPayloadAccepted`; exactly when, says
  `Matchmaking.CanonicalExactly`).
- An update or delete of a match that no longer exists is acknowledged like a successful one
  (`LobbyReplies.ServedMeans`).

The main results come first in the table; the members they rest on follow, module by module.

## Model

| member | source | states |
|---|---|---|
| LobbySafety.TicketConfirmsOnce | internal/online/lobby/lsg.go:219-233 | two connections confirmed under the same reservation at any two moments of a run are the same connection |
| LobbySafety.TicketFixed | internal/online/lobby/lsg.go:283-311 | from lookup on, a connection keeps the session issued under its token for its peer, and its account is that session's; once it is confirmed the ticket is gone from the table |
| LobbySuccess.HolderGetsIn | internal/online/lobby/lsg.go:209-312 | in every reachable state the holder of a pending ticket gets in: login, number and first request are possible, and the connection is then confirmed, numbered, told its number and registered, with nothing else changed but the spent ticket |
| LobbySafety.MatchOwnerIsLive | internal/online/lobby/lsg.go:346-403 | every stored match is owned by a confirmed connection that has not finished its cleanup and carries that connection's username |
| LobbySafety.DoneOwnsNothing | internal/online/lobby/lsg.go:164-171 | once a connection's cleanup has run no match of its number exists then or later |
| LobbySafety.ReplacedNeverReturns | internal/online/lobby/client.go:44-60 | a client that was replaced or dropped is not in the registry at any later moment of the run |
| LobbyHangups.FailedPushHangsUp | internal/online/lobby/lsg.go:338-341 | in every run a client to which a push failed is out of the registry and closed, for good, before its sender answers the request or leaves |
| LobbyHangups.NewerLoginCloses | internal/online/lobby/client.go:44-52 | in every run a client that a newer login replaced is out of the registry and closed, for good, before the newer one takes any other step |
| LobbySeeds.SeedsNeverRepeat | internal/online/lobby/client.go:31-33 | while at most 2^32 seeds have been taken from a connection no two of them are equal, whoever took them and whether or not the pushes were written |
| LobbyPushes.PushIsAuthentic | internal/online/lobby/lsg.go:319-344 | in every run each push on a connection was delivered by a confirmed connection that asked for this very message to be sent to the account of the connection it is on; it names the account that the ticket of its sender was issued for |
| LobbySuccess.MessageArrives | internal/online/lobby/lsg.go:265-344 | a message to an account whose client is open arrives as one push with that client's next seed, the sender's hash and name cut to 63 bytes, and the message; then the sender is answered |
| LobbyReplies.ConnectionOutputParses | internal/online/lobby/client.go:22-29 | in every run, while no write on a connection has failed, the bytes it has sent parse to whole records, one per item, and the replies among them are numbered 0, 1, 2, ... despite interleaved pushes |
| Server.SlotConservation | internal/online/server/server.go:132-173 | in every interleaving the occupied slots are the registered connections, the reservations between slot and lock and the releases between unlock and receive; both limits hold, the counts per source are exact and neither receive can block |
| Server.CleanShutdownIsQuiet | internal/online/server/server.go:223-248 | once Shutdown has returned nil no worker, connection or slot is in use, then or ever after |
| MatchOrder.SurvivorsKeepOrder | internal/online/lobby/matchmaking_store.go:66-190 | over any sequence of creations, updates and deletions two sessions that are never deleted keep their relative order |
| MatchLaws.WildcardFindsAll | internal/online/lobby/matchmaking_store.go:135-170 | a search for key 5381 with a page that covers the total answers exactly the stored matches of that value, in creation order |
| MatchLaws.KeyNarrows | internal/online/lobby/matchmaking_store.go:160-170 | a search for another key finds exactly those of them that carry the key in both attributes |
| BitBuffer.DecodeAllExact | internal/online/bitdemon/bitbuffer.go:99-175 | at every alignment and through every change of type checking, bits read back as given items and a rest exactly when they are the items' encoding followed by the rest |
| ByteBuffer.DecodeAllExact | internal/online/bitdemon/bytebuffer.go:134-256 | a byte string splits into fields of given kinds and a rest exactly when it is their encoding followed by the rest, so in at most one way |
| Frame.WriteRecords | internal/online/bitdemon/frame.go:37-130 | over any writer that makes progress, however short its writes, a list of records is written as a stream that reads back as that list with nothing left over; on an error a prefix of it has been written |
| Router.RoutedExactly | internal/online/backend/router.go:51-100 | a stream goes to a service exactly when it starts with at most 32 control records and then an unencrypted frame of 2 to 256 bytes whose second byte is 0 or 10, or 7 |
| AuthMessages.ParseCreateAccountBody | internal/online/auth/create_account.go:61-131 | a body that encodes a request over the block cipher is accepted, or refused for its title or license only; every other body is refused |
| Matchmaking.ParseMatchmakingRequest | internal/online/lobby/matchmaking.go:81-137 | succeeds with q exactly when the payload is the typed encoding of the in-bounds request q followed by something accepted as padding; unsupported tasks and searches are told apart exactly |
| Messaging.Relay | internal/online/lobby/lsg.go:319-344 | a message sealed and accepted from one client reaches another with the same bytes behind the sender's hash and name |
| LobbyWire.ClientReads | internal/online/lobby/lsg.go:386-403 | a client that takes transaction number, number of results and total from their places in the reply, and then reads as many matches as it says, finds what the search answered |
| Crypto.ChainedExactly | internal/online/bitdemon/crypto.go:42-60 | encryption and decryption are exactly cipher block chaining: every ciphertext block is the encrypted mix of its plaintext block with the ciphertext block before it, the first with the vector |
| AuthHandler.HandleAccountForMMP | internal/online/auth/handler.go:158-213 | on an error no ticket of the request is stored; for an unknown account the tickets are untouched and the refusal is written; on success exactly one new ticket is stored, for the session whose key the written reply gives to the holder of the account's password; each error has its reason |
| AuthHandler.HandleCreateAccount | internal/online/auth/handler.go:141-156 | the seven bytes written tell status 707 if the name was taken before, 700 if it is registered now with this password, and 710 if a limit kept it out; without a reply, over a working connection, nothing is registered and the save failed or the hash was taken |
| Accounts.AlwaysDurable | internal/online/auth/store.go:110-150 | in every run with failing writes and restarts the file holds the accounts in memory or those and one unacknowledged account, it loads, and the accounts are one set with IDs below the next |
| Accounts.AcknowledgedSurvives | internal/online/auth/store.go:132-149 | an acknowledged registration survives all later failures and restarts with its ID, hash and password, and stays in the file |
| Accounts.UnacknowledgedVanishes | internal/online/auth/store.go:132-141 | with the next registration of another name that reaches the file such an account is in no later memory or file until its name is registered again |
| Tiger.PassesInverse | internal/online/bitdemon/tiger.go:48-55 | for every block the three passes before feed-forward are a permutation of the registers, in both directions |
| Tiger.ScheduleInverse | internal/online/bitdemon/tiger.go:87-104 | the key schedule, and every prefix of its steps, is a permutation of the eight words with an explicit inverse |
| Tiger.PadInjective | internal/online/bitdemon/tiger.go:38-46 | messages of any length with the same padding are the same |
| TigerLaws.DigestExact | internal/online/bitdemon/tiger.go:16-104 | for any S-boxes the digest is the one byte string that satisfies the published description of the hash: padding, blocks, rounds, schedule and feed-forward as equations modulo 2^64 over digits to base 256 |
| LobbyInvariants.StepKeeps | internal/online/lobby/lsg.go:154-317 | every step of any connection or ticket request keeps the whole invariant of the protocol: local variables, tickets, numbers, registry, push targets and matches |
| LobbyInvariants.ConsumeReturnsLookedUp | internal/online/auth/lobby_session.go:125-145 | in a reachable table Consume returns exactly the session that Lookup gave this connection, unexpired, and spends it |
| LobbySafety.ReservationIsNew | internal/online/auth/lobby_session.go:94-101 | a reservation stores its ticket under a token that no reservation had before |
| LobbySafety.WithdrawnStaysOut | internal/online/auth/handler.go:203-211 | a ticket revoked because its reply could not be written is never in the table again |
| LobbySafety.StaleRevokeIsHarmless | internal/online/auth/lobby_session.go:147-153 | in every reachable state revoking a reservation removes exactly its own ticket; when that ticket is gone already, whatever holds its seed by now, the table is unchanged |
| LobbySafety.OthersMatchesUntouched | internal/online/lobby/matchmaking_store.go:100-133 | a step of one connection neither adds, changes nor removes a match of another owner |
| LobbySafety.LookupFindsLiveClient | internal/online/lobby/client.go:62-67 | the registry maps a hash only to a confirmed connection with that account hash that has not started its cleanup |
| LobbySafety.RegistrationEndsProperly | internal/online/lobby/client.go:54-60 | a registration ends only by a newer login on the account, a failed push to it or its own cleanup; a stale deactivate never removes the replacement |
| LobbyHangups.ActivatedIsFound | internal/online/lobby/client.go:44-67 | an activated client is found under its hash until its own return, a failed push to it or a newer login on the account |
| LobbySuccess.ControlsLimited | internal/online/lobby/lsg.go:199-215 | before its ticket is proved a connection may send as many control records as configured, whose keepalives are answered; the next one ends it |
| LobbySafety.RepliesInOrder | internal/online/lobby/lsg.go:234-278 | the task replies a connection has written are numbered 0, 1, 2, ... in request order, and everything written is within its size bounds |
| LobbySeeds.PushSeedsDiffer | internal/online/lobby/lsg.go:319-344 | so no two pushes sent to one connection are encrypted under the same seed |
| LobbyPushes.OnePushPerRequest | internal/online/lobby/lsg.go:265-276 | two different pushes, on one connection or on two, answer two different requests |
| LobbyPushes.PushesInOrder | internal/online/lobby/lsg.go:265-276 | the pushes of one sender on a connection arrive in the order of its requests |
| LobbyReplies.StepServes | internal/online/lobby/lsg.go:247-264 | the protocol's matchmaking step changes the table and answers as serving the identity-bound request does |
| LobbyReplies.HandleMatchmaking | internal/online/lobby/lsg.go:346-403 | the match table changes as specified for the task, and the reply is the encoding of the outcome: the new ID, an acknowledgement also of a stale update or delete, or the requested page and the total |
| LobbyReplies.ServedMeans | internal/online/lobby/lsg.go:346-403 | a creation is answered exactly when a match was added, with its ID; an update or removal exactly unless it is malformed or the match is of another owner; a search with the page and the total |
| LobbyReplies.MarshalConnectionID | internal/online/lobby/lsg.go:411-418 | the eleven-byte body of the connection number |
| LobbyWire.BodiesOnWire | internal/online/lobby/lsg.go:411-418 | a connection number, an echo and a reply byte by byte |
| LobbyClients.ActiveLobbyClients.Activate | internal/online/lobby/client.go:44-52 | registers the client under its hash and closes exactly the client it replaces |
| LobbyClients.ActiveLobbyClients.Deactivate | internal/online/lobby/client.go:54-60 | removes exactly this client; a replacement stays registered |
| LobbyClients.ActiveLobbyClients.Lookup | internal/online/lobby/client.go:62-67 | finds the client registered for the hash |
| LobbyClients.LobbyClient.ServerSeed | internal/online/lobby/client.go:31-33 | hands out consecutive seeds modulo 2^32 |
| LobbySessions.MemoryLobbySessionStore.Reserve | internal/online/auth/lobby_session.go:77-102 | drops expired tickets and then refuses for the first failing limit or stores the ticket under the next token, as in a plain table; counts per account stay exact and both quotas hold |
| LobbySessions.MemoryLobbySessionStore.Lookup | internal/online/auth/lobby_session.go:104-123 | finds a live ticket of this peer and removes an expired one, as in a plain table |
| LobbySessions.MemoryLobbySessionStore.Consume | internal/online/auth/lobby_session.go:125-145 | removes and returns a live ticket of this token and peer, as in a plain table |
| LobbySessions.MemoryLobbySessionStore.Revoke | internal/online/auth/lobby_session.go:147-153 | removes the ticket only if it is still the same generation |
| LobbySuccess.ReservedExactly | internal/online/auth/lobby_session.go:77-102 | a ticket is reserved exactly for a session and peer in order, a seed no live ticket has, and room for the account and in all |
| LobbySuccess.ReservedIsUsable | internal/online/auth/lobby_session.go:104-145 | a reserved ticket can be looked up and consumed, once, by its own peer exactly until it expires, and never under another token |
| AuthHandler.ReserveTicket | internal/online/auth/handler.go:180-209 | takes the first of at most sixteen drawn seeds that no live ticket has; on failure at most expired tickets are gone and the counter is unchanged, a collision error means all sixteen were taken, and any other refusal has its reason in the request or in the live tickets |
| AuthHandler.ToldOnce | internal/online/auth/handler.go:147-155 | the bytes written tell one status only |
| MatchStore.MemoryMatchmakingStore.Create | internal/online/lobby/matchmaking_store.go:66-98 | appends the new match to the creation-ordered list, or refuses for the first failing condition and changes nothing |
| MatchStore.MemoryMatchmakingStore.Update | internal/online/lobby/matchmaking_store.go:100-119 | replaces the owner's own match in place, keeping its ID, player count and position |
| MatchStore.MemoryMatchmakingStore.Delete | internal/online/lobby/matchmaking_store.go:121-133 | removes exactly the owner's own match of that ID |
| MatchStore.MemoryMatchmakingStore.DeleteOwner | internal/online/lobby/matchmaking_store.go:172-180 | removes exactly the matches of the owner and keeps the order of the rest |
| MatchStore.MemoryMatchmakingStore.Find | internal/online/lobby/matchmaking_store.go:135-158 | returns the part [offset, offset + maximum) of the matching sublist in creation order, and the length of the whole sublist |
| MatchStore.PickIdMeans | internal/online/lobby/matchmaking_store.go:78-98 | the new ID is the first nonzero unused one of at most sixteen draws, and each failure says why there is none |
| MatchStore.PagesCoverAll | internal/online/lobby/matchmaking_store.go:146-157 | pages that cover the total concatenate to the whole sublist |
| MatchLaws.KeysExclude | internal/online/lobby/matchmaking_store.go:160-170 | searches for two keys other than 5381 have no match in common |
| MatchLaws.AnnouncedExactly | internal/online/lobby/matchmaking_store.go:66-98 | a match is stored exactly when owner, random source and details are in order, there is room in all and for the owner, and one of sixteen draws is free |
| MatchLaws.AnnouncedIsFound | internal/online/lobby/matchmaking_store.go:84-98 | it stands last, with the details asked for, a free ID and one player, and is found |
| MatchLaws.UpdatedExactly | internal/online/lobby/matchmaking_store.go:100-119 | an update succeeds exactly for the owner and in-order details, and changes exactly those of this match |
| MatchLaws.DeletedExactly | internal/online/lobby/matchmaking_store.go:121-133 | a removal succeeds exactly for the owner and takes out exactly this match |
| Server.IdleIsEmpty | internal/online/server/server.go:91-98 | whenever serving is false there are no workers, connections, counts or occupied slots |
| Server.ShutdownOnlyShrinks | internal/online/server/server.go:145-148 | after a shutdown request nothing is registered any more and no Serve call starts |
| Server.SnapshotCoversAll | internal/online/server/server.go:250-260 | every connection registered after closeConnections took its snapshot during shutdown is in the snapshot |
| Server.AwaitMeansClosed | internal/online/server/server.go:223-260 | when a Shutdown call starts to wait every connection that is still registered has been closed |
| Server.StepKeeps | internal/online/server/server.go:56-173 | every step of accept loop, workers, Serve and Shutdown keeps the accounting and lifecycle invariant |
| ServerLaws.AdmittedExactly | internal/online/server/server.go:132-153 | with a source and a free slot a connection is registered exactly when no shutdown was requested and its source has room; otherwise it is closed and the tables are as they were |
| ServerLaws.TurnedAway | internal/online/server/server.go:119-143 | without a source or a free slot a connection is closed, nothing else happens, and the loop goes on unless told to stop |
| ServerLaws.LeavesNoTrace | internal/online/server/server.go:155-173 | when its handler returns a connection is closed and out of tables, counts and slots |
| ServerLaws.ServeRuns | internal/online/server/server.go:58-107 | a Serve call starts exactly when none is in progress and no shutdown was requested; if nobody connects it ends after both its loops, with its done channel closed |
| ServerLaws.ShutdownEnds | internal/online/server/server.go:223-260 | a Shutdown call closes what is registered and returns nil exactly after the Serve call it found has ended |
| ServerTables.TCPConnections.ReserveTCPConnection | internal/online/server/server.go:132-153 | accepts exactly when the source is known, a slot is free, no shutdown was requested and the source is below its limit; a rejected connection leaves every table as it was |
| ServerTables.TCPConnections.ReleaseTCPConnection | internal/online/server/server.go:162-173 | takes exactly the removal and slot-return steps of the transition system, and the receive finds a slot |
| BitBuffer.WriterReaderRoundTrip | internal/online/bitdemon/bitbuffer.go:33-83 | reading the bytes that a writer produced gives back the items written and leaves only the zero padding of the last byte |
| BitBuffer.BitWriter.WriteBits | internal/online/bitdemon/bitbuffer.go:63-83 | appends exactly the first count bits of the value at any alignment and changes no earlier bit |
| BitBuffer.BitWriter.DataShape | internal/online/bitdemon/bitbuffer.go:63-83 | the data is as long as the bits need and zero behind them |
| BitBuffer.BitReader.ReadBits | internal/online/bitdemon/bitbuffer.go:159-176 | returns the next count bits packed into zero-filled bytes, or fails and consumes nothing |
| BitBuffer.BitReader.ReadUint32 | internal/online/bitdemon/bitbuffer.go:116-128 | reads a tagged or untagged integer, or fails with the offset where it was |
| BitBuffer.BitReader.ReadTypeCheckedFlag | internal/online/bitdemon/bitbuffer.go:99-106 | reads one bit and sets the mode to it, or fails and keeps the mode |
| BitLaws.FlagFirst | internal/online/bitdemon/bitbuffer.go:33-45 | in the number that a packed stream is, least significant byte first, a flag is the lowest digit and switches type checking |
| BitLaws.IntegerFirst | internal/online/bitdemon/bitbuffer.go:46-62 | a checked integer is its type, 8 or 10, in five bits and its value above them |
| BitLaws.PackValue | internal/online/bitdemon/bitbuffer.go:63-83 | the bytes of a packed stream are the digits of its number to base 256 |
| ByteBuffer.ByteReader.ReadString | internal/online/bitdemon/bytebuffer.go:190-209 | reads a terminated string up to the maximum, or fails with the offset restored |
| ByteBuffer.ByteReader.ReadBlob | internal/online/bitdemon/bytebuffer.go:211-232 | reads a length-prefixed blob up to the maximum, or fails with the offset restored |
| ByteBuffer.ByteWriter.WriteString | internal/online/bitdemon/bytebuffer.go:81-92 | writes the encoding, or refuses exactly a string with a zero byte or beyond the length field and writes nothing |
| ByteBuffer.ByteWriter.WriteBlob | internal/online/bitdemon/bytebuffer.go:94-102 | writes the encoding with a tagged length, or refuses exactly a blob beyond the length field and writes nothing |
| LobbyWire.FieldsOnWire | internal/online/bitdemon/bytebuffer.go:35-102 | typed fields are, one after the other, the type byte and the value with its least significant byte first |
| Bytes.DigitOfLE | internal/online/bitdemon/bytebuffer.go:35-80 | byte k of an encoded integer is its digit k to base 256 |
| LobbyWire.RecordOnWire | internal/online/bitdemon/frame.go:37-116 | a frame is its length in four bytes and its body, a keepalive four zero bytes, a buffer announcement the length 200 and four bytes |
| Frame.ParseAllExact | internal/online/bitdemon/frame.go:37-130 | a stream reads back as a list of records with nothing left over exactly when it is the concatenation of their encodings |
| Frame.ReadTransportRecord | internal/online/bitdemon/frame.go:37-73 | reads the first record of the stream and leaves exactly what follows it |
| Frame.WriteAll | internal/online/bitdemon/frame.go:118-130 | terminates under any pattern of writes having written everything or failed after a prefix, and succeeds whenever each write takes at least one byte |
| Frame.WriteFrame | internal/online/bitdemon/frame.go:75-92 | over a writer that makes progress it succeeds exactly for bodies neither of the reserved length nor too long, and has then written the frame; an error leaves a prefix of it |
| Frame.MarshalFrame | internal/online/bitdemon/frame.go:94-106 | the bytes parse back to exactly the one record for the body |
| Frame.WriteBufferAvailableRecord | internal/online/bitdemon/frame.go:108-116 | writes the record, or a prefix of it on an error |
| Router.HandleTCP | internal/online/backend/router.go:51-100 | the decision, with its reason when there is no handler, equals the verdict of reading header by header, and no peek goes beyond 516 bytes |
| Router.QuietExactly | internal/online/backend/router.go:58-64 | a connection is dropped without an error exactly when its stream ends before a frame starts |
| Router.JudgedBy | internal/online/backend/router.go:66-98 | a first frame behind at most 32 control records is judged by its size, its first two bytes and how much of it arrives, in this order |
| Router.ReplayReads | internal/online/backend/router.go:107-109 | the handler reads from the replayed stream exactly the skipped controls and then the frame that was classified |
| AuthMessages.ParseAccountForMMPBody | internal/online/auth/account_for_mmp.go:31-69 | a body that encodes a request is accepted or refused for its title only, and every other body is refused |
| AuthMessages.MMPEncodedExact | internal/online/auth/account_for_mmp.go:31-69 | no body encodes two requests, so the request accepted encodes back to the same bytes, padding bits included |
| AuthMessages.CreateEncodedExact | internal/online/auth/create_account.go:61-131 | no body encodes two creation requests |
| AuthMessages.ParsePaddedUsername | internal/online/auth/create_account.go:133-149 | accepts exactly the zero-padded nonempty printable names and tells bytes behind the terminator apart |
| AuthMessages.PrintableIsUTF8 | internal/online/auth/create_account.go:140-147 | every printable name is valid UTF-8, so that test refuses nothing that the loop after it accepts |
| AuthWire.MMPOnWire | internal/online/auth/account_for_mmp.go:31-69 | a ticket request byte by byte |
| AuthWire.CreateOnWire | internal/online/auth/create_account.go:61-131 | an account creation byte by byte, its block chained over signature, padded name, password and zeros |
| AuthWire.LoginOnWire | internal/online/lobby/lsg.go:48-82 | a login byte by byte |
| LsgLogin.ParseLSGLoginBody | internal/online/lobby/lsg.go:48-82 | a body that encodes a login is accepted or refused for its title only, and every other body is refused |
| LsgLogin.LoginEncodedExact | internal/online/lobby/lsg.go:48-82 | no body encodes two logins |
| AuthReplies.MarshalStatusReplyBody | internal/online/auth/create_account.go:165-172 | the reply is the message type and the packed flag and status |
| AuthReplies.StatusReplyDecodes | internal/online/auth/create_account.go:160-172 | a reader of a status reply finds type and status and then two zero bits |
| AuthReplies.BuildEncryptedAuthTicket | internal/online/auth/account_for_mmp.go:91-119 | built exactly when the times fit and the name is short enough; decrypting with the account's password gives the ticket's cleartext |
| AuthReplies.TicketFields | internal/online/auth/account_for_mmp.go:101-110 | signature, type, title, times, user ID, padded name and session key can be read back at their offsets |
| AuthReplies.MarshalAccountForMMPSuccessBody | internal/online/auth/account_for_mmp.go:75-89 | the reply carries status, seed and a ticket that opens with the account's password to the session key |
| AuthReplies.SuccessReplyReads | internal/online/auth/account_for_mmp.go:75-89 | a reader of the success reply finds status, seed and ticket and then five zero bits |
| AuthWire.StatusOnWire | internal/online/auth/create_account.go:165-172 | a status reply byte by byte |
| AuthWire.SuccessOnWire | internal/online/auth/account_for_mmp.go:75-89 | a success reply byte by byte |
| AuthWire.TicketOnWire | internal/online/auth/account_for_mmp.go:91-119 | a ticket's cleartext byte by byte: user, seconds of issue and expiry, name and session key |
| Crypto.EncryptDecryptInverse | internal/online/bitdemon/crypto.go:42-60 | under one key and initialization vector encryption and decryption are inverse in both directions, keep the length, and refuse the same inputs |
| Crypto.BitOfXorBlock | internal/online/bitdemon/crypto.go:42-60 | blocks are mixed by the exclusive or of their bits |
| Crypto.PaddingExact | internal/online/bitdemon/crypto.go:62-67 | the padded payload is the only whole number of blocks that extends it by fewer than eight bytes, all zero |
| Envelope.DecryptRequestExact | internal/online/lobby/envelope.go:36-61 | a body is accepted exactly when it is the sealed form of the request returned, authentication code included |
| Envelope.ValidClientRequestPadding | internal/online/lobby/envelope.go:63-74 | true exactly for a zero byte and up to seven copies of the seed's low byte |
| LobbyWire.SealOnWire | internal/online/lobby/envelope.go:36-61 | a sealed request byte by byte: header, seed, and chained blocks of code, service and payload |
| LobbyWire.PaddingOnWire | internal/online/lobby/envelope.go:63-74 | request padding byte by byte: a zero, then up to seven copies of the seed's low byte |
| Envelope.AcceptedExactly | internal/online/lobby/matchmaking.go:132-135 | what is accepted as padding is valid padding exactly below 4 GiB |
| Matchmaking.RequestOfExact | internal/online/lobby/matchmaking.go:81-137 | a payload is accepted as at most one request |
| LobbyWire.RequestOnWire | internal/online/lobby/matchmaking.go:81-189 | a payload is accepted as a request exactly when the request is within the bounds of its task and the payload is its typed fields, in order, and padding |
| LobbyWire.EventOnWire | internal/online/lobby/eventlog.go:30-52 | the same for an event |
| LobbyWire.MessageOnWire | internal/online/lobby/messaging.go:34-64 | the same for a message to another client |
| Matchmaking.CanonicalExactly | internal/online/lobby/matchmaking.go:132-135 | an accepted payload is the encoding followed by a zero byte and up to seven copies of the seed's low byte exactly when less than 4 GiB follow the fields, as in every frame |
| Matchmaking.LongPayloadAccepted | internal/online/lobby/matchmaking.go:132-135 | beyond that it need not be: any request followed by 2^32 + 1 zero bytes is accepted |
| Matchmaking.ReadMatchmakingRequestInfo | internal/online/lobby/matchmaking.go:139-162 | reads the fields of a match description, or fails exactly when they do not decode |
| Matchmaking.ReadMatchmakingSessionID | internal/online/lobby/matchmaking.go:191-202 | reads a blob of exactly eight bytes, or fails exactly when there is none |
| Matchmaking.WriteMatchmakingResult | internal/online/lobby/matchmaking.go:208-231 | writes the encoding of the match, and fails exactly when its address or text is out of bounds |
| Matchmaking.ResultDecodes | internal/online/lobby/matchmaking.go:208-231 | a written result reads back field by field wherever it stands |
| Matchmaking.ResultInjective | internal/online/lobby/matchmaking.go:208-231 | two matches whose written results are followed by anything and give the same bytes are the same match, followed by the same |
| LobbyWire.ResultOnWire | internal/online/lobby/matchmaking.go:208-231 | the typed fields of a result, in order |
| Matchmaking.IdentityBound | internal/online/lobby/matchmaking.go:70-79 | an announced match carries the account's own name whatever the request claimed; only a long name is refused and other tasks are untouched |
| EventLog.ParseEventLogRequest | internal/online/lobby/eventlog.go:30-52 | succeeds with q exactly when the payload is the encoding of q followed by something accepted as padding |
| EventLog.RequestOfExact | internal/online/lobby/eventlog.go:30-52 | a payload is accepted as at most one event |
| EventLog.CanonicalExactly | internal/online/lobby/eventlog.go:47-50 | an accepted payload is canonical exactly when less than 4 GiB follow the fields |
| EventLog.MarshalTaskReply | internal/online/lobby/eventlog.go:54-65 | the encoding of the reply head, with the total only if there are results |
| LobbyWire.ReplyOnWire | internal/online/lobby/lsg.go:346-403 | the bytes of the replies to a plain task, a creation and a search |
| Messaging.ParseMessagingRequest | internal/online/lobby/messaging.go:34-64 | succeeds with q exactly when the payload fills whole blocks and is the encoding of q followed by padding |
| Messaging.RequestOfExact | internal/online/lobby/messaging.go:34-64 | a payload encodes at most one message |
| Messaging.MarshalGlobalInstantMessagePush | internal/online/lobby/messaging.go:65-102 | succeeds exactly for names up to 63 bytes without zero bytes and messages up to 4096 bytes |
| LobbyWire.PushOnWire | internal/online/lobby/messaging.go:65-102 | a push byte by byte: header, seed, and chained blocks of signature, event, sender, name, message and zeros |
| Outbox.BodiesAreFrameable | internal/online/lobby/envelope.go:14-34 | everything a connection sends avoids the reserved length and stays below the frame limit; pushes have length 5 modulo 8 |
| Outbox.ReplyReadsBack | internal/online/lobby/lsg.go:346-403 | the client reads back every field of a reply, up to fifty results included, with at most one zero byte behind |
| Outbox.OutputParses | internal/online/lobby/client.go:22-29 | everything sent parses to whole records, and the numbers found in them are those of the replies in order |
| Accounts.RestartKeeps | internal/online/auth/store.go:80-95 | a restart succeeds and leaves exactly the accounts in memory, or those and the one unacknowledged account that the file holds |
| Accounts.UnacknowledgedAppears | internal/online/auth/store.go:132-141 | a registration that failed after the rename changes nothing in memory, and after a restart its account is registered with its ID, hash and password |
| Accounts.ReloadExact | internal/online/auth/account_file.go:76-104 | a file of one set of accounts reads back as that set exactly when all names are valid |
| Accounts.InvalidNameBreaksReload | internal/online/auth/account_file.go:117-129 | after a successful registration the file loads exactly when the registered name is valid |
| Accounts.InvalidNameExample | internal/online/auth/account_file.go:121-129 | registering the byte 0x07 on an empty server succeeds and leaves a file that cannot be loaded |
| AccountStore.ReadAccountFile | internal/online/auth/account_file.go:40-104 | returns the decoded accounts in file order, or the first fault |
| AccountStore.DecodePersistedAccount | internal/online/auth/account_file.go:117-141 | decodes exactly nonzero IDs with names that survive padding and 24-byte passwords |
| AccountStore.WriteAccountFile | internal/online/auth/account_file.go:143-197 | past the rename the file holds exactly the given accounts in order of ID; before it the old file stands |
| AccountStore.MemoryAccountStore.Load | internal/online/auth/store.go:80-95 | the constructor's reload gives the memory that the file determines, in three agreeing maps, or its error |
| AccountStore.MemoryAccountStore.Register | internal/online/auth/store.go:110-150 | registers, finds or refuses as the one-map specification does, with file and counts; the three maps stay views of one set |
| AccountLaws.RegisteredExactly | internal/online/auth/store.go:110-150 | a name is registered exactly when it and its hash are new, there is room in all and for the source, and the file was written; then with the next ID, and only its source is counted; each refusal has its reason |
| AccountLaws.LoadsExactly | internal/online/auth/account_file.go:76-104 | a file loads exactly when it is not too long, all accounts are in order and no two share ID, name or hash |
| AccountLaws.LoadedExactly | internal/online/auth/store.go:80-95 | loading leaves exactly its accounts and the ID after the largest |
| AccountStore.MemoryAccountStore.LookupHash | internal/online/auth/store.go:186-191 | finds the account of that hash exactly when there is one |
| AccountStore.MemoryAccountStore.LookupUserID | internal/online/auth/store.go:193-198 | finds the account of that ID exactly when there is one |
| AccountStore.MemoryAccountStore.Lookup | internal/online/auth/store.go:205-210 | finds the account of that name exactly when there is one |
| AccountHash.CaseVariantRefused | internal/online/auth/store.go:200-203 | a name that differs from a registered one only in case is refused and changes nothing |
| AccountHash.HashExact | internal/online/auth/store.go:200-203 | the hash is the number of the first eight bytes of the digest of the name in small letters |
| Tiger.ScheduleInjective | internal/online/bitdemon/tiger.go:87-104 | two blocks with the same schedule are the same |
| Tiger.TigerKeySchedule | internal/online/bitdemon/tiger.go:87-104 | the sixteen assignments in place are the sixteen steps of the schedule |
| Tiger.TigerCompress | internal/online/bitdemon/tiger.go:48-60 | registers and words in place end as three passes with feed-forward and two schedules |
| Tiger.TigerPad | internal/online/bitdemon/tiger.go:38-46 | the buffer filled in place is the padding of the message |
| Tiger.PadMinimal | internal/online/bitdemon/tiger.go:38-46 | the padded length is the least multiple of 64 with room for marker and length |
| Tiger.Tiger192 | internal/online/bitdemon/tiger.go:16-36 | the block loop hashes the padded message block by block and returns the three registers |
| TigerLaws.CompressExact | internal/online/bitdemon/tiger.go:48-60 | compression is exactly three passes that rotate the registers, with two schedules between and feed-forward behind |
| TigerLaws.RoundExact | internal/online/bitdemon/tiger.go:73-85 | a round is exactly the published one: the word into c, the look-ups at the even bytes of c from a, those at the odd bytes to b, and the multiplication |
| TigerLaws.ScheduleExact | internal/online/bitdemon/tiger.go:87-104 | the key schedule is the one solution of its sixteen equations |
| TigerLaws.IVExact | internal/online/bitdemon/crypto.go:24-31 | the vector of a counter is the first third of the digest of its four bytes |
| Words64.BitOfMix | internal/online/bitdemon/tiger.go:73-104 | mixing two words is the exclusive or of their bits |
| Words64.BitOfNot | internal/online/bitdemon/tiger.go:87-104 | complementing a word complements its bits |
| Words64.BitOfLeft | internal/online/bitdemon/tiger.go:87-104 | the left shift moves every bit up by 19 and drops what leaves the word |
| Words64.BitOfRight | internal/online/bitdemon/tiger.go:87-104 | the right shift moves every bit down by 23 |
| Tiger.DerivedIVIsSound | internal/online/bitdemon/crypto.go:24-31 | with the vectors derived from Tiger any block cipher and authentication code meet what the encryption results assume |

## Left out

- Sockets, deadlines, contexts and logging. Their effect is a step that may end a connection, a read that
  ends or a write that fails.
- JSON, hexadecimal digits and file-system calls. The file is a list of persisted accounts; a file that
  cannot be opened, is not private, is too large or does not decode is one case.
- The size limit of the account file when it is written: a store that outgrows 16 MiB could not be read again.
- 3DES, SHA-1, HMAC and the contents of the S-boxes. `Crypto` is over any block cipher; `Tiger` is over any tables.
- Normalisation of peer and source addresses, STUN, configuration checks, flags and signals.
- Wrap-around of the three 64-bit counters of tokens, connection numbers and creation numbers, and of user IDs:
  steps that would wrap are excluded. `LobbySessions` itself does model a token counter that wraps and skips zero.
- The record limit per connection and the read deadline: both end a connection while it reads, which the
  protocol allows at any time.
- `HandleTCP` of the lobby and the Serve, Shutdown and worker threads are transition systems, not classes,
  because their steps interleave; the stores, the registry and the tables they use are classes as well.
- LobbyClients.ActiveLobbyClients.Activate: closing the replaced client is part of the call here, while the
  protocol lets other steps come between.
- Sharing of byte slices between stored and returned matches: values are copied, as `cloneMatchmakingInfo` does.
- Frame.ReadTransportRecord: the platform's own limit on the length of a slice is not modelled.
- BitBuffer.BitWriter.WriteUint8: proved to append the tagged byte, but no reader of single bytes exists, so
  the round trip of item lists does not include it.
- The deletion of a match whose ID could not be written to the reply: an eight-byte ID always can be.
- `sort.Slice` is modelled by insertion (`Seqs.SortBy`); the keys sorted by always differ.
- Visiting a map in a loop takes any element next.
- Restarts with another configuration: a run keeps one. A server restarted with a limit below the number of accounts
  refuses its file, and one restarted without the path of the file starts with no accounts.
- AccountHash.CaseVariantRefused: lower case is that of ASCII letters; registered names are printable ASCII.
- LobbyReplies.ConnectionOutputParses: for fewer than 2^64 replies on one connection.
- Messages of errors: an error is the case it belongs to, not its text.
