/**
  The account store that the server runs (internal/online/auth/store.go, internal/online/auth/account_file.go):
  three maps that must stay views of one set of accounts, and the file they are saved in.
 */
module AccountStore {
  import opened Bytes
  import opened Counts
  import opened Seqs
  import opened AuthMessages
  import opened Accounts

  // ---------- the file ----------

  method DecodePersistedAccount(hash: Hash, p: Persisted) returns (r: Option<Account>)
    ensures r == Decoded(hash, p)
  {
    if p.userID == 0 {
      return None;
    }
    if |p.username| == 0 || |p.username| > ACCOUNT_USERNAME_SIZE {
      return None;
    }
    var usernameField := p.username + Repeat(0, ACCOUNT_USERNAME_SIZE - |p.username|);
    assert usernameField[|p.username|..] == Repeat(0, ACCOUNT_USERNAME_SIZE - |p.username|);
    assert Pads(p.username, usernameField);
    var username := ParsePaddedUsername(usernameField);
    if username.Err? || username.value != p.username {
      return None;
    }
    if p.passwordHash.None? || |p.passwordHash.value| != ACCOUNT_PASSWORD_SIZE {
      return None;
    }
    r := Some(Account(p.userID, username.value, p.passwordHash.value, hash(username.value)));
  }

  /** The decoded accounts in the order of the file. */
  function DecodedAll(hash: Hash, ps: seq<Persisted>): (r: seq<Account>)
    requires AllDecode(hash, ps)
    ensures |r| == |ps| && forall i | 0 <= i < |ps| :: Decoded(hash, ps[i]) == Some(r[i])
  {
    seq(|ps|, i requires 0 <= i < |ps| => Decoded(hash, ps[i]).value)
  }

  lemma {:induction false} FaultFound(hash: Hash, ps: seq<Persisted>, n: nat)
    requires n < |ps| && AllDecode(hash, ps[..n]) && Distinct(hash, ps[..n])
    requires !AllDecode(hash, ps[..n + 1]) || !Distinct(hash, ps[..n + 1])
    ensures !AllDecode(hash, ps) || !Distinct(hash, ps)
    ensures FirstFault(hash, ps) == FirstFault(hash, ps[..n + 1])
  {
    hide Decoded;
    if n + 1 == |ps| {
      assert ps[..n + 1] == ps;
    } else {
      var init := ps[..|ps| - 1];
      assert init[..n] == ps[..n] && init[..n + 1] == ps[..n + 1];
      FaultFound(hash, init, n);
    }
  }

  method ReadAccountFile(hash: Hash, file: File, maximum: int) returns (r: Result<seq<Account>, LoadError>)
    ensures match file
            case Missing => r == Ok([])
            case Unusable => r == Err(UnusableFile)
            case Stored(ps) =>
              if |ps| > maximum then r == Err(TooManyAccounts)
              else if AllDecode(hash, ps) && Distinct(hash, ps) then r == Ok(DecodedAll(hash, ps))
              else r == Err(FirstFault(hash, ps))
  {
    if file.Missing? {
      return Ok([]);
    }
    if file.Unusable? {
      return Err(UnusableFile);
    }
    var stored := file.accounts;
    if |stored| > maximum {
      return Err(TooManyAccounts);
    }
    hide Decoded, FirstFault;
    var accounts: seq<Account> := [];
    var userIDs: set<u64>, usernames: set<Name>, hashes: set<u64> := {}, {}, {};
    for i := 0 to |stored|
      invariant AllDecode(hash, stored[..i]) && Distinct(hash, stored[..i])
      invariant accounts == DecodedAll(hash, stored[..i])
      invariant userIDs == IDs(stored[..i]) && usernames == Names(stored[..i]) && hashes == Hashes(hash, stored[..i])
    {
      var account := DecodePersistedAccount(hash, stored[i]);
      assert stored[..i + 1] == stored[..i] + [stored[i]];
      FaultAt(hash, stored, i);
      if account.None? {
        return Err(InvalidAccount);
      }
      DecodedName(hash, stored[i]);
      if account.value.userID in userIDs {
        return Err(DuplicateUserID);
      }
      if account.value.username in usernames {
        return Err(DuplicateUsername);
      }
      if account.value.accountHash in hashes {
        return Err(DuplicateAccountHash);
      }
      userIDs := userIDs + {account.value.userID};
      usernames := usernames + {account.value.username};
      hashes := hashes + {account.value.accountHash};
      accounts := accounts + [account.value];
    }
    assert stored[..|stored|] == stored;
    r := Ok(accounts);
  }

  function IDs(ps: seq<Persisted>): set<u64> { set p | p in ps :: p.userID }

  function Hashes(hash: Hash, ps: seq<Persisted>): set<u64> { set p | p in ps :: hash(p.username) }

  lemma InSets(hash: Hash, ps: seq<Persisted>, p: Persisted)
    ensures p.userID in IDs(ps) <==> exists i :: 0 <= i < |ps| && ps[i].userID == p.userID
    ensures p.username in Names(ps) <==> exists i :: 0 <= i < |ps| && ps[i].username == p.username
    ensures hash(p.username) in Hashes(hash, ps) <==> exists i :: 0 <= i < |ps| && hash(ps[i].username) == hash(p.username)
  {
    if i :| 0 <= i < |ps| && ps[i].userID == p.userID { assert ps[i] in ps; }
    if i :| 0 <= i < |ps| && ps[i].username == p.username { assert ps[i] in ps; }
    if i :| 0 <= i < |ps| && hash(ps[i].username) == hash(p.username) { assert ps[i] in ps; }
  }

  /** What is wrong with an account that follows others in good order. */
  function Fault(hash: Hash, init: seq<Persisted>, p: Persisted): Option<LoadError> {
    if Decoded(hash, p).None? then Some(InvalidAccount)
    else if p.userID in IDs(init) then Some(DuplicateUserID)
    else if p.username in Names(init) then Some(DuplicateUsername)
    else if hash(p.username) in Hashes(hash, init) then Some(DuplicateAccountHash)
    else None
  }

  lemma DecodeSnoc(hash: Hash, init: seq<Persisted>, p: Persisted)
    requires AllDecode(hash, init)
    ensures AllDecode(hash, init + [p]) <==> Decoded(hash, p).Some?
  {
    hide Decoded;
    assert (init + [p])[|init|] == p;
  }

  lemma DistinctSnoc(hash: Hash, init: seq<Persisted>, p: Persisted)
    requires Distinct(hash, init)
    ensures Distinct(hash, init + [p])
            <==> && (forall i | 0 <= i < |init| :: init[i].userID != p.userID)
                 && (forall i | 0 <= i < |init| :: init[i].username != p.username)
                 && (forall i | 0 <= i < |init| :: hash(init[i].username) != hash(p.username))
  {
    var all := init + [p];
    if Distinct(hash, all) {
      forall i | 0 <= i < |init|
        ensures init[i].userID != p.userID && init[i].username != p.username && hash(init[i].username) != hash(p.username)
      {
        assert all[i] == init[i] && all[|init|] == p;
      }
    }
  }

  lemma LastFault(hash: Hash, init: seq<Persisted>, p: Persisted)
    requires AllDecode(hash, init) && Distinct(hash, init)
    ensures var all := init + [p];
            if Fault(hash, init, p).None? then AllDecode(hash, all) && Distinct(hash, all)
            else (!AllDecode(hash, all) || !Distinct(hash, all)) && FirstFault(hash, all) == Fault(hash, init, p).value
  {
    InSets(hash, init, p);
    DecodeSnoc(hash, init, p);
    DistinctSnoc(hash, init, p);
    var all := init + [p];
    assert all[..|all| - 1] == init && all[|all| - 1] == p;
    hide Decoded, AllDecode, Distinct, IDs, Names, Hashes;
  }

  lemma FaultAt(hash: Hash, ps: seq<Persisted>, i: nat)
    requires i < |ps| && AllDecode(hash, ps[..i]) && Distinct(hash, ps[..i])
    ensures var fault := Fault(hash, ps[..i], ps[i]);
            if fault.Some? then
              (!AllDecode(hash, ps) || !Distinct(hash, ps)) && FirstFault(hash, ps) == fault.value
            else AllDecode(hash, ps[..i + 1]) && Distinct(hash, ps[..i + 1])
  {
    hide Decoded, FirstFault, AllDecode, Distinct, Fault;
    LastFault(hash, ps[..i], ps[i]);
    assert ps[..i + 1] == ps[..i] + [ps[i]];
    if Fault(hash, ps[..i], ps[i]).Some? {
      FaultFound(hash, ps, i);
    }
  }

  /** The file on disk. */
  class Disk {
    var file: File

    constructor (file: File)
      ensures this.file == file
    {
      this.file := file;
    }
  }

  function AccountID(): Account -> int { (a: Account) => a.userID }

  /** The list of persisted accounts is in order of ID and has exactly these. */
  ghost predicate ListsExactly(ps: seq<Persisted>, accounts: seq<Account>) {
    && Increasing(ps, IDOf())
    && (forall a | a in accounts :: Persist(a) in ps)
    && (forall p | p in ps :: exists a :: a in accounts && p == Persist(a))
  }

  /** Sorts, encodes into a temporary file and renames it; fails where outcome says. */
  method WriteAccountFile(disk: Disk, accounts: seq<Account>, outcome: WriteOutcome) returns (ok: bool)
    requires forall i, j | 0 <= i < j < |accounts| :: AccountID()(accounts[i]) != AccountID()(accounts[j])
    modifies disk
    ensures ok <==> outcome == Succeeded
    ensures outcome == FailedBeforeRename ==> disk.file == old(disk.file)
    ensures outcome != FailedBeforeRename ==> disk.file.Stored? && ListsExactly(disk.file.accounts, accounts)
  {
    var ordered := SortBy(accounts, AccountID());
    var stored: seq<Persisted> := [];
    for i := 0 to |ordered|
      invariant |stored| == i && forall j | 0 <= j < i :: stored[j] == Persist(ordered[j])
    {
      stored := stored + [Persist(ordered[i])];
    }
    SavedInOrder(ordered, stored, accounts);
    if outcome == FailedBeforeRename {
      return false;
    }
    disk.file := Stored(stored);
    ok := outcome == Succeeded;
  }

  lemma SavedInOrder(ordered: seq<Account>, stored: seq<Persisted>, accounts: seq<Account>)
    requires Increasing(ordered, AccountID()) && |stored| == |ordered|
    requires forall j | 0 <= j < |stored| :: stored[j] == Persist(ordered[j])
    requires forall a | a in accounts :: a in ordered
    requires forall a | a in ordered :: a in accounts
    ensures ListsExactly(stored, accounts)
  {
    forall i, j | 0 <= i < j < |stored| ensures IDOf()(stored[i]) < IDOf()(stored[j]) {
      assert AccountID()(ordered[i]) < AccountID()(ordered[j]);
    }
    forall a | a in accounts ensures Persist(a) in stored {
      var i :| 0 <= i < |ordered| && ordered[i] == a;
      assert stored[i] == Persist(a);
    }
    forall p | p in stored ensures exists a :: a in accounts && p == Persist(a) {
      var i :| 0 <= i < |stored| && stored[i] == p;
      assert ordered[i] in accounts;
    }
  }

  // ---------- the store ----------

  /** The other two maps hold the same accounts, by hash and by ID. */
  ghost predicate Indexed(accounts: map<Name, Account>, byHash: map<u64, Account>, byUserID: map<u64, Account>) {
    && (forall n | n in accounts ::
          && accounts[n].accountHash in byHash && byHash[accounts[n].accountHash] == accounts[n]
          && accounts[n].userID in byUserID && byUserID[accounts[n].userID] == accounts[n])
    && (forall h | h in byHash ::
          byHash[h].accountHash == h && byHash[h].username in accounts && accounts[byHash[h].username] == byHash[h])
    && (forall id | id in byUserID ::
          byUserID[id].userID == id && byUserID[id].username in accounts && accounts[byUserID[id].username] == byUserID[id])
  }

  lemma TakenByIndex(accounts: map<Name, Account>, byHash: map<u64, Account>, byUserID: map<u64, Account>, h: u64)
    requires Indexed(accounts, byHash, byUserID)
    ensures h in byHash <==> HashTaken(accounts, h)
  {
    if h in byHash { assert accounts[byHash[h].username].accountHash == h; }
  }

  class MemoryAccountStore {
    const cfg: Config
    const disk: Disk
    var nextUserID: u64
    var byUsername: map<Name, Account>
    var byHash: map<u64, Account>
    var byUserID: map<u64, Account>
    var accountsBySource: map<Source, int>

    ghost predicate Valid()
      reads this
    {
      && OneSet(cfg.hash, byUsername, nextUserID) && 1 <= nextUserID
      && Indexed(byUsername, byHash, byUserID)
      && QuotasKept(cfg, accountsBySource)
    }

    ghost function View(): World
      reads this, disk
    {
      World(Memory(byUsername, nextUserID, accountsBySource), disk.file)
    }

    constructor (cfg: Config, disk: Disk)
      ensures Valid() && this.cfg == cfg && this.disk == disk
      ensures View() == World(Memory(map[], 1, map[]), disk.file)
    {
      this.cfg, this.disk := cfg, disk;
      nextUserID, byUsername, byHash, byUserID, accountsBySource := 1, map[], map[], map[], map[];
    }

    /** Every account read from the file enters the three maps and pushes the next ID past its own. */
    method Load() returns (r: Result<(), LoadError>)
      requires Valid() && View().memory == Memory(map[], 1, map[]) && byHash == map[] && byUserID == map[]
      modifies this
      ensures match Loaded(cfg, disk.file)
              case Ok(m) => r.Ok? && Valid() && View() == World(m, disk.file)
              case Err(e) => r == Err(e)
    {
      hide Decoded, AccountsOf, FirstFault, NextID, ValidUsername, OneSet, Indexed;
      var accounts := ReadAccountFile(cfg.hash, disk.file, cfg.maxAccounts);
      if accounts.Err? {
        return Err(accounts.error);
      }
      ghost var ps := if disk.file.Stored? then disk.file.accounts else [];
      NoneLoaded(cfg.hash);
      for i := 0 to |accounts.value|
        invariant byUsername == AccountsOf(cfg.hash, ps[..i]) && nextUserID == NextID(ps[..i])
        invariant Indexed(byUsername, byHash, byUserID) && accountsBySource == map[]
      {
        var account := accounts.value[i];
        assert ps[..i + 1] == ps[..i] + [ps[i]];
        LoadStep(cfg.hash, ps, i, byHash, byUserID);
        byUsername := byUsername[account.username := account];
        byHash := byHash[account.accountHash := account];
        byUserID := byUserID[account.userID := account];
        if account.userID >= nextUserID {
          if account.userID + 1 == U64_LIMIT {
            Exhausted(ps, i);
            return Err(UserIDsExhausted);
          }
          nextUserID := account.userID + 1;
        }
      }
      assert ps[..|ps|] == ps;
      LoadedSet(cfg.hash, ps);
      r := Ok(());
    }

    method Register(name: Name, password: PasswordHash, source: Option<Source>, outcome: WriteOutcome) returns (r: Registration)
      requires Valid() && nextUserID + 1 < U64_LIMIT
      modifies this, disk
      ensures Valid()
      ensures Registers(cfg, old(View()), name, password, source, outcome, View(), r)
    {
      hide OneSet, Indexed, Holds, HashTaken, QuotasKept, ValidUsername, CountOf, Counted;
      if name in byUsername {
        return Existing(byUsername[name]);
      }
      if |byUsername| >= cfg.maxAccounts {
        return Refused(AccountLimit);
      }
      if source.Some? && CountOf(accountsBySource, source.value) >= cfg.maxPerSource {
        return Refused(SourceLimit);
      }
      var accountHash := cfg.hash(name);
      TakenByIndex(byUsername, byHash, byUserID, accountHash);
      if accountHash in byHash {
        ByHash(byUsername, byHash, byUserID, accountHash);
        return Collision(byHash[accountHash]);
      }
      var account := Account(nextUserID, name, password, accountHash);
      OneSetAdd(cfg.hash, byUsername, nextUserID, account);
      FreshAccount(cfg.hash, byUsername, nextUserID, account);
      IndexedFresh(byUsername, byHash, byUserID, account);
      if cfg.persistent {
        var written := Save(account, outcome);
        if !written {
          return Refused(WriteFailed);
        }
      }
      nextUserID := nextUserID + 1;
      byUsername := byUsername[name := account];
      byHash := byHash[accountHash := account];
      byUserID := byUserID[account.userID := account];
      CountedKept(cfg, accountsBySource, source);
      CountedIs(accountsBySource, source);
      if source.Some? {
        accountsBySource := accountsBySource[source.value := CountOf(accountsBySource, source.value) + 1];
      }
      r := Created(account);
    }

    /** Writes the accounts and a new one to the file. */
    method Save(account: Account, outcome: WriteOutcome) returns (written: bool)
      requires Valid() && nextUserID + 1 < U64_LIMIT && account.userID == nextUserID && account.username !in byUsername
      requires account.accountHash == cfg.hash(account.username) && !HashTaken(byUsername, account.accountHash)
      modifies disk
      ensures written <==> outcome == Succeeded
      ensures outcome == FailedBeforeRename ==> disk.file == old(disk.file)
      ensures outcome != FailedBeforeRename ==> Holds(disk.file, byUsername[account.username := account])
    {
      hide Indexed, Holds;
      OneSetAdd(cfg.hash, byUsername, nextUserID, account);
      var accounts := AllAccounts();
      WithNew(cfg.hash, byUsername, nextUserID, accounts, account);
      accounts := accounts + [account];
      written := WriteAccountFile(disk, accounts, outcome);
      if outcome != FailedBeforeRename {
        ListedHolds(cfg.hash, disk.file, accounts, byUsername[account.username := account], nextUserID + 1);
      }
    }

    /** The accounts in the order in which the map is visited. */
    method AllAccounts() returns (accounts: seq<Account>)
      requires Valid()
      ensures Gathered(accounts, byUsername, {})
    {
      OwnNames(cfg.hash, byUsername, nextUserID);
      hide OneSet, Indexed, Gathered, QuotasKept;
      accounts := [];
      var todo := byUsername.Keys;
      NoneGathered(byUsername);
      while todo != {}
        invariant todo <= byUsername.Keys && Gathered(accounts, byUsername, todo)
      {
        var n :| n in todo;
        GatherOne(accounts, byUsername, todo, n);
        accounts := accounts + [byUsername[n]];
        todo := todo - {n};
      }
    }

    method LookupHash(accountHash: u64) returns (r: Option<Account>)
      requires Valid()
      ensures r.None? <==> !HashTaken(byUsername, accountHash)
      ensures r.Some? ==> r.value.accountHash == accountHash
                          && r.value.username in byUsername && byUsername[r.value.username] == r.value
    {
      TakenByIndex(byUsername, byHash, byUserID, accountHash);
      r := if accountHash in byHash then Some(byHash[accountHash]) else None;
    }

    method LookupUserID(userID: u64) returns (r: Option<Account>)
      requires Valid()
      ensures r.None? <==> forall n | n in byUsername :: byUsername[n].userID != userID
      ensures r.Some? ==> r.value.userID == userID
                          && r.value.username in byUsername && byUsername[r.value.username] == r.value
    {
      r := if userID in byUserID then Some(byUserID[userID]) else None;
      if userID in byUserID { assert byUsername[byUserID[userID].username].userID == userID; }
    }

    method Lookup(username: Name) returns (r: Option<Account>)
      requires Valid()
      ensures r.Some? <==> username in byUsername
      ensures r.Some? ==> r.value.username == username && r.value == byUsername[username]
    {
      r := if username in byUsername then Some(byUsername[username]) else None;
      if username in byUsername { assert byUsername[username].username == username; }
    }
  }

  lemma CountedIs(counts: map<Source, int>, source: Option<Source>)
    ensures Counted(counts, source)
            == if source.Some? then counts[source.value := CountOf(counts, source.value) + 1] else counts
  {}

  lemma FreshAccount(hash: Hash, accounts: map<Name, Account>, next: u64, a: Account)
    requires OneSet(hash, accounts, next) && a.userID >= next && !HashTaken(accounts, a.accountHash)
    ensures forall n | n in accounts :: accounts[n].userID != a.userID && accounts[n].accountHash != a.accountHash
  {}

  lemma OwnNames(hash: Hash, accounts: map<Name, Account>, next: nat)
    requires OneSet(hash, accounts, next)
    ensures forall n | n in accounts :: accounts[n].username == n
  {}

  /** The list has each account of the map once, except those named in todo. */
  ghost predicate Gathered(listed: seq<Account>, accounts: map<Name, Account>, todo: set<Name>) {
    && (forall a | a in listed :: a.username in accounts && accounts[a.username] == a && a.username !in todo)
    && (forall n | n in accounts && n !in todo :: accounts[n] in listed)
    && (forall i, j | 0 <= i < j < |listed| :: listed[i].username != listed[j].username)
  }

  lemma NoneGathered(accounts: map<Name, Account>)
    ensures Gathered([], accounts, accounts.Keys)
  {}

  lemma GatherOne(listed: seq<Account>, accounts: map<Name, Account>, todo: set<Name>, n: Name)
    requires Gathered(listed, accounts, todo) && n in todo && n in accounts && accounts[n].username == n
    ensures Gathered(listed + [accounts[n]], accounts, todo - {n})
  {
    var all := listed + [accounts[n]];
    forall i, j | 0 <= i < j < |all| ensures all[i].username != all[j].username {
      assert all[i] in listed;
    }
    forall m | m in accounts && m !in todo - {n} ensures accounts[m] in all {
      if m == n { assert all[|listed|] == accounts[n]; }
    }
  }

  lemma NoneLoaded(hash: Hash)
    ensures AccountsOf(hash, []) == map[] && NextID([]) == 1
    ensures Indexed(map[], map[], map[])
  {}

  lemma ByHash(accounts: map<Name, Account>, byHash: map<u64, Account>, byUserID: map<u64, Account>, h: u64)
    requires Indexed(accounts, byHash, byUserID) && h in byHash
    ensures byHash[h].accountHash == h && byHash[h].username in accounts && accounts[byHash[h].username] == byHash[h]
  {}

  lemma LoadedBefore(hash: Hash, ps: seq<Persisted>, i: nat, n: Name)
    requires i < |ps| && AllDecode(hash, ps) && Distinct(hash, ps) && n in AccountsOf(hash, ps[..i])
    ensures var a := AccountsOf(hash, ps[..i])[n];
            n != ps[i].username && a.userID != ps[i].userID && a.accountHash != hash(ps[i].username)
  {
    hide Decoded, ValidUsername;
    LoadedNames(hash, ps[..i], n);
    var j :| 0 <= j < |ps[..i]| && ps[..i][j].username == n;
    LoadedAt(hash, ps[..i], j);
    DecodedName(hash, ps[j]);
  }

  lemma IndexedFresh(accounts: map<Name, Account>, byHash: map<u64, Account>, byUserID: map<u64, Account>, a: Account)
    requires Indexed(accounts, byHash, byUserID) && a.username !in accounts
    requires forall n | n in accounts :: accounts[n].userID != a.userID && accounts[n].accountHash != a.accountHash
    ensures Indexed(accounts[a.username := a], byHash[a.accountHash := a], byUserID[a.userID := a])
  {}

  /** The maps after one more account of a file in good order. */
  lemma LoadStep(hash: Hash, ps: seq<Persisted>, i: nat, byHash: map<u64, Account>, byUserID: map<u64, Account>)
    requires i < |ps| && AllDecode(hash, ps) && Distinct(hash, ps)
    requires Indexed(AccountsOf(hash, ps[..i]), byHash, byUserID)
    ensures var a := Decoded(hash, ps[i]).value;
            && a.userID == ps[i].userID
            && AccountsOf(hash, ps[..i + 1]) == AccountsOf(hash, ps[..i])[a.username := a]
            && NextID(ps[..i + 1]) == (if a.userID >= NextID(ps[..i]) then a.userID + 1 else NextID(ps[..i]))
            && Indexed(AccountsOf(hash, ps[..i + 1]), byHash[a.accountHash := a], byUserID[a.userID := a])
  {
    DecodedName(hash, ps[i]);
    assert ps[..i + 1][..i] == ps[..i] && ps[..i + 1][i] == ps[i];
    hide Decoded, ValidUsername, Indexed;
    var accounts := AccountsOf(hash, ps[..i]);
    var a := Decoded(hash, ps[i]).value;
    forall n | n in accounts
      ensures n != a.username && accounts[n].userID != a.userID && accounts[n].accountHash != a.accountHash
    {
      LoadedBefore(hash, ps, i, n);
    }
    IndexedFresh(accounts, byHash, byUserID, a);
  }

  lemma {:induction false} Exhausted(ps: seq<Persisted>, i: nat)
    requires i < |ps| && ps[i].userID + 1 == U64_LIMIT
    ensures NextID(ps) == U64_LIMIT
  {}

  /** The gathered accounts and a new one have different IDs. */
  lemma WithNew(hash: Hash, accounts: map<Name, Account>, next: u64, listed: seq<Account>, a: Account)
    requires OneSet(hash, accounts, next) && a.userID == next
    requires Gathered(listed, accounts, {}) && a.username !in accounts
    ensures var all := listed + [a];
            && Gathered(all, accounts[a.username := a], {})
            && forall i, j | 0 <= i < j < |all| :: AccountID()(all[i]) != AccountID()(all[j])
  {
    var all := listed + [a];
    forall i, j | 0 <= i < j < |all| ensures AccountID()(all[i]) != AccountID()(all[j]) {
      assert all[i] in listed;
      if j < |listed| { assert all[j] in listed; }
    }
  }

  lemma ListedHolds(hash: Hash, file: File, listed: seq<Account>, accounts: map<Name, Account>, next: nat)
    requires file.Stored? && ListsExactly(file.accounts, listed) && OneSet(hash, accounts, next)
    requires Gathered(listed, accounts, {})
    ensures Holds(file, accounts)
  {}
}
