/**
  The account store and its file (internal/online/auth/store.go, internal/online/auth/account_file.go).

  The specification keeps one map from names to accounts. The file is missing or holds a list of
  persisted accounts; writing it can fail before or after the new list replaces the old one.
 */
module Accounts {
  import opened Bytes
  import opened Counts
  import opened Seqs
  import opened AuthMessages

  type Name = seq<byte>

  /** A normalised source address, used only for equality. */
  type Source = string

  /** BOZAccountHash. */
  type Hash = Name -> u64

  /** A stored account; the password hash as decoded from its hexadecimal digits, if it decodes. */
  datatype Persisted = Persisted(userID: u64, username: Name, passwordHash: Option<seq<byte>>)

  /** Unusable stands for a file that cannot be opened, is not private, too large or not valid JSON. */
  datatype File = Missing | Unusable | Stored(accounts: seq<Persisted>)

  datatype LoadError =
    | UnusableFile
    | TooManyAccounts
    | InvalidAccount
    | DuplicateUserID
    | DuplicateUsername
    | DuplicateAccountHash
    | UserIDsExhausted

  /** Where writing the account file can stop. */
  datatype WriteOutcome = FailedBeforeRename | FailedAfterRename | Succeeded

  datatype Config = Config(hash: Hash, maxAccounts: int, maxPerSource: int, persistent: bool)

  datatype Memory = Memory(accounts: map<Name, Account>, nextUserID: u64, bySource: map<Source, int>)

  datatype World = World(memory: Memory, file: File)

  datatype RegisterError = AccountLimit | SourceLimit | WriteFailed

  datatype Registration =
    | Existing(account: Account)
    | Created(account: Account)
    | Collision(account: Account)
    | Refused(error: RegisterError)

  // ---------- persisted accounts ----------

  function Persist(a: Account): Persisted {
    Persisted(a.userID, a.username, Some(a.passwordHash))
  }

  /** decodePersistedAccount. */
  function Decoded(hash: Hash, p: Persisted): Option<Account> {
    if p.userID == 0 || !ValidUsername(p.username) || p.passwordHash.None? || |p.passwordHash.value| != ACCOUNT_PASSWORD_SIZE
    then None
    else Some(Account(p.userID, p.username, p.passwordHash.value, hash(p.username)))
  }

  /** Reading back a persisted account gives the account, exactly when its name and ID are valid. */
  lemma PersistRoundTrip(hash: Hash, a: Account)
    requires a.accountHash == hash(a.username)
    ensures Decoded(hash, Persist(a)) == Some(a) <==> a.userID != 0 && ValidUsername(a.username)
  {}

  predicate AllDecode(hash: Hash, ps: seq<Persisted>) {
    forall i | 0 <= i < |ps| :: Decoded(hash, ps[i]).Some?
  }

  predicate Distinct(hash: Hash, ps: seq<Persisted>) {
    && (forall i, j | 0 <= i < j < |ps| :: ps[i].userID != ps[j].userID)
    && (forall i, j | 0 <= i < j < |ps| :: ps[i].username != ps[j].username)
    && (forall i, j | 0 <= i < j < |ps| :: hash(ps[i].username) != hash(ps[j].username))
  }

  // ---------- loading ----------

  function AccountsOf(hash: Hash, ps: seq<Persisted>): map<Name, Account>
    requires AllDecode(hash, ps)
  {
    if ps == [] then map[]
    else
      var a := Decoded(hash, ps[|ps| - 1]).value;
      AccountsOf(hash, ps[..|ps| - 1])[a.username := a]
  }

  /** One more than the largest ID. */
  function NextID(ps: seq<Persisted>): (n: nat)
    ensures 1 <= n <= U64_LIMIT
    ensures forall i | 0 <= i < |ps| :: ps[i].userID < n
    ensures n > 1 ==> exists i :: 0 <= i < |ps| && ps[i].userID + 1 == n
  {
    if ps == [] then 1
    else
      var n, id := NextID(ps[..|ps| - 1]), ps[|ps| - 1].userID;
      if id >= n then id + 1 else n
  }

  /** What the constructor does with the file. */
  function Loaded(cfg: Config, file: File): Result<Memory, LoadError> {
    match file
    case Missing => Ok(Memory(map[], 1, map[]))
    case Unusable => Err(UnusableFile)
    case Stored(ps) =>
      if |ps| > cfg.maxAccounts then Err(TooManyAccounts)
      else if !AllDecode(cfg.hash, ps) || !Distinct(cfg.hash, ps) then Err(FirstFault(cfg.hash, ps))
      else if NextID(ps) == U64_LIMIT then Err(UserIDsExhausted)
      else Ok(Memory(AccountsOf(cfg.hash, ps), NextID(ps), map[]))
  }

  /** The error of the first account that does not decode or repeats an ID, name or hash. */
  function FirstFault(hash: Hash, ps: seq<Persisted>): LoadError
    requires !AllDecode(hash, ps) || !Distinct(hash, ps)
  {
    var init := ps[..|ps| - 1];
    if !AllDecode(hash, init) || !Distinct(hash, init) then FirstFault(hash, init)
    else
      var last := ps[|ps| - 1];
      if Decoded(hash, last).None? then InvalidAccount
      else if exists i | 0 <= i < |init| :: init[i].userID == last.userID then DuplicateUserID
      else if exists i | 0 <= i < |init| :: init[i].username == last.username then DuplicateUsername
      else DuplicateAccountHash
  }

  // ---------- one set of accounts ----------

  /** The accounts of a map are filed under their own names, with their names' hashes, and no two share an ID or hash. */
  ghost predicate OneSet(hash: Hash, accounts: map<Name, Account>, next: nat) {
    && (forall n | n in accounts ::
          accounts[n].username == n && accounts[n].accountHash == hash(n) && 1 <= accounts[n].userID < next)
    && (forall m, n | m in accounts && n in accounts && m != n ::
          accounts[m].userID != accounts[n].userID && hash(m) != hash(n))
  }

  predicate AllValid(accounts: map<Name, Account>) {
    forall n | n in accounts :: ValidUsername(n)
  }

  function IDOf(): Persisted -> int { (p: Persisted) => p.userID }

  /** The file holds exactly these accounts, in order of their IDs. */
  ghost predicate Holds(file: File, accounts: map<Name, Account>) {
    && file.Stored?
    && Increasing(file.accounts, IDOf())
    && (forall n | n in accounts :: Persist(accounts[n]) in file.accounts)
    && (forall p | p in file.accounts :: p.username in accounts && p == Persist(accounts[p.username]))
  }

  lemma {:induction false} LoadedNames(hash: Hash, ps: seq<Persisted>, n: Name)
    requires AllDecode(hash, ps)
    ensures n in AccountsOf(hash, ps) <==> exists i :: 0 <= i < |ps| && ps[i].username == n
  {
    hide Decoded;
    if ps != [] {
      var last := |ps| - 1;
      LoadedNames(hash, ps[..last], n);
      DecodedName(hash, ps[last]);
      if i :| 0 <= i < |ps| && ps[i].username == n && i < last { assert ps[..last][i].username == n; }
    }
  }

  lemma {:induction false} LoadedAt(hash: Hash, ps: seq<Persisted>, i: nat)
    requires AllDecode(hash, ps) && Distinct(hash, ps) && i < |ps|
    ensures var n := ps[i].username;
            n in AccountsOf(hash, ps) && Decoded(hash, ps[i]) == Some(AccountsOf(hash, ps)[n])
  {
    hide Decoded;
    var last := |ps| - 1;
    DecodedName(hash, ps[last]);
    if i < last { LoadedAt(hash, ps[..last], i); }
  }

  lemma {:induction false} LoadedSize(hash: Hash, ps: seq<Persisted>)
    requires AllDecode(hash, ps) && Distinct(hash, ps)
    ensures |AccountsOf(hash, ps)| == |ps|
  {
    hide Decoded;
    if ps != [] {
      var last := |ps| - 1;
      LoadedSize(hash, ps[..last]);
      DecodedName(hash, ps[last]);
      LoadedNames(hash, ps[..last], ps[last].username);
    }
  }

  lemma DecodedName(hash: Hash, p: Persisted)
    requires Decoded(hash, p).Some?
    ensures Decoded(hash, p).value.username == p.username && Decoded(hash, p).value.userID == p.userID
    ensures p.userID != 0 && ValidUsername(p.username) && Decoded(hash, p).value.accountHash == hash(p.username)
  {}

  /** Whatever loads is one set of valid accounts with all IDs below the next one. */
  lemma LoadedIsOneSet(cfg: Config, file: File)
    requires Loaded(cfg, file).Ok?
    ensures var m := Loaded(cfg, file).value;
            OneSet(cfg.hash, m.accounts, m.nextUserID) && AllValid(m.accounts) && m.bySource == map[] && m.nextUserID >= 1
            && (1 <= cfg.maxAccounts ==> |m.accounts| <= cfg.maxAccounts)
  {
    if file.Stored? {
      var ps := file.accounts;
      var m := Loaded(cfg, file).value;
      LoadedSize(cfg.hash, ps);
      LoadedSet(cfg.hash, ps);
    }
  }

  lemma LoadedSet(hash: Hash, ps: seq<Persisted>)
    requires AllDecode(hash, ps) && Distinct(hash, ps)
    ensures OneSet(hash, AccountsOf(hash, ps), NextID(ps)) && AllValid(AccountsOf(hash, ps))
  {
    hide Decoded, AccountsOf, ValidUsername, NextID;
    var accounts := AccountsOf(hash, ps);
    forall n | n in accounts ensures ComesFrom(hash, ps, n, accounts) {
      LoadedNames(hash, ps, n);
      var i :| 0 <= i < |ps| && ps[i].username == n;
      LoadedAt(hash, ps, i);
      DecodedName(hash, ps[i]);
      assert IsAt(hash, ps, i, accounts);
    }
    forall m, n | m in accounts && n in accounts && m != n
      ensures accounts[m].userID != accounts[n].userID && hash(m) != hash(n)
    {
      assert ComesFrom(hash, ps, m, accounts) && ComesFrom(hash, ps, n, accounts);
      var i :| 0 <= i < |ps| && ps[i].username == m && IsAt(hash, ps, i, accounts);
      var j :| 0 <= j < |ps| && ps[j].username == n && IsAt(hash, ps, j, accounts);
    }
    forall n | n in accounts
      ensures accounts[n].username == n && accounts[n].accountHash == hash(n) && 1 <= accounts[n].userID < NextID(ps)
      ensures ValidUsername(n)
    {
      assert ComesFrom(hash, ps, n, accounts);
      var i :| 0 <= i < |ps| && ps[i].username == n && IsAt(hash, ps, i, accounts);
    }
  }

  ghost predicate ComesFrom(hash: Hash, ps: seq<Persisted>, n: Name, accounts: map<Name, Account>) {
    exists i :: 0 <= i < |ps| && ps[i].username == n && IsAt(hash, ps, i, accounts)
  }

  /** The i-th persisted account is filed under its name. */
  ghost predicate IsAt(hash: Hash, ps: seq<Persisted>, i: nat, accounts: map<Name, Account>)
    requires i < |ps|
  {
    var n := ps[i].username;
    && n in accounts && ValidUsername(n) && ps[i].userID != 0
    && accounts[n].username == n && accounts[n].userID == ps[i].userID && accounts[n].accountHash == hash(n)
  }

  /** A file of one set reads back as that set exactly when all its names are valid. */
  lemma ReloadExact(cfg: Config, file: File, accounts: map<Name, Account>, next: nat)
    requires Holds(file, accounts) && OneSet(cfg.hash, accounts, next) && 1 <= next < U64_LIMIT && |accounts| <= cfg.maxAccounts
    ensures Loaded(cfg, file).Ok? <==> AllValid(accounts)
    ensures Loaded(cfg, file).Ok? ==> Loaded(cfg, file).value.accounts == accounts && Loaded(cfg, file).value.nextUserID <= next
  {
    HeldSize(file, accounts);
    HeldDistinct(cfg.hash, file, accounts, next);
    HeldDecode(cfg.hash, file, accounts, next);
    hide Loaded, AllDecode, Distinct, NextID, AccountsOf, AllValid, OneSet, Holds;
    var ps := file.accounts;
    LoadedExact(cfg, ps);
    if accounts == map[] { NextOfNone(); }
    if AllValid(accounts) { LoadedHeld(cfg.hash, file, accounts, next); }
  }

  lemma LoadedExact(cfg: Config, ps: seq<Persisted>)
    requires |ps| <= cfg.maxAccounts
    ensures Loaded(cfg, Stored(ps)).Ok? <==> AllDecode(cfg.hash, ps) && Distinct(cfg.hash, ps) && NextID(ps) < U64_LIMIT
    ensures Loaded(cfg, Stored(ps)).Ok? ==> Loaded(cfg, Stored(ps)).value == Memory(AccountsOf(cfg.hash, ps), NextID(ps), map[])
  {
    hide AllDecode, Distinct, AccountsOf, FirstFault;
  }

  lemma NextOfNone()
    ensures NextID([]) == 1
  {}

  lemma LoadedHeld(hash: Hash, file: File, accounts: map<Name, Account>, next: nat)
    requires Holds(file, accounts) && OneSet(hash, accounts, next) && AllValid(accounts)
    requires AllDecode(hash, file.accounts) && Distinct(hash, file.accounts)
    ensures AccountsOf(hash, file.accounts) == accounts
  {
    hide Decoded, AccountsOf, ValidUsername, Distinct, AllDecode;
    var ps := file.accounts;
    var loaded := AccountsOf(hash, ps);
    forall n | n in accounts ensures n in loaded && loaded[n] == accounts[n] {
      var i :| 0 <= i < |ps| && ps[i] == Persist(accounts[n]);
      LoadedAt(hash, ps, i);
      PersistRoundTrip(hash, accounts[n]);
    }
    forall n | n in loaded ensures n in accounts {
      LoadedNames(hash, ps, n);
      var i :| 0 <= i < |ps| && ps[i].username == n;
      assert ps[i] in ps;
    }
  }

  lemma HeldDecode(hash: Hash, file: File, accounts: map<Name, Account>, next: nat)
    requires Holds(file, accounts) && OneSet(hash, accounts, next)
    ensures AllDecode(hash, file.accounts) <==> AllValid(accounts)
  {
    var ps := file.accounts;
    hide Decoded, ValidUsername;
    forall i | 0 <= i < |ps| ensures Decoded(hash, ps[i]).Some? <==> ValidUsername(ps[i].username) {
      assert ps[i] in ps;
      PersistedDecodes(hash, accounts[ps[i].username]);
    }
    if AllDecode(hash, ps) {
      forall n | n in accounts ensures ValidUsername(n) {
        var i :| 0 <= i < |ps| && ps[i] == Persist(accounts[n]);
      }
    }
    if AllValid(accounts) {
      forall i | 0 <= i < |ps| ensures Decoded(hash, ps[i]).Some? {
        assert ps[i] in ps;
      }
    }
  }

  lemma PersistedDecodes(hash: Hash, a: Account)
    requires a.userID != 0
    ensures Decoded(hash, Persist(a)).Some? <==> ValidUsername(a.username)
  {}

  lemma HeldDistinct(hash: Hash, file: File, accounts: map<Name, Account>, next: nat)
    requires Holds(file, accounts) && OneSet(hash, accounts, next)
    ensures Distinct(hash, file.accounts) && (NextID(file.accounts) <= next || accounts == map[])
  {
    var ps := file.accounts;
    forall i, j | 0 <= i < j < |ps|
      ensures ps[i].userID != ps[j].userID && ps[i].username != ps[j].username
              && hash(ps[i].username) != hash(ps[j].username)
    {
      assert ps[i] in ps && ps[j] in ps;
      assert IDOf()(ps[i]) < IDOf()(ps[j]);
    }
    if NextID(ps) > 1 {
      var i :| 0 <= i < |ps| && ps[i].userID + 1 == NextID(ps);
      assert ps[i] in ps;
    }
  }

  lemma HeldSize(file: File, accounts: map<Name, Account>)
    requires Holds(file, accounts) && forall n | n in accounts :: accounts[n].username == n
    ensures |file.accounts| == |accounts|
  {
    var ps := file.accounts;
    forall i, j | 0 <= i < j < |ps| ensures ps[i].username != ps[j].username {
      assert ps[i] in ps && ps[j] in ps;
      assert IDOf()(ps[i]) < IDOf()(ps[j]);
    }
    NamesCounted(ps);
    forall n | n in accounts ensures n in Names(ps) {
      assert Persist(accounts[n]) in ps;
    }
    assert Names(ps) == accounts.Keys;
  }

  function Names(ps: seq<Persisted>): set<Name> { set p | p in ps :: p.username }

  lemma NamesSnoc(init: seq<Persisted>, last: Persisted)
    ensures Names(init + [last]) == Names(init) + {last.username}
    ensures (forall i | 0 <= i < |init| :: init[i].username != last.username) ==> last.username !in Names(init)
  {}

  lemma {:induction false} NamesCounted(ps: seq<Persisted>)
    requires forall i, j | 0 <= i < j < |ps| :: ps[i].username != ps[j].username
    ensures |Names(ps)| == |ps|
  {
    if ps != [] {
      var init, last := ps[..|ps| - 1], ps[|ps| - 1];
      NamesCounted(init);
      assert ps == init + [last];
      hide Names;
      NamesSnoc(init, last);
      assert last.username !in Names(init);
    }
  }

  // ---------- steps ----------

  function Counted(counts: map<Source, int>, source: Option<Source>): map<Source, int> {
    if source.Some? then counts[source.value := CountOf(counts, source.value) + 1] else counts
  }

  /** The account that a registration would add. */
  function NewAccount(cfg: Config, m: Memory, name: Name, password: PasswordHash): Account
    requires m.nextUserID < U64_LIMIT
  {
    Account(m.nextUserID, name, password, cfg.hash(name))
  }

  ghost predicate HashTaken(accounts: map<Name, Account>, h: u64) {
    exists n :: n in accounts && accounts[n].accountHash == h
  }

  /** How one registration, from this source if it is limited, takes the world from w to v. */
  ghost predicate Registers(cfg: Config, w: World, name: Name, password: PasswordHash, source: Option<Source>,
                            outcome: WriteOutcome, v: World, r: Registration)
    requires w.memory.nextUserID + 1 < U64_LIMIT
  {
    var m := w.memory;
    if name in m.accounts then v == w && r == Existing(m.accounts[name])
    else if |m.accounts| >= cfg.maxAccounts then v == w && r == Refused(AccountLimit)
    else if source.Some? && CountOf(m.bySource, source.value) >= cfg.maxPerSource then v == w && r == Refused(SourceLimit)
    else if HashTaken(m.accounts, cfg.hash(name)) then
      v == w && r.Collision? && r.account.accountHash == cfg.hash(name)
      && r.account.username in m.accounts && m.accounts[r.account.username] == r.account
    else
      var a := NewAccount(cfg, m, name, password);
      var all := m.accounts[name := a];
      var added := Memory(all, m.nextUserID + 1, Counted(m.bySource, source));
      if !cfg.persistent then v == World(added, w.file) && r == Created(a)
      else
        match outcome
        case FailedBeforeRename => v == w && r == Refused(WriteFailed)
        case FailedAfterRename => v.memory == m && Holds(v.file, all) && r == Refused(WriteFailed)
        case Succeeded => v.memory == added && Holds(v.file, all) && r == Created(a)
  }

  datatype Event =
    | Register(name: Name, password: PasswordHash, source: Option<Source>, outcome: WriteOutcome, result: Registration)
    | Restart

  /** A step of a server whose account file is its only memory across restarts. */
  ghost predicate Next(cfg: Config, w: World, e: Event, v: World) {
    match e
    case Register(name, password, source, outcome, r) =>
      && w.memory.nextUserID + 1 < U64_LIMIT && ValidUsername(name)
      && Registers(cfg, w, name, password, source, outcome, v, r)
    case Restart => v.file == w.file && Loaded(cfg, w.file) == Ok(v.memory)
  }

  // ---------- durability ----------

  /** An account that was written although its registration was reported to have failed. */
  ghost predicate Unacknowledged(cfg: Config, m: Memory, a: Account) {
    && a.username !in m.accounts && ValidUsername(a.username)
    && a.userID == m.nextUserID && a.accountHash == cfg.hash(a.username)
    && !HashTaken(m.accounts, a.accountHash) && |m.accounts| < cfg.maxAccounts
  }

  /** The file holds the accounts in memory, or those and one unacknowledged account. */
  ghost predicate FileFollows(cfg: Config, w: World) {
    || (w.file == Missing && w.memory.accounts == map[])
    || Holds(w.file, w.memory.accounts)
    || exists a :: Unacknowledged(cfg, w.memory, a) && Holds(w.file, w.memory.accounts[a.username := a])
  }

  ghost predicate QuotasKept(cfg: Config, counts: map<Source, int>) {
    forall s | s in counts :: 1 <= counts[s] <= cfg.maxPerSource
  }

  ghost predicate Durable(cfg: Config, w: World) {
    && QuotasKept(cfg, w.memory.bySource)
    && OneSet(cfg.hash, w.memory.accounts, w.memory.nextUserID) && AllValid(w.memory.accounts)
    && 1 <= w.memory.nextUserID < U64_LIMIT && |w.memory.accounts| <= cfg.maxAccounts
    && FileFollows(cfg, w)
  }

  /** Adding an account with the next ID and a free name and hash. */
  lemma OneSetAdd(hash: Hash, accounts: map<Name, Account>, next: u64, a: Account)
    requires OneSet(hash, accounts, next) && 1 <= next && a.userID == next && a.accountHash == hash(a.username)
    requires a.username !in accounts && !HashTaken(accounts, a.accountHash)
    ensures OneSet(hash, accounts[a.username := a], next + 1)
  {}

  lemma RegisterKeeps(cfg: Config, w: World, e: Event, v: World)
    requires cfg.persistent && Durable(cfg, w) && e.Register? && Next(cfg, w, e, v)
    ensures Durable(cfg, v)
    ensures forall n | n in w.memory.accounts :: n in v.memory.accounts && v.memory.accounts[n] == w.memory.accounts[n]
  {
    hide Holds, ValidUsername, OneSet, HashTaken;
    var m := w.memory;
    var a := NewAccount(cfg, m, e.name, e.password);
    if v != w {
      OneSetAdd(cfg.hash, m.accounts, m.nextUserID, a);
      if e.outcome == FailedAfterRename {
        assert Unacknowledged(cfg, v.memory, a) && Holds(v.file, v.memory.accounts[a.username := a]);
      } else {
        CountedKept(cfg, m.bySource, e.source);
      }
    }
  }

  lemma CountedKept(cfg: Config, counts: map<Source, int>, source: Option<Source>)
    requires QuotasKept(cfg, counts) && (source.Some? ==> CountOf(counts, source.value) < cfg.maxPerSource)
    ensures QuotasKept(cfg, Counted(counts, source))
  {}

  /**
    A restart always succeeds. It leaves the accounts in memory as they are, except that it adds the
    unacknowledged account if the file holds one.
   */
  lemma RestartKeeps(cfg: Config, w: World)
    requires cfg.persistent && Durable(cfg, w) && w.memory.nextUserID + 1 < U64_LIMIT
    ensures Loaded(cfg, w.file).Ok?
    ensures var m := Loaded(cfg, w.file).value;
            && Durable(cfg, World(m, w.file))
            && (w.file == Missing || Holds(w.file, w.memory.accounts) ==> m.accounts == w.memory.accounts)
            && (forall a | Unacknowledged(cfg, w.memory, a) && Holds(w.file, w.memory.accounts[a.username := a]) ::
                  m.accounts == w.memory.accounts[a.username := a])
  {
    hide Loaded, ValidUsername, OneSet, AllValid, Holds, HashTaken, FileFollows;
    var m := w.memory;
    LoadedMissing(cfg);
    if Holds(w.file, m.accounts) {
      RestartHeld(cfg, w.file, m.accounts, m.nextUserID);
    }
    forall a | Unacknowledged(cfg, m, a) && Holds(w.file, m.accounts[a.username := a])
      ensures Reloads(cfg, w.file, m.accounts[a.username := a])
    {
      RestartAdds(cfg, w, a);
    }
    FollowsHow(cfg, w);
    InitialDurable(cfg);
  }

  /** The file loads as exactly these accounts, into a durable state. */
  ghost predicate Reloads(cfg: Config, file: File, accounts: map<Name, Account>) {
    && Loaded(cfg, file).Ok? && Loaded(cfg, file).value.accounts == accounts
    && Durable(cfg, World(Loaded(cfg, file).value, file))
  }

  lemma FollowsHow(cfg: Config, w: World)
    requires FileFollows(cfg, w)
    ensures || (w.file == Missing && w.memory.accounts == map[])
            || Holds(w.file, w.memory.accounts)
            || exists a :: Unacknowledged(cfg, w.memory, a) && Holds(w.file, w.memory.accounts[a.username := a])
    ensures w.file == Missing ==> w.memory.accounts == map[]
  {}

  lemma RestartAdds(cfg: Config, w: World, a: Account)
    requires cfg.persistent && Durable(cfg, w) && w.memory.nextUserID + 1 < U64_LIMIT
    requires Unacknowledged(cfg, w.memory, a) && Holds(w.file, w.memory.accounts[a.username := a])
    ensures Reloads(cfg, w.file, w.memory.accounts[a.username := a])
  {
    hide Loaded, ValidUsername, OneSet, AllValid, Holds, HashTaken, FileFollows;
    var m := w.memory;
    OneSetAdd(cfg.hash, m.accounts, m.nextUserID, a);
    AllValidAdd(m.accounts, a);
    RestartHeld(cfg, w.file, m.accounts[a.username := a], m.nextUserID + 1);
  }

  /** What a restart adds, if anything. */
  lemma Added(cfg: Config, w: World) returns (extra: Option<Account>)
    requires cfg.persistent && Durable(cfg, w) && w.memory.nextUserID + 1 < U64_LIMIT
    ensures Loaded(cfg, w.file).Ok?
    ensures match extra
            case None => Loaded(cfg, w.file).value.accounts == w.memory.accounts
            case Some(a) => Unacknowledged(cfg, w.memory, a) && Holds(w.file, w.memory.accounts[a.username := a])
                            && Loaded(cfg, w.file).value.accounts == w.memory.accounts[a.username := a]
  {
    hide Loaded, ValidUsername, OneSet, AllValid, Holds, HashTaken, FileFollows, QuotasKept, Unacknowledged;
    RestartKeeps(cfg, w);
    FollowsHow(cfg, w);
    extra := None;
    if !(w.file == Missing || Holds(w.file, w.memory.accounts)) {
      var a :| Unacknowledged(cfg, w.memory, a) && Holds(w.file, w.memory.accounts[a.username := a]);
      extra := Some(a);
    }
  }

  /** In either case every account in memory stays as it is. */
  lemma RestartGrows(cfg: Config, w: World, n: Name)
    requires cfg.persistent && Durable(cfg, w) && w.memory.nextUserID + 1 < U64_LIMIT && n in w.memory.accounts
    ensures Loaded(cfg, w.file).Ok?
    ensures var m := Loaded(cfg, w.file).value; n in m.accounts && m.accounts[n] == w.memory.accounts[n]
  {
    hide Loaded, ValidUsername, Durable, Holds, HashTaken;
    var extra := Added(cfg, w);
  }

  lemma AllValidAdd(accounts: map<Name, Account>, a: Account)
    requires AllValid(accounts) && ValidUsername(a.username)
    ensures AllValid(accounts[a.username := a])
  {}

  lemma RestartHeld(cfg: Config, file: File, accounts: map<Name, Account>, next: nat)
    requires Holds(file, accounts) && OneSet(cfg.hash, accounts, next) && AllValid(accounts)
    requires 1 <= next < U64_LIMIT && |accounts| <= cfg.maxAccounts
    ensures Loaded(cfg, file).Ok? && Loaded(cfg, file).value.accounts == accounts
    ensures Durable(cfg, World(Loaded(cfg, file).value, file))
  {
    hide Loaded, AllValid, Holds, OneSet;
    ReloadExact(cfg, file, accounts, next);
    LoadedIsOneSet(cfg, file);
  }

  lemma LoadedMissing(cfg: Config)
    ensures Loaded(cfg, Missing) == Ok(Memory(map[], 1, map[]))
  {}

  // ---------- runs ----------

  ghost predicate IsRun(cfg: Config, ws: seq<World>, es: seq<Event>) {
    && |ws| == |es| + 1
    && ws[0] == World(Memory(map[], 1, map[]), Missing)
    && (forall i | 0 <= i < |es| :: Next(cfg, ws[i], es[i], ws[i + 1]))
    && (forall i | 0 <= i < |ws| :: ws[i].memory.nextUserID + 1 < U64_LIMIT)
  }

  lemma RunStep(cfg: Config, ws: seq<World>, es: seq<Event>, i: nat)
    requires IsRun(cfg, ws, es) && i + 1 < |ws|
    ensures i < |es| && Next(cfg, ws[i], es[i], ws[i + 1]) && ws[i].memory.nextUserID + 1 < U64_LIMIT
  {
    hide Next;
  }

  /**
    In every run, wherever writes fail and however often the server restarts: the file holds the
    accounts in memory or those and one unacknowledged account, the accounts are one set with all IDs
    below the next one, and the file loads.
   */
  lemma {:induction false} AlwaysDurable(cfg: Config, ws: seq<World>, es: seq<Event>, i: nat)
    requires cfg.persistent && cfg.maxAccounts >= 1 && IsRun(cfg, ws, es) && i < |ws|
    ensures Durable(cfg, ws[i]) && Loaded(cfg, ws[i].file).Ok?
  {
    hide Loaded, Registers, FileFollows, OneSet, AllValid, Holds, ValidUsername;
    if i == 0 {
      InitialDurable(cfg);
    } else {
      AlwaysDurable(cfg, ws, es, i - 1);
      RunStep(cfg, ws, es, i - 1);
      if es[i - 1].Register? {
        RegisterKeeps(cfg, ws[i - 1], es[i - 1], ws[i]);
      } else {
        RestartKeeps(cfg, ws[i - 1]);
        assert ws[i] == World(Loaded(cfg, ws[i - 1].file).value, ws[i - 1].file);
      }
    }
    RestartKeeps(cfg, ws[i]);
  }

  lemma InitialDurable(cfg: Config)
    requires cfg.maxAccounts >= 0
    ensures Durable(cfg, World(Memory(map[], 1, map[]), Missing))
  {}

  lemma {:induction false} AccountsStay(cfg: Config, ws: seq<World>, es: seq<Event>, i: nat, j: nat, n: Name)
    requires cfg.persistent && cfg.maxAccounts >= 1 && IsRun(cfg, ws, es) && i <= j < |ws|
    requires n in ws[i].memory.accounts
    ensures n in ws[j].memory.accounts && ws[j].memory.accounts[n] == ws[i].memory.accounts[n]
  {
    hide Loaded, Registers, Durable;
    if i < j {
      AccountsStay(cfg, ws, es, i, j - 1, n);
      AlwaysDurable(cfg, ws, es, j - 1);
      RunStep(cfg, ws, es, j - 1);
      if es[j - 1].Register? {
        RegisterKeeps(cfg, ws[j - 1], es[j - 1], ws[j]);
      } else {
        RestartGrows(cfg, ws[j - 1], n);
      }
    }
  }

  /**
    Every acknowledged registration survives all later failures and restarts with the same ID, hash and
    password, and stays in the file.
   */
  lemma AcknowledgedSurvives(cfg: Config, ws: seq<World>, es: seq<Event>, i: nat, j: nat)
    requires cfg.persistent && cfg.maxAccounts >= 1 && IsRun(cfg, ws, es) && i < j < |ws|
    requires es[i].Register? && es[i].result.Created?
    ensures var a := es[i].result.account;
            && a == Account(ws[i].memory.nextUserID, es[i].name, es[i].password, cfg.hash(es[i].name))
            && a.username in ws[j].memory.accounts && ws[j].memory.accounts[a.username] == a
            && ws[j].file.Stored? && Persist(a) in ws[j].file.accounts
  {
    RunStep(cfg, ws, es, i);
    AccountsStay(cfg, ws, es, i + 1, j, es[i].name);
    AlwaysDurable(cfg, ws, es, j);
    hide Loaded, Registers, IsRun, OneSet, AllValid;
    var w := ws[j];
    if !Holds(w.file, w.memory.accounts) {
      var b :| Unacknowledged(cfg, w.memory, b) && Holds(w.file, w.memory.accounts[b.username := b]);
      assert w.memory.accounts[b.username := b][es[i].name] == es[i].result.account;
    }
  }

  // ---------- unacknowledged accounts ----------

  /**
    A registration whose write failed after the rename is reported as failed and leaves memory as it
    was; a restart right after it finds the account registered, with its ID, hash and password.
   */
  lemma UnacknowledgedAppears(cfg: Config, ws: seq<World>, es: seq<Event>, i: nat)
    requires cfg.persistent && cfg.maxAccounts >= 1 && IsRun(cfg, ws, es) && i + 1 < |es|
    requires es[i].Register? && es[i].outcome == FailedAfterRename && es[i].result == Refused(WriteFailed)
    requires es[i + 1] == Restart
    ensures ws[i + 1].memory == ws[i].memory && es[i].name !in ws[i + 1].memory.accounts
    ensures ws[i + 2].memory.accounts
            == ws[i].memory.accounts[es[i].name := NewAccount(cfg, ws[i].memory, es[i].name, es[i].password)]
  {
    RunStep(cfg, ws, es, i);
    RunStep(cfg, ws, es, i + 1);
    AlwaysDurable(cfg, ws, es, i + 1);
    hide Loaded, Durable, Holds, IsRun;
    RestartKeeps(cfg, ws[i + 1]);
  }

  /** Neither in memory nor in the file. */
  ghost predicate Gone(w: World, name: Name) {
    && name !in w.memory.accounts
    && (w.file.Stored? ==> forall p | p in w.file.accounts :: p.username != name)
  }

  /** The event replaced the file, whether or not it was acknowledged. */
  predicate Replaces(e: Event) {
    e.Register? && (e.result.Created? || (e.result == Refused(WriteFailed) && e.outcome == FailedAfterRename))
  }

  lemma ReplacedGone(cfg: Config, w: World, e: Event, v: World, name: Name)
    requires cfg.persistent && Next(cfg, w, e, v) && Replaces(e) && e.name != name && name !in w.memory.accounts
    ensures Gone(v, name)
  {
    hide HashTaken, ValidUsername;
  }

  lemma HoldsOthers(w: World, accounts: map<Name, Account>, name: Name)
    requires Holds(w.file, accounts) && name !in accounts
    ensures name !in w.memory.accounts ==> Gone(w, name)
  {}

  lemma RegisterStaysGone(cfg: Config, w: World, e: Event, v: World, name: Name)
    requires cfg.persistent && Next(cfg, w, e, v) && e.Register? && e.name != name && Gone(w, name)
    ensures Gone(v, name)
  {
    hide Holds, HashTaken, ValidUsername, Gone;
    NotInMemory(w, name);
    if v != w { HoldsOthers(v, w.memory.accounts[e.name := NewAccount(cfg, w.memory, e.name, e.password)], name); }
  }

  lemma NotInMemory(w: World, name: Name)
    requires Gone(w, name)
    ensures name !in w.memory.accounts
  {}

  lemma HeldInFile(w: World, accounts: map<Name, Account>, n: Name, name: Name)
    requires Gone(w, name) && Holds(w.file, accounts) && n in accounts && accounts[n].username == n
    ensures n != name
  {
    assert Persist(accounts[n]) in w.file.accounts;
  }

  lemma RestartStaysGone(cfg: Config, w: World, name: Name)
    requires cfg.persistent && Durable(cfg, w) && w.memory.nextUserID + 1 < U64_LIMIT && Gone(w, name)
    ensures Loaded(cfg, w.file).Ok? && Gone(World(Loaded(cfg, w.file).value, w.file), name)
  {
    hide Loaded, ValidUsername, Durable, Holds, HashTaken;
    var extra := Added(cfg, w);
    if extra.Some? {
      HeldInFile(w, w.memory.accounts[extra.value.username := extra.value], extra.value.username, name);
    }
  }

  lemma StaysGone(cfg: Config, w: World, e: Event, v: World, name: Name)
    requires cfg.persistent && Durable(cfg, w) && Next(cfg, w, e, v) && w.memory.nextUserID + 1 < U64_LIMIT
    requires Gone(w, name) && !(e.Register? && e.name == name)
    ensures Gone(v, name)
  {
    hide Loaded, Durable, Gone, Registers, ValidUsername;
    if e.Register? {
      RegisterStaysGone(cfg, w, e, v, name);
    } else {
      RestartStaysGone(cfg, w, name);
      assert v == World(Loaded(cfg, w.file).value, w.file);
    }
  }

  /**
    An account that is only in the file, because its own registration was never acknowledged, vanishes
    with the next registration of another name that reaches the file: it is in no later memory or file,
    whatever fails and however often the server restarts, until the name is registered again.
   */
  lemma {:induction false} UnacknowledgedVanishes(cfg: Config, ws: seq<World>, es: seq<Event>, i: nat, j: nat, name: Name)
    requires cfg.persistent && cfg.maxAccounts >= 1 && IsRun(cfg, ws, es) && i < j < |ws|
    requires Replaces(es[i]) && es[i].name != name && name !in ws[i].memory.accounts
    requires forall k | i < k < j :: !(es[k].Register? && es[k].name == name)
    ensures Gone(ws[j], name)
  {
    hide Next, Durable, Gone;
    RunStep(cfg, ws, es, j - 1);
    if j == i + 1 {
      ReplacedGone(cfg, ws[i], es[i], ws[j], name);
    } else {
      UnacknowledgedVanishes(cfg, ws, es, i, j - 1, name);
      AlwaysDurable(cfg, ws, es, j - 1);
      StaysGone(cfg, ws[j - 1], es[j - 1], ws[j], name);
    }
  }

  // ---------- invalid names ----------

  /** A name that is not valid is the only thing that makes a written file fail to load. */
  lemma InvalidNameBreaksReload(cfg: Config, w: World, name: Name, password: PasswordHash, source: Option<Source>, v: World, r: Registration)
    requires cfg.persistent && Durable(cfg, w) && w.memory.nextUserID + 1 < U64_LIMIT
    requires Registers(cfg, w, name, password, source, Succeeded, v, r) && r.Created?
    ensures Loaded(cfg, v.file).Ok? <==> ValidUsername(name)
  {
    hide Loaded, ValidUsername;
    var a := NewAccount(cfg, w.memory, name, password);
    OneSetAdd(cfg.hash, w.memory.accounts, w.memory.nextUserID, a);
    ReloadExact(cfg, v.file, v.memory.accounts, v.memory.nextUserID);
  }

  /** Such a name: registering the one byte 0x07 on an empty server succeeds and leaves a file that cannot be loaded. */
  lemma InvalidNameExample(cfg: Config, password: PasswordHash) returns (v: World)
    requires cfg.persistent && cfg.maxAccounts >= 1
    ensures var w := World(Memory(map[], 1, map[]), Missing);
            Registers(cfg, w, [7], password, None, Succeeded, v, Created(Account(1, [7], password, cfg.hash([7]))))
    ensures Loaded(cfg, v.file) == Err(InvalidAccount)
  {
    var w := World(Memory(map[], 1, map[]), Missing);
    var name: Name := [7];
    var a := NewAccount(cfg, w.memory, name, password);
    v := World(Memory(map[name := a], 2, map[]), Stored([Persist(a)]));
    assert w.memory.accounts[name := a] == map[name := a];
    assert Persist(a) in v.file.accounts;
    assert !ValidUsername(name) by { assert name[0] == 7; }
    assert Decoded(cfg.hash, v.file.accounts[0]).None?;
    assert v.file.accounts[..0] == [];
  }
}
