/**
  When registrations succeed and files load, and what they leave, said of the records themselves
  (internal/online/auth/store.go, internal/online/auth/account_file.go).
 */
module AccountLaws {
  import opened Bytes
  import opened AuthMessages
  import opened Accounts

  /** The registrations counted for a source. */
  function Used(m: Memory, source: Source): int { if source in m.bySource then m.bySource[source] else 0 }

  /**
    A name is registered exactly when it is new, its hash is new, there is room for it in the store and for
    its source, and the file was written; then it has the next ID, and only its source is counted.
   */
  lemma RegisteredExactly(cfg: Config, w: World, name: Name, password: PasswordHash, source: Option<Source>,
                          outcome: WriteOutcome, v: World, r: Registration)
    requires w.memory.nextUserID + 1 < U64_LIMIT && Registers(cfg, w, name, password, source, outcome, v, r)
    ensures var m, m' := w.memory, v.memory;
            var roomy := |m.accounts| < cfg.maxAccounts;
            var allowed := source.Some? ==> Used(m, source.value) < cfg.maxPerSource;
            var unhashed := forall n | n in m.accounts :: m.accounts[n].accountHash != cfg.hash(name);
            && (r.Created? <==> name !in m.accounts && roomy && allowed && unhashed && (cfg.persistent ==> outcome == Succeeded))
            && (r.Created? ==>
                  && r.account == Account(m.nextUserID, name, password, cfg.hash(name))
                  && m'.accounts == m.accounts[name := r.account] && m'.nextUserID == m.nextUserID + 1
                  && forall other :: Used(m', other) == Used(m, other) + if source == Some(other) then 1 else 0)
            && (!r.Created? ==> m' == m)
            && (name in m.accounts ==> r == Existing(m.accounts[name]))
            && (r == Refused(AccountLimit) <==> name !in m.accounts && !roomy)
            && (r == Refused(SourceLimit) <==> name !in m.accounts && roomy && !allowed)
            && (r.Collision? <==> name !in m.accounts && roomy && allowed && !unhashed)
  {
    hide Holds;
    assert HashTaken(w.memory.accounts, cfg.hash(name)) <==>
        exists n :: n in w.memory.accounts && w.memory.accounts[n].accountHash == cfg.hash(name);
    hide HashTaken;
  }

  /** A stored account that may be loaded. */
  predicate Loadable(p: Persisted) {
    && p.userID > 0 && 1 <= |p.username| <= 64 && (forall i | 0 <= i < |p.username| :: 0x20 <= p.username[i] <= 0x7e)
    && p.passwordHash.Some? && |p.passwordHash.value| == 24
  }

  /** A file loads exactly when it has no more accounts than allowed, all loadable, no two alike in ID, name or hash, and none with the last ID. */
  lemma LoadsExactly(cfg: Config, ps: seq<Persisted>)
    ensures Loaded(cfg, Stored(ps)).Ok?
            <==> && |ps| <= cfg.maxAccounts
                 && (forall i | 0 <= i < |ps| :: Loadable(ps[i]) && ps[i].userID + 1 < 0x1_0000_0000_0000_0000)
                 && (forall i, j | 0 <= j < i < |ps| ::
                       ps[i].userID != ps[j].userID && ps[i].username != ps[j].username
                       && cfg.hash(ps[i].username) != cfg.hash(ps[j].username))
  {
    forall i | 0 <= i < |ps| ensures Loadable(ps[i]) <==> Decoded(cfg.hash, ps[i]).Some? {}
    hide Decoded, Loadable, FirstFault, AccountsOf;
  }

  /** What a loaded file leaves in memory: its accounts, with their names' hashes, and the ID after the largest. */
  lemma LoadedExactly(cfg: Config, ps: seq<Persisted>)
    requires Loaded(cfg, Stored(ps)).Ok?
    ensures var m := Loaded(cfg, Stored(ps)).value;
            && |m.accounts| == |ps| && m.bySource == map[]
            && (forall i | 0 <= i < |ps| ::
                  && ps[i].username in m.accounts && ps[i].passwordHash.Some? && |ps[i].passwordHash.value| == 24
                  && m.accounts[ps[i].username]
                     == Account(ps[i].userID, ps[i].username, ps[i].passwordHash.value, cfg.hash(ps[i].username))
                  && ps[i].userID < m.nextUserID)
            && (m.nextUserID == 1 || exists i :: 0 <= i < |ps| && ps[i].userID + 1 == m.nextUserID)
  {
    LoadedSize(cfg.hash, ps);
    forall i | 0 <= i < |ps|
      ensures ps[i].username in AccountsOf(cfg.hash, ps) && Decoded(cfg.hash, ps[i]) == Some(AccountsOf(cfg.hash, ps)[ps[i].username])
    {
      LoadedAt(cfg.hash, ps, i);
    }
    hide AccountsOf;
  }
}
