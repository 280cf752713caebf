/** The account hash of a name (internal/online/auth/store.go). */
module AccountHash {
  import opened Bytes
  import opened AuthMessages
  import opened Accounts
  import Tiger
  import Laws = TigerLaws

  function LowerByte(c: byte): byte { if 'A' as int <= c <= 'Z' as int then c + 32 else c }

  /** strings.ToLower on the printable ASCII names that accounts have. */
  function Lower(name: Name): (r: Name)
    ensures |r| == |name|
  {
    seq(|name|, i requires 0 <= i < |name| => LowerByte(name[i]))
  }

  function BOZAccountHash(t: Tiger.Tables, name: Name): u64 {
    FromLE64(Tiger.Digest(t, Lower(name))[..8])
  }

  /**
    The hash is the number whose digits to base 256, least significant first, are the first eight bytes of
    the digest of the name with its capital letters replaced by small ones.
   */
  lemma HashExact(t: Tiger.Tables, name: Name, lower: Name, d: seq<byte>)
    requires |lower| == |name|
    requires forall i | 0 <= i < |name| :: lower[i] == if 65 <= name[i] <= 90 then name[i] + 32 else name[i]
    requires Laws.IsDigest(t, lower, d) && |d| >= 8
    ensures forall j | 0 <= j < 8 :: d[j] == BOZAccountHash(t, name) / Pow256(j) % 256
  {
    assert Lower(name) == lower;
    Laws.DigestExact(t, lower, d);
    hide Laws.IsDigest, Tiger.Digest, Pow256;
    Canonical64(d[..8]);
    forall j | 0 <= j < 8 ensures d[j] == BOZAccountHash(t, name) / Pow256(j) % 256 {
      DigitOfLE(BOZAccountHash(t, name), 8, j);
      assert d[..8][j] == d[j];
    }
  }

  function HashWith(t: Tiger.Tables): Hash { name => BOZAccountHash(t, name) }

  /**
    Names that differ only in the case of their letters cannot both be registered: the second one is
    refused as a collision with the first and nothing changes.
   */
  lemma CaseVariantRefused(t: Tiger.Tables, cfg: Config, w: World, held: Name, name: Name, password: PasswordHash,
                           source: Option<Source>, outcome: WriteOutcome, v: World, r: Registration)
    requires cfg.hash == HashWith(t) && w.memory.nextUserID + 1 < U64_LIMIT
    requires OneSet(cfg.hash, w.memory.accounts, w.memory.nextUserID)
    requires held in w.memory.accounts && name !in w.memory.accounts && Lower(name) == Lower(held)
    requires Registers(cfg, w, name, password, source, outcome, v, r)
    ensures v == w && (r.Refused? || r == Collision(w.memory.accounts[held]))
    ensures |w.memory.accounts| < cfg.maxAccounts && source.None? ==> r.Collision?
  {
    hide Tiger.Digest, FromLE64, Holds;
    assert cfg.hash(name) == cfg.hash(held);
    assert w.memory.accounts[held].accountHash == cfg.hash(name);
    if r.Collision? {
      assert cfg.hash(r.account.username) == cfg.hash(held);
    }
  }
}
