/**
  The fixed messages byte by byte: the two header bytes, and behind them one number whose digits to base
  256 are the bytes and whose digits from the lowest up are the flag, a type (8) and value of 32 bits,
  another, and what follows untyped.
 */
module AuthWire {
  import opened Bytes
  import opened Bits
  import opened BitBuffer
  import opened AuthMessages
  import opened AuthReplies
  import opened BitLaws
  import opened LsgLogin
  import C = Crypto
  import S = LobbySessions

  /** Flag, typed value a, typed value b, and tail above them. */
  function TitledNumber(a: u32, b: u32, tail: nat): nat {
    1 + 2 * (8 + 32 * (a + 0x1_0000_0000 * (8 + 32 * (b + 0x1_0000_0000 * tail))))
  }

  lemma TitledIs(a: u32, b: u32, tail: seq<Item>)
    ensures Number(false, Titled(a, b, tail)) == TitledNumber(a, b, Number(false, tail))
  {
    hide Number;
    FlagFirst(false, true, [Int32(a)] + ([Int32(b)] + ([Mode(false)] + tail)));
    IntegerFirst(true, a, 0, [Int32(b)] + ([Mode(false)] + tail));
    IntegerFirst(true, b, 0, [Mode(false)] + tail);
    FlagFirst(true, false, tail);
  }

  /** A body with n bytes behind its header is that header and the digits of the number of its items. */
  lemma BodyIs(header: seq<byte>, items: seq<Item>, n: nat)
    requires |header| == 2 && |FixedBody(header, items)| == n + 2
    ensures FixedBody(header, items) == header + LE(Number(false, items), n)
  {
    PackValue(EncodeAll(false, items));
    hide ValueOf, LE, FromLE, Pack, EncodeAll;
  }

  lemma RawAlone(s: seq<byte>, v: u64)
    ensures Number(false, [Raw(s)]) == FromLE(s) && Number(false, [Int64(v)]) == v
  {
    hide Number, FromLE, Pow256, Above;
    RawFirst(false, s, []);
    IntegerFirst(false, 0, v, []);
    NothingLeft(false);
    NothingAbove(FromLE(s), Pow256(|s|));
    assert [Raw(s)] + [] == [Raw(s)] && [Int64(v)] + [] == [Int64(v)];
  }

  lemma NothingAbove(low: nat, p: nat)
    ensures Above(low, p, 0) == low
  {}

  /** A ticket request. */
  lemma MMPOnWire(q: AccountForMMPRequest)
    ensures MMPBody(q) == [0, 0x0a] + LE(TitledNumber(q.ivSeed, q.titleID, q.accountHash), 18)
  {
    var mid := MMPReads(q);
    hide Number, LE, FixedBody, Titled, Decode, ReadsTitled, Flat;
    BodyIs(MMP_HEADER, Titled(q.ivSeed, q.titleID, [Int64(q.accountHash)]), 18);
    TitledIs(q.ivSeed, q.titleID, [Int64(q.accountHash)]);
    RawAlone([], q.accountHash);
  }

  /** A login. */
  lemma LoginOnWire(q: LSGLogin)
    ensures LoginBody(q) == [0, 7] + LE(TitledNumber(q.titleID, q.ticketSeed, FromLE(q.authBlob)), 138)
  {
    var mid := LoginReads(q);
    hide Number, LE, FixedBody, Titled, Decode, ReadsTitled, Flat, FromLE;
    BodyIs(LOGIN_HEADER, Titled(q.titleID, q.ticketSeed, [Raw(q.authBlob)]), 138);
    TitledIs(q.titleID, q.ticketSeed, [Raw(q.authBlob)]);
    RawAlone(q.authBlob, 0);
  }

  /** A status reply: the flag, the type and the status. */
  lemma StatusOnWire(messageType: byte, status: u32)
    ensures FixedBody([0, messageType], StatusItems(status)) == [0, messageType] + LE(17 + 64 * status, 5)
  {
    StatusReplyDecodes(messageType, status);
    hide Number, LE, FixedBody, Decode, DecodeAll, Flat;
    BodyIs([0, messageType], StatusItems(status), 5);
    assert StatusItems(status) == [Flag(true)] + ([Int32(status)] + []);
    FlagFirst(false, true, [Int32(status)] + []);
    IntegerFirst(true, status, 0, []);
    NothingLeft(true);
  }

  /** The reply that grants a ticket. */
  lemma SuccessOnWire(seed: u32, ticket: seq<byte>)
    requires |ticket| == AUTH_TICKET_SIZE
    ensures FixedBody([0, MESSAGE_ACCOUNT_FOR_MMP_REPLY], Titled(STATUS_NO_ERROR, seed, [Raw(ticket)]))
            == [0, 0x0b] + LE(TitledNumber(700, seed, FromLE(ticket)), 138)
  {
    var mid := SuccessReplyReads(seed, ticket);
    hide Number, LE, FixedBody, Titled, Decode, ReadsTitled, Flat, FromLE;
    BodyIs([0, MESSAGE_ACCOUNT_FOR_MMP_REPLY], Titled(STATUS_NO_ERROR, seed, [Raw(ticket)]), 138);
    TitledIs(STATUS_NO_ERROR, seed, [Raw(ticket)]);
    RawAlone(ticket, 0);
  }

  /** The cleartext of an account block: signature, name, password, zeros. */
  predicate IsAccountBlock(plain: seq<byte>, name: seq<byte>, password: seq<byte>) {
    && |plain| == 96 && plain[..4] == [0xde, 0xad, 0xbd, 0xef]
    && |name| <= 64 && plain[4..4 + |name|] == name && AllZero(plain[4 + |name|..68])
    && plain[68..92] == password && AllZero(plain[92..])
  }

  lemma SignatureBytes()
    ensures LE32(0xefbdadde) == [0xde, 0xad, 0xbd, 0xef]
  {}

  lemma AccountBlockIs(q: CreateAccountRequest)
    ensures IsAccountBlock(AccountBlock(q), q.username, q.passwordHash)
  {
    SignatureBytes();
    hide LE32, Repeat;
    var block, n := AccountBlock(q), |q.username|;
    assert block[..4] == LE32(ACCOUNT_BLOCK_SIGNATURE);
    assert block[4..68] == PaddedUsername(q.username);
    assert block[4..4 + n] == block[4..68][..n];
    assert block[4 + n..68] == block[4..68][n..];
  }

  lemma LicenseAndBlock(license: u64, block: seq<byte>)
    ensures Number(false, [Int64(license), Raw(block)]) == license + 0x1_0000_0000_0000_0000 * FromLE(block)
  {
    hide Number, FromLE;
    assert [Int64(license), Raw(block)] == [Int64(license)] + [Raw(block)];
    IntegerFirst(false, 0, license, [Raw(block)]);
    RawAlone(block, 0);
  }

  lemma CreateIs(p: C.Primitives, q: CreateAccountRequest)
    requires C.Sound(p)
    ensures CreateBody(p, q)
            == [0, 0] + LE(TitledNumber(q.ivSeed, q.titleID, q.licenseHash + 0x1_0000_0000_0000_0000 * FromLE(EncryptedBlock(p, q))), 114)
  {
    hide C.Sound, EncryptedBlock, Number, LE, FixedBody, Titled, ReadsTitled, ReadsLicense, Flat, FromLE, TitledNumber;
    var mid := CreateReads(p, q);
    var tail := [Int64(q.licenseHash), Raw(EncryptedBlock(p, q))];
    BodyIs(CREATE_HEADER, Titled(q.ivSeed, q.titleID, tail), 114);
    TitledIs(q.ivSeed, q.titleID, tail);
    LicenseAndBlock(q.licenseHash, EncryptedBlock(p, q));
  }

  /** An account creation: the block is encrypted in chained blocks under a fixed key and the vector of the seed. */
  lemma CreateOnWire(p: C.Primitives, q: CreateAccountRequest) returns (plain: seq<byte>, block: seq<byte>)
    requires C.Sound(p)
    ensures IsAccountBlock(plain, q.username, q.passwordHash)
    ensures C.IsBlock(p.deriveIV(q.ivSeed)) && C.IsCBC(p, CREATE_ACCOUNT_KEY, p.deriveIV(q.ivSeed), plain, block)
    ensures CreateBody(p, q) == [0, 0] + LE(TitledNumber(q.ivSeed, q.titleID, q.licenseHash + 0x1_0000_0000_0000_0000 * FromLE(block)), 114)
  {
    hide C.Sound, C.IsCBC, C.Chain, CreateBody, LE, FromLE, TitledNumber, IsAccountBlock, AccountBlock;
    C.SoundIV(p, q.ivSeed);
    plain, block := AccountBlock(q), EncryptedBlock(p, q);
    AccountBlockIs(q);
    C.ChainedExactly(p, CREATE_ACCOUNT_KEY, p.deriveIV(q.ivSeed), plain, block);
    CreateIs(p, q);
  }

  lemma TicketParts(front: seq<byte>, name: seq<byte>, key: seq<byte>)
    requires |front| == 33 && |name| <= 64 && |key| == 24
    ensures var t, n := front + name + Repeat(0, 64 - |name|) + key + Repeat(0, 7), |name|;
            && t[..33] == front && t[33..33 + n] == name && AllZero(t[33 + n..97])
            && t[97..121] == key && AllZero(t[121..])
  {
    var t, n := front + name + Repeat(0, 64 - |name|) + key + Repeat(0, 7), |name|;
    assert t[33 + n..97] == Repeat(0, 64 - n);
    assert t[121..] == Repeat(0, 7);
  }

  lemma ZeroBytes()
    ensures LE64(0) == Repeat(0, 8)
  {}

  /** A ticket's cleartext: who it is for, when it was issued and when it expires in seconds, and the session key. */
  lemma TicketOnWire(account: Account, key: C.SessionKey, issuedAt: int, expiresAt: int)
    requires TicketFits(account, issuedAt, expiresAt)
    ensures var t, n := TicketOf(account, key, issuedAt, expiresAt), |account.username|;
            && 0 <= issuedAt / 1_000_000_000 < 0x1_0000_0000 && 0 <= expiresAt / 1_000_000_000 < 0x1_0000_0000 && n <= 64
            && t[..33] == [0xde, 0xad, 0xbd, 0xef] + [0] + LE32(18436)
                          + LE32(issuedAt / 1_000_000_000) + LE32(expiresAt / 1_000_000_000)
                          + [0, 0, 0, 0, 0, 0, 0, 0] + LE64(account.userID)
            && t[33..33 + n] == account.username && AllZero(t[33 + n..97])
            && t[97..121] == key && AllZero(t[121..])
  {
    SignatureBytes();
    ZeroBytes();
    hide LE32, LE64, Repeat;
    var front := LE32(AUTH_TICKET_SIGNATURE) + [AUTH_TICKET_TYPE_USER_TO_SERVICE] + LE32(S.BOZ_TITLE_ID)
                 + LE32(issuedAt / 1_000_000_000) + LE32(expiresAt / 1_000_000_000) + LE64(0) + LE64(account.userID);
    TicketParts(front, account.username, key);
    assert Repeat(0, 8) == [0, 0, 0, 0, 0, 0, 0, 0];
  }
}
