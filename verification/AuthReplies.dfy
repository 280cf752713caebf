/**
  The replies of the authentication service and the ticket
  (internal/online/auth/create_account.go, internal/online/auth/account_for_mmp.go).
 */
module AuthReplies {
  import opened Bytes
  import opened Bits
  import opened BitBuffer
  import opened AuthMessages
  import B = ByteBuffer
  import C = Crypto
  import S = LobbySessions

  // ---------- status replies ----------

  const STATUS_SHAPES: seq<Shape> := [SFlag, SInt32]

  function StatusItems(status: u32): (items: seq<Item>)
    ensures AllFit(STATUS_SHAPES, items)
  {
    [Flag(true), Int32(status)]
  }

  lemma StatusBits(status: u32)
    ensures EncodeAll(false, StatusItems(status)) == [true] + Encode(true, Int32(status))
  {
    hide Encode, EncodeAll;
    EncodeOne(true, Int32(status));
    EncodeCons(false, Flag(true), [Int32(status)]);
    assert [Flag(true)] + [Int32(status)] == StatusItems(status);
    assert Encode(false, Flag(true)) == [true] by { FlagEncoding(); }
  }

  lemma FlagEncoding()
    ensures Encode(false, Flag(true)) == [true]
  {}

  method MarshalStatusReplyBody(messageType: byte, status: u32) returns (body: seq<byte>)
    ensures body == FixedBody([0, messageType], StatusItems(status))
  {
    hide Encode, EncodeAll, BitsOf, Flat, Pack;
    var writer := new BitWriter(false);
    writer.WriteUint8(messageType);
    writer.SetTypeChecked(true);
    writer.WriteTypeCheckedFlag();
    writer.WriteUint32(status);
    body := [0] + writer.data;
    StatusBits(status);
    TrueFlag();
    FlatOne(messageType);
    var bits := [true] + Encode(true, Int32(status));
    PackBehind([messageType], bits);
    assert writer.written == Flat([messageType]) + bits;
    assert [0] + ([messageType] + Pack(bits)) == [0, messageType] + Pack(bits);
  }

  lemma TrueFlag()
    ensures Encode(true, Flag(true)) == [true] && TagBits(false, B.TYPE_UINT8) == []
  {}

  /** A reader of a status reply finds the message type and the status, then only padding. */
  lemma StatusReplyDecodes(messageType: byte, status: u32)
    ensures var body := FixedBody([0, messageType], StatusItems(status));
            && |body| == 7 && body[0] == 0 && body[1] == messageType
            && DecodeAll(false, STATUS_SHAPES, Flat(body[2..])) == Some(Split(StatusItems(status), Zeros(2)))
  {
    hide Encode, DecodeAll, EncodeAll, Flat, Pack, StatusItems;
    StatusBits(status);
    StatusWidth(status);
    var body := FixedBody([0, messageType], StatusItems(status));
    assert body[..2] == [0, messageType];
    FixedBodyExact([0, messageType], body, STATUS_SHAPES, StatusItems(status));
  }

  lemma StatusWidth(status: u32)
    ensures |[true] + Encode(true, Int32(status))| == 38 && Padding(38) == 2
  {
    hide Flat, BitsOf;
  }

  // ---------- tickets ----------

  const AUTH_TICKET_SIZE: u32 := 128
  const AUTH_TICKET_SIGNATURE: u32 := 0xefbdadde
  const AUTH_TICKET_TYPE_USER_TO_SERVICE: byte := 0
  const NANOSECONDS := 1_000_000_000

  datatype TicketError = TimeOutOfRange | InvalidTicketUsername | CannotEncrypt

  /** The fields of a ticket in their order. */
  function TicketPlaintext(userID: u64, name: seq<byte>, key: C.SessionKey, issued: u32, expires: u32): (t: seq<byte>)
    requires |name| <= ACCOUNT_USERNAME_SIZE
    ensures |t| == AUTH_TICKET_SIZE
  {
    LE32(AUTH_TICKET_SIGNATURE) + [AUTH_TICKET_TYPE_USER_TO_SERVICE] + LE32(S.BOZ_TITLE_ID)
    + LE32(issued) + LE32(expires) + LE64(0) + LE64(userID)
    + name + Repeat(0, ACCOUNT_USERNAME_SIZE - |name|) + key + Repeat(0, 7)
  }

  /** A seconds count for a time in nanoseconds, when it fits the ticket. */
  function Seconds(time: int): Option<u32> {
    var seconds := time / NANOSECONDS;
    if 0 <= seconds < U32_LIMIT then Some(seconds) else None
  }

  /** Copies value over zeros that extend to the end of the array. */
  method Put(a: array<byte>, start: nat, value: seq<byte>)
    requires start + |value| <= a.Length && AllZero(a[start..])
    modifies a
    ensures a[..start + |value|] == old(a[..start]) + value && AllZero(a[start + |value|..])
  {
    ghost var was := a[..];
    for i := 0 to |value|
      invariant a[..start] == was[..start] && a[start..start + i] == value[..i]
      invariant a[start + i..] == was[start + i..]
    {
      a[start + i] := value[i];
      assert a[start..start + i + 1] == a[start..start + i] + [value[i]];
    }
    assert a[..start + |value|] == a[..start] + a[start..start + |value|];
    assert forall i | start + |value| <= i < a.Length :: a[i] == was[start..][i - start];
  }

  lemma StillZero(s: seq<byte>, start: nat, end: nat)
    requires start <= end <= |s| && AllZero(s[start..])
    ensures s[..end] == s[..start] + Repeat(0, end - start) && AllZero(s[end..])
  {
    assert forall i | start <= i < |s| :: s[i] == s[start..][i - start];
  }

  /** The ticket's cleartext, filled in from the front. */
  method FillTicket(userID: u64, name: seq<byte>, key: C.SessionKey, issued: u32, expires: u32) returns (t: seq<byte>)
    requires |name| <= ACCOUNT_USERNAME_SIZE
    ensures t == TicketPlaintext(userID, name, key, issued, expires)
  {
    hide LE32, LE64;
    var plaintext := new byte[128](_ => 0);
    assert plaintext[..0] == [];
    Put(plaintext, 0, LE32(AUTH_TICKET_SIGNATURE));
    Put(plaintext, 4, [AUTH_TICKET_TYPE_USER_TO_SERVICE]);
    Put(plaintext, 5, LE32(S.BOZ_TITLE_ID));
    Put(plaintext, 9, LE32(issued));
    Put(plaintext, 13, LE32(expires));
    Put(plaintext, 17, LE64(0));
    Put(plaintext, 25, LE64(userID));
    Put(plaintext, 33, name);
    StillZero(plaintext[..], 33 + |name|, 97);
    Put(plaintext, 97, key);
    StillZero(plaintext[..], 121, 128);
    t := plaintext[..];
    assert t == t[..128];
  }

  /** Where each field of the cleartext is, zero padding included. */
  lemma TicketFields(userID: u64, name: seq<byte>, key: C.SessionKey, issued: u32, expires: u32)
    requires |name| <= ACCOUNT_USERNAME_SIZE
    ensures var t := TicketPlaintext(userID, name, key, issued, expires);
            && FromLE32(t[..4]) == AUTH_TICKET_SIGNATURE && t[4] == AUTH_TICKET_TYPE_USER_TO_SERVICE
            && FromLE32(t[5..9]) == S.BOZ_TITLE_ID
            && FromLE32(t[9..13]) == issued && FromLE32(t[13..17]) == expires
            && FromLE64(t[17..25]) == 0 && FromLE64(t[25..33]) == userID
            && Pads(name, t[33..97]) && t[97..121] == key && AllZero(t[121..])
  {
    hide LE32, LE64, FromLE32, FromLE64;
    RoundTrip32(AUTH_TICKET_SIGNATURE);
    RoundTrip32(S.BOZ_TITLE_ID);
    RoundTrip32(issued);
    RoundTrip32(expires);
    RoundTrip64(0);
    RoundTrip64(userID);
    var t := TicketPlaintext(userID, name, key, issued, expires);
    assert t[..4] == LE32(AUTH_TICKET_SIGNATURE);
    assert t[5..9] == LE32(S.BOZ_TITLE_ID);
    assert t[9..13] == LE32(issued);
    assert t[13..17] == LE32(expires);
    assert t[17..25] == LE64(0);
    assert t[25..33] == LE64(userID);
    assert t[33..97] == name + Repeat(0, ACCOUNT_USERNAME_SIZE - |name|);
    assert t[97..121] == key;
  }

  /** Whether a ticket with these times and this name can be built. */
  predicate TicketFits(account: Account, issuedAt: int, expiresAt: int) {
    && Seconds(issuedAt).Some? && Seconds(expiresAt).Some? && issuedAt < expiresAt
    && |account.username| <= ACCOUNT_USERNAME_SIZE
  }

  function TicketOf(account: Account, key: C.SessionKey, issuedAt: int, expiresAt: int): (t: seq<byte>)
    requires TicketFits(account, issuedAt, expiresAt)
    ensures |t| == AUTH_TICKET_SIZE
  {
    TicketPlaintext(account.userID, account.username, key, Seconds(issuedAt).value, Seconds(expiresAt).value)
  }

  method BuildEncryptedAuthTicket(p: C.Primitives, account: Account, ticketSeed: u32, key: C.SessionKey, issuedAt: int, expiresAt: int)
    returns (r: Result<seq<byte>, TicketError>)
    requires C.Sound(p)
    ensures r.Ok? <==> TicketFits(account, issuedAt, expiresAt)
    ensures r.Ok? <==> 0 <= issuedAt < expiresAt < 1_000_000_000 * 0x1_0000_0000 && |account.username| <= 64
    ensures r.Ok? ==> |r.value| == AUTH_TICKET_SIZE
                      && C.DecryptCBC(p, account.passwordHash, p.deriveIV(ticketSeed), r.value)
                         == Ok(TicketOf(account, key, issuedAt, expiresAt))
    ensures r.Err? ==> r.error == if Seconds(issuedAt).None? || Seconds(expiresAt).None? || issuedAt >= expiresAt
                                  then TimeOutOfRange else InvalidTicketUsername
  {
    hide C.Sound, C.Chain, C.Unchain, TicketPlaintext;
    var issued, expires := issuedAt / NANOSECONDS, expiresAt / NANOSECONDS;
    if issued < 0 || issued >= U32_LIMIT || expires < 0 || expires >= U32_LIMIT || expiresAt <= issuedAt {
      return Err(TimeOutOfRange);
    }
    if |account.username| > ACCOUNT_USERNAME_SIZE {
      return Err(InvalidTicketUsername);
    }
    var plaintext := FillTicket(account.userID, account.username, key, issued, expires);
    C.SoundIV(p, ticketSeed);
    var ciphertext := C.EncryptCBC(p, account.passwordHash, p.deriveIV(ticketSeed), plaintext);
    if ciphertext.Err? {
      return Err(CannotEncrypt);
    }
    C.EncryptDecryptInverse(p, account.passwordHash, p.deriveIV(ticketSeed), plaintext, ciphertext.value);
    r := Ok(ciphertext.value);
  }

  const TICKET_TAIL: seq<Shape> := [SRaw(AUTH_TICKET_SIZE)]

  method MarshalAccountForMMPSuccessBody(p: C.Primitives, account: Account, ticketSeed: u32, key: C.SessionKey, issuedAt: int, expiresAt: int)
    returns (r: Result<seq<byte>, TicketError>, ghost ticket: seq<byte>)
    requires C.Sound(p)
    ensures r.Ok? <==> TicketFits(account, issuedAt, expiresAt)
    ensures r.Ok? ==>
      && |ticket| == AUTH_TICKET_SIZE
      && r.value == FixedBody([0, MESSAGE_ACCOUNT_FOR_MMP_REPLY], Titled(STATUS_NO_ERROR, ticketSeed, [Raw(ticket)]))
      && C.DecryptCBC(p, account.passwordHash, p.deriveIV(ticketSeed), ticket) == Ok(TicketOf(account, key, issuedAt, expiresAt))
  {
    hide C.Sound, C.DecryptCBC, TicketOf, Encode, EncodeAll, BitsOf, Flat, Pack, Titled;
    var built := BuildEncryptedAuthTicket(p, account, ticketSeed, key, issuedAt, expiresAt);
    if built.Err? {
      return Err(built.error), [];
    }
    ticket := built.value;
    var writer := new BitWriter(false);
    writer.WriteUint8(MESSAGE_ACCOUNT_FOR_MMP_REPLY);
    writer.SetTypeChecked(true);
    writer.WriteTypeCheckedFlag();
    writer.WriteUint32(STATUS_NO_ERROR);
    writer.WriteUint32(ticketSeed);
    writer.SetTypeChecked(false);
    writer.WriteRaw(built.value);
    TrueFlag();
    FlatOne(MESSAGE_ACCOUNT_FOR_MMP_REPLY);
    EncodeOne(false, Raw(ticket));
    TitledBits(STATUS_NO_ERROR, ticketSeed, [Raw(ticket)]);
    var bits := EncodeAll(false, Titled(STATUS_NO_ERROR, ticketSeed, [Raw(ticket)]));
    assert writer.written == Flat([MESSAGE_ACCOUNT_FOR_MMP_REPLY]) + bits;
    PackBehind([MESSAGE_ACCOUNT_FOR_MMP_REPLY], bits);
    assert [0] + ([MESSAGE_ACCOUNT_FOR_MMP_REPLY] + Pack(bits)) == [0, MESSAGE_ACCOUNT_FOR_MMP_REPLY] + Pack(bits);
    r := Ok([0] + writer.data);
  }

  /** A reader of a success reply finds the status, the seed and the ticket, then only padding. */
  lemma SuccessReplyReads(ticketSeed: u32, ticket: seq<byte>) returns (mid: bits)
    requires |ticket| == AUTH_TICKET_SIZE
    ensures var body := FixedBody([0, MESSAGE_ACCOUNT_FOR_MMP_REPLY], Titled(STATUS_NO_ERROR, ticketSeed, [Raw(ticket)]));
            && |body| == 140 && body[0] == 0 && body[1] == MESSAGE_ACCOUNT_FOR_MMP_REPLY
            && ReadsTitled(Flat(body[2..]), STATUS_NO_ERROR, ticketSeed, mid)
            && Decode(false, SRaw(AUTH_TICKET_SIZE), mid) == Got(Raw(ticket), Zeros(SLACK))
  {
    hide Flat, EncodeAll, FixedBody, ReadsTitled, Titled, DecodeAll, TailFits, Decode, Zeros;
    RawTail(ticket);
    mid := TitledBodyReads([0, MESSAGE_ACCOUNT_FOR_MMP_REPLY], STATUS_NO_ERROR, ticketSeed, TICKET_TAIL, [Raw(ticket)]);
    LastItem(false, SRaw(AUTH_TICKET_SIZE), mid, Raw(ticket), Zeros(SLACK));
    var body := FixedBody([0, MESSAGE_ACCOUNT_FOR_MMP_REPLY], Titled(STATUS_NO_ERROR, ticketSeed, [Raw(ticket)]));
    assert body[..2][0] == body[0] && body[..2][1] == body[1];
  }

  lemma RawTail(raw: seq<byte>)
    requires |raw| == AUTH_TICKET_SIZE
    ensures TailFits(TICKET_TAIL, [Raw(raw)]) && |EncodeAll(false, [Raw(raw)])| == 8 * AUTH_TICKET_SIZE
  {
    hide Flat, EncodeAll;
    EncodeOne(false, Raw(raw));
  }
}
