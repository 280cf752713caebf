/**
  The fixed-size cleartext messages of account creation and ticket issue
  (internal/online/auth/create_account.go, internal/online/auth/account_for_mmp.go).

  A parser accepts a body exactly when it is the encoding of a request with the required title, and
  then returns that request; so every accepted body is canonical, padding bits included.
 */
module AuthMessages {
  import opened Bytes
  import opened Bits
  import opened BitBuffer
  import B = ByteBuffer
  import C = Crypto
  import S = LobbySessions

  const MESSAGE_CREATE_ACCOUNT_REQUEST: byte := 0x00
  const MESSAGE_CREATE_ACCOUNT_REPLY: byte := 0x01
  const MESSAGE_ACCOUNT_FOR_MMP_REQUEST: byte := 0x0a
  const MESSAGE_ACCOUNT_FOR_MMP_REPLY: byte := 0x0b

  const STATUS_NO_ERROR: u32 := 700
  const STATUS_BAD_ACCOUNT: u32 := 704

  datatype MessageError =
    | Malformed
    | EncryptedRequest
    | UnexpectedMessageType
    | TypeCheckingRequired
    | UnexpectedTitle
    | UnsupportedLicenseHash
    | InvalidAccountBlock
    | InvalidUsername
    | UsernameTerminator
    | ReservedBytes

  // ---------- ticket requests ----------

  const ACCOUNT_FOR_MMP_BODY_SIZE := 20

  datatype AccountForMMPRequest = AccountForMMPRequest(ivSeed: u32, titleID: u32, accountHash: u64)

  const MMP_HEADER: seq<byte> := [0, MESSAGE_ACCOUNT_FOR_MMP_REQUEST]

  /** The encoding of a request. */
  function MMPBody(q: AccountForMMPRequest): seq<byte> {
    FixedBody(MMP_HEADER, Titled(q.ivSeed, q.titleID, [Int64(q.accountHash)]))
  }

  /** The request this body encodes, if any. */
  ghost function MMPEncoded(body: seq<byte>): Option<AccountForMMPRequest> {
    if exists q :: body == MMPBody(q) then
      var q :| body == MMPBody(q);
      Some(q)
    else None
  }

  lemma HashTail(hash: u64)
    ensures TailFits([SInt64], [Int64(hash)]) && |EncodeAll(false, [Int64(hash)])| == 64
  {
    hide Flat, LE64, EncodeAll;
    EncodeOne(false, Int64(hash));
  }

  lemma MMPReads(q: AccountForMMPRequest) returns (mid: bits)
    ensures var body := MMPBody(q);
            && |body| == ACCOUNT_FOR_MMP_BODY_SIZE && body[0] == 0 && body[1] == MESSAGE_ACCOUNT_FOR_MMP_REQUEST
            && ReadsTitled(Flat(body[2..]), q.ivSeed, q.titleID, mid)
            && Decode(false, SInt64, mid) == Got(Int64(q.accountHash), Zeros(SLACK))
  {
    hide Flat, EncodeAll, FixedBody, ReadsTitled, Titled, DecodeAll, TailFits, Decode, Zeros;
    HashTail(q.accountHash);
    mid := TitledBodyReads(MMP_HEADER, q.ivSeed, q.titleID, [SInt64], [Int64(q.accountHash)]);
    LastItem(false, SInt64, mid, Int64(q.accountHash), Zeros(SLACK));
    var body := MMPBody(q);
    assert body[..2][0] == body[0] && body[..2][1] == body[1];
  }

  /** No body encodes two requests. */
  lemma MMPEncodedExact(body: seq<byte>, q: AccountForMMPRequest)
    ensures MMPEncoded(body) == Some(q) <==> body == MMPBody(q)
  {
    hide Decode, Flat, MMPBody;
    if body == MMPBody(q) {
      var m := MMPReads(q);
      var n := MMPReads(MMPEncoded(body).value);
    }
  }

  lemma MMPFinish(body: seq<byte>, q: AccountForMMPRequest, mid: bits, rest: bits)
    requires |body| == ACCOUNT_FOR_MMP_BODY_SIZE && body[0] == 0 && body[1] == MESSAGE_ACCOUNT_FOR_MMP_REQUEST
    requires ReadsTitled(Flat(body[2..]), q.ivSeed, q.titleID, mid)
    requires Decode(false, SInt64, mid) == Got(Int64(q.accountHash), rest)
    ensures |rest| == SLACK
    ensures MMPEncoded(body) == if body[|body| - 1] < 8 then Some(q) else None
  {
    hide Flat, EncodeAll, Titled, DecodeAll, TailFits, FixedBody, Decode, MMPEncoded;
    HashTail(q.accountHash);
    LastItem(false, SInt64, mid, Int64(q.accountHash), rest);
    assert body[..2] == MMP_HEADER;
    TitledBodyExact(MMP_HEADER, body, q.ivSeed, q.titleID, mid, [SInt64], [Int64(q.accountHash)], rest);
    MMPEncodedExact(body, q);
    if MMPEncoded(body).Some? {
      MMPEncodedExact(body, MMPEncoded(body).value);
      var n := MMPReads(MMPEncoded(body).value);
    }
  }

  method ParseAccountForMMPBody(body: seq<byte>) returns (r: Result<AccountForMMPRequest, MessageError>)
    ensures match MMPEncoded(body)
            case Some(q) => r == if q.titleID == S.BOZ_TITLE_ID then Ok(q) else Err(UnexpectedTitle)
            case None => r.Err?
    ensures |body| != ACCOUNT_FOR_MMP_BODY_SIZE ==> r == Err(Malformed)
    ensures r == Err(EncryptedRequest) <==> |body| == ACCOUNT_FOR_MMP_BODY_SIZE && body[0] != 0
    ensures r == Err(UnexpectedMessageType)
            <==> |body| == ACCOUNT_FOR_MMP_BODY_SIZE && body[0] == 0 && body[1] != MESSAGE_ACCOUNT_FOR_MMP_REQUEST
  {
    hide Decode, Flat, Zeros, MMPBody, MMPEncoded, BitReader.Rest;
    ghost var expected := MMPEncoded(body);
    if expected.Some? {
      MMPEncodedExact(body, expected.value);
      ghost var mid := MMPReads(expected.value);
    }
    if |body| != ACCOUNT_FOR_MMP_BODY_SIZE {
      return Err(Malformed);
    }
    if body[0] != 0 {
      return Err(EncryptedRequest);
    }
    if body[1] != MESSAGE_ACCOUNT_FOR_MMP_REQUEST {
      return Err(UnexpectedMessageType);
    }
    var reader := new BitReader(body[2..]);
    var flag := reader.ReadTypeCheckedFlag();
    if flag.Err? {
      return Err(Malformed);
    }
    if !flag.value.flag {
      return Err(TypeCheckingRequired);
    }
    var seed := reader.ReadUint32();
    if seed.Err? {
      return Err(Malformed);
    }
    var title := reader.ReadUint32();
    if title.Err? {
      return Err(Malformed);
    }
    if title.value.u32 != S.BOZ_TITLE_ID {
      return Err(UnexpectedTitle);
    }
    reader.SetTypeChecked(false);
    ghost var middle := reader.Rest();
    var hash := reader.ReadUint64();
    if hash.Err? {
      return Err(Malformed);
    }
    var q := AccountForMMPRequest(seed.value.u32, title.value.u32, hash.value.u64);
    MMPFinish(body, q, middle, reader.Rest());
    if reader.RemainingBits() != SLACK || body[|body| - 1] >= 8 {
      return Err(Malformed);
    }
    r := Ok(q);
  }

  // ---------- account creation ----------

  const CREATE_ACCOUNT_BODY_SIZE := 116
  const CREATE_ACCOUNT_BLOCK_SIZE: u32 := 96
  const ACCOUNT_USERNAME_SIZE := 64
  const ACCOUNT_PASSWORD_SIZE := 24
  const ACCOUNT_BLOCK_SIGNATURE: u32 := 0xefbdadde

  const CREATE_ACCOUNT_KEY: seq<byte> :=
    [0xde, 0xad, 0xbe, 0xef, 0xde, 0xad, 0xbe, 0xef, 0xde, 0xad, 0xbe, 0xef, 0xde, 0xad, 0xbe, 0xef, 0, 0, 0, 0, 0, 0, 0, 0]

  predicate Printable(name: seq<byte>) {
    forall i | 0 <= i < |name| :: 0x20 <= name[i] <= 0x7e
  }

  predicate ValidUsername(name: seq<byte>) {
    0 < |name| <= ACCOUNT_USERNAME_SIZE && Printable(name)
  }

  type Username = name: seq<byte> | ValidUsername(name) witness [0x20]

  type PasswordHash = hash: seq<byte> | |hash| == ACCOUNT_PASSWORD_SIZE witness Repeat(0, ACCOUNT_PASSWORD_SIZE)

  datatype Account = Account(userID: u64, username: seq<byte>, passwordHash: PasswordHash, accountHash: u64)

  datatype CreateAccountRequest = CreateAccountRequest(
    ivSeed: u32, titleID: u32, licenseHash: u64, username: Username, passwordHash: PasswordHash)

  /** The field is the name followed by zeros only. */
  predicate Pads(name: seq<byte>, field: seq<byte>) {
    name <= field && AllZero(field[|name|..])
  }

  function PaddedUsername(name: Username): (field: seq<byte>)
    ensures |field| == ACCOUNT_USERNAME_SIZE && Pads(name, field)
  {
    name + Repeat(0, ACCOUNT_USERNAME_SIZE - |name|)
  }

  lemma PadsExact(name: Username, field: seq<byte>)
    ensures field == PaddedUsername(name) <==> |field| == ACCOUNT_USERNAME_SIZE && Pads(name, field)
  {
    if |field| == ACCOUNT_USERNAME_SIZE && Pads(name, field) {
      assert field == field[..|name|] + field[|name|..];
      assert field[|name|..] == Repeat(0, ACCOUNT_USERNAME_SIZE - |name|);
    }
  }

  method IsAllZero(value: seq<byte>) returns (zero: bool)
    ensures zero == AllZero(value)
  {
    for i := 0 to |value|
      invariant AllZero(value[..i])
    {
      if value[i] != 0 {
        return false;
      }
      assert value[..i + 1] == value[..i] + [value[i]];
    }
    assert value[..|value|] == value;
    zero := true;
  }

  lemma {:induction false} FirstZero(field: seq<byte>, k: nat)
    requires k <= |field| && (k < |field| ==> field[k] == 0)
    requires forall i | 0 <= i < k :: field[i] != 0
    ensures B.IndexOfZero(field) == k
  {
    if k > 0 { FirstZero(field[1..], k - 1); }
  }

  lemma NameEnd(name: seq<byte>, field: seq<byte>)
    requires Printable(name) && Pads(name, field)
    ensures |name| == B.IndexOfZero(field)
  {
    if |name| < |field| { assert field[|name|..][0] == field[|name|]; }
    FirstZero(field, |name|);
  }

  // ---------- UTF-8 ----------

  predicate Continues(b: byte) { 0x80 <= b <= 0xbf }

  /** The length of the character that starts s, zero if none does (section 4 of RFC 3629). */
  function CharacterLength(s: seq<byte>): (n: nat)
    ensures n <= |s|
  {
    if s == [] then 0
    else
      var a := s[0];
      if a <= 0x7f then 1
      else if |s| < 2 then 0
      else if 0xc2 <= a <= 0xdf then (if Continues(s[1]) then 2 else 0)
      else
        var low := if a == 0xe0 then 0xa0 else if a == 0xf0 then 0x90 else 0x80;
        var high := if a == 0xed then 0x9f else if a == 0xf4 then 0x8f else 0xbf;
        if !(low <= s[1] <= high) || |s| < 3 || !Continues(s[2]) then 0
        else if 0xe0 <= a <= 0xef then 3
        else if 0xf0 <= a <= 0xf4 && |s| >= 4 && Continues(s[3]) then 4
        else 0
  }

  /** utf8.Valid. */
  predicate ValidUTF8(s: seq<byte>)
    decreases |s|
  {
    s == [] || (CharacterLength(s) > 0 && ValidUTF8(s[CharacterLength(s)..]))
  }

  /** Every printable name passes the UTF-8 test, so the test decides nothing that the loop after it does not. */
  lemma {:induction false} PrintableIsUTF8(name: seq<byte>)
    requires Printable(name)
    ensures ValidUTF8(name)
  {
    if name != [] { PrintableIsUTF8(name[1..]); }
  }

  /** Accepts exactly the zero-padded nonempty printable names. */
  method ParsePaddedUsername(field: seq<byte>) returns (r: Result<seq<byte>, MessageError>)
    ensures r.Ok? ==> r.value != [] && Printable(r.value) && Pads(r.value, field)
    ensures forall name | name != [] && Printable(name) && Pads(name, field) :: r == Ok(name)
    ensures r.Err? ==> r.error == UsernameTerminator || r.error == InvalidUsername
    ensures r == Err(UsernameTerminator) <==> exists i, j :: 0 <= i < j < |field| && field[i] == 0 && field[j] != 0
  {
    var end := B.IndexOfZero(field);
    forall name | name != [] && Printable(name) && Pads(name, field)
      ensures name == field[..end] && AllZero(field[end..]) && ValidUTF8(field[..end])
    {
      NameEnd(name, field);
      PrintableIsUTF8(name);
    }
    hide ValidUTF8;
    assert forall i | 0 <= i < end :: field[i] == field[..end][i];
    assert forall i | end <= i < |field| :: field[i] == field[end..][i - end];
    if end < |field| {
      var zero := IsAllZero(field[end..]);
      if !zero {
        return Err(UsernameTerminator);
      }
    }
    if end == 0 || !ValidUTF8(field[..end]) {
      return Err(InvalidUsername);
    }
    for i := 0 to end
      invariant Printable(field[..i])
    {
      if field[i] < 0x20 || field[i] > 0x7e {
        return Err(InvalidUsername);
      }
      assert field[..i + 1] == field[..i] + [field[i]];
    }
    r := Ok(field[..end]);
  }

  // The cleartext of the account block.

  function AccountBlock(q: CreateAccountRequest): (block: seq<byte>)
    ensures |block| == CREATE_ACCOUNT_BLOCK_SIZE
  {
    LE32(ACCOUNT_BLOCK_SIGNATURE) + (PaddedUsername(q.username) + (q.passwordHash + Repeat(0, 4)))
  }

  lemma BlockParts(q: CreateAccountRequest)
    ensures var block := AccountBlock(q);
            && FromLE32(block[..4]) == ACCOUNT_BLOCK_SIGNATURE
            && Pads(q.username, block[4..68]) && block[68..92] == q.passwordHash && AllZero(block[92..96])
  {
    hide LE32, FromLE32, PaddedUsername, Repeat;
    RoundTrip32(ACCOUNT_BLOCK_SIGNATURE);
    var block := AccountBlock(q);
    assert block[..4] == LE32(ACCOUNT_BLOCK_SIGNATURE);
    assert block[4..68] == PaddedUsername(q.username);
    assert block[68..92] == q.passwordHash;
    assert block[92..96] == Repeat(0, 4);
  }

  lemma BlockFromParts(block: seq<byte>, q: CreateAccountRequest)
    requires |block| == CREATE_ACCOUNT_BLOCK_SIZE && FromLE32(block[..4]) == ACCOUNT_BLOCK_SIGNATURE
    requires Pads(q.username, block[4..68]) && block[68..92] == q.passwordHash && AllZero(block[92..96])
    ensures block == AccountBlock(q)
  {
    hide LE32, FromLE32, PaddedUsername;
    Canonical32(block[..4]);
    PadsExact(q.username, block[4..68]);
    assert block[92..96] == Repeat(0, 4);
    assert block == block[..4] + (block[4..68] + (block[68..92] + block[92..96]));
  }

  function EncryptedBlock(p: C.Primitives, q: CreateAccountRequest): (block: seq<byte>)
    requires C.Sound(p)
    ensures |block| == CREATE_ACCOUNT_BLOCK_SIZE
  {
    C.Chain(p, CREATE_ACCOUNT_KEY, p.deriveIV(q.ivSeed), AccountBlock(q))
  }

  const CREATE_HEADER: seq<byte> := [0, MESSAGE_CREATE_ACCOUNT_REQUEST]

  /** The encoding of a request. */
  function CreateBody(p: C.Primitives, q: CreateAccountRequest): seq<byte>
    requires C.Sound(p)
  {
    FixedBody(CREATE_HEADER, Titled(q.ivSeed, q.titleID, [Int64(q.licenseHash), Raw(EncryptedBlock(p, q))]))
  }

  /** The request this body encodes, if any. */
  ghost function CreateEncoded(p: C.Primitives, body: seq<byte>): Option<CreateAccountRequest>
    requires C.Sound(p)
  {
    if exists q :: body == CreateBody(p, q) then
      var q :| body == CreateBody(p, q);
      Some(q)
    else None
  }

  const CREATE_TAIL: seq<Shape> := [SInt64, SRaw(CREATE_ACCOUNT_BLOCK_SIZE)]

  lemma LicenseTail(license: u64, block: seq<byte>)
    requires |block| == CREATE_ACCOUNT_BLOCK_SIZE
    ensures TailFits(CREATE_TAIL, [Int64(license), Raw(block)])
    ensures |EncodeAll(false, [Int64(license), Raw(block)])| == 64 + 8 * CREATE_ACCOUNT_BLOCK_SIZE
  {
    hide Flat, LE64, EncodeAll;
    EncodeOne(false, Raw(block));
    EncodeCons(false, Int64(license), [Raw(block)]);
    assert [Int64(license)] + [Raw(block)] == [Int64(license), Raw(block)];
  }

  /** The license hash and the encrypted block are read, leaving rest. */
  predicate ReadsLicense(mid: bits, license: u64, block: seq<byte>, rest: bits) {
    var d := Decode(false, SInt64, mid);
    && d.Got? && d.item == Int64(license)
    && Decode(false, SRaw(CREATE_ACCOUNT_BLOCK_SIZE), d.rest) == Got(Raw(block), rest)
  }

  lemma CreateReads(p: C.Primitives, q: CreateAccountRequest) returns (mid: bits)
    requires C.Sound(p)
    ensures var body := CreateBody(p, q);
            && |body| == CREATE_ACCOUNT_BODY_SIZE && body[0] == 0 && body[1] == MESSAGE_CREATE_ACCOUNT_REQUEST
            && ReadsTitled(Flat(body[2..]), q.ivSeed, q.titleID, mid)
            && ReadsLicense(mid, q.licenseHash, EncryptedBlock(p, q), Zeros(SLACK))
  {
    hide Flat, EncodeAll, FixedBody, ReadsTitled, Titled, DecodeAll, TailFits, Decode, Zeros, EncryptedBlock, C.Sound;
    var block := EncryptedBlock(p, q);
    LicenseTail(q.licenseHash, block);
    mid := TitledBodyReads(CREATE_HEADER, q.ivSeed, q.titleID, CREATE_TAIL, [Int64(q.licenseHash), Raw(block)]);
    IntegerAndRun(mid, q.licenseHash, block, CREATE_ACCOUNT_BLOCK_SIZE, Zeros(SLACK));
    var body := CreateBody(p, q);
    assert body[..2][0] == body[0] && body[..2][1] == body[1];
  }

  lemma BlockDecrypts(p: C.Primitives, q: CreateAccountRequest)
    requires C.Sound(p)
    ensures C.Unchain(p, CREATE_ACCOUNT_KEY, p.deriveIV(q.ivSeed), EncryptedBlock(p, q)) == AccountBlock(q)
  {
    hide AccountBlock;
    C.UnchainChain(p, CREATE_ACCOUNT_KEY, p.deriveIV(q.ivSeed), AccountBlock(q));
  }

  lemma BlockInjective(p: C.Primitives, q: CreateAccountRequest, r: CreateAccountRequest)
    requires C.Sound(p) && q.ivSeed == r.ivSeed && EncryptedBlock(p, q) == EncryptedBlock(p, r)
    ensures q.username == r.username && q.passwordHash == r.passwordHash
  {
    hide EncryptedBlock, AccountBlock, C.Sound;
    BlockDecrypts(p, q);
    BlockDecrypts(p, r);
    BlockParts(q);
    BlockParts(r);
    NameEnd(q.username, AccountBlock(q)[4..68]);
    NameEnd(r.username, AccountBlock(r)[4..68]);
  }

  /** No body encodes two requests. */
  lemma CreateEncodedExact(p: C.Primitives, body: seq<byte>, q: CreateAccountRequest)
    requires C.Sound(p)
    ensures CreateEncoded(p, body) == Some(q) <==> body == CreateBody(p, q)
  {
    hide Decode, Flat, CreateBody, EncryptedBlock, C.Sound;
    if body == CreateBody(p, q) {
      var r := CreateEncoded(p, body).value;
      var m := CreateReads(p, q);
      var n := CreateReads(p, r);
      BlockInjective(p, q, r);
    }
  }

  lemma CreateFinish(p: C.Primitives, body: seq<byte>, q: CreateAccountRequest, mid: bits, rest: bits)
    requires C.Sound(p)
    requires |body| == CREATE_ACCOUNT_BODY_SIZE && body[0] == 0 && body[1] == MESSAGE_CREATE_ACCOUNT_REQUEST
    requires ReadsTitled(Flat(body[2..]), q.ivSeed, q.titleID, mid)
    requires ReadsLicense(mid, q.licenseHash, EncryptedBlock(p, q), rest)
    ensures |rest| == SLACK && (body[|body| - 1] < 8 ==> CreateEncoded(p, body) == Some(q))
  {
    hide Flat, EncodeAll, Titled, DecodeAll, TailFits, FixedBody, Decode, CreateEncoded, EncryptedBlock, C.Sound;
    var block := EncryptedBlock(p, q);
    LicenseTail(q.licenseHash, block);
    IntegerAndRun(mid, q.licenseHash, block, CREATE_ACCOUNT_BLOCK_SIZE, rest);
    assert body[..2] == CREATE_HEADER;
    TitledBodyExact(CREATE_HEADER, body, q.ivSeed, q.titleID, mid, CREATE_TAIL, [Int64(q.licenseHash), Raw(block)], rest);
    CreateEncodedExact(p, body, q);
  }

  /** The padding test passes exactly on five zero bits; the block need not be one of ours. */
  lemma CreatePadding(body: seq<byte>, a: u32, b: u32, license: u64, block: seq<byte>, mid: bits, rest: bits)
    requires |block| == CREATE_ACCOUNT_BLOCK_SIZE
    requires |body| == CREATE_ACCOUNT_BODY_SIZE && body[0] == 0 && body[1] == MESSAGE_CREATE_ACCOUNT_REQUEST
    requires ReadsTitled(Flat(body[2..]), a, b, mid) && ReadsLicense(mid, license, block, rest)
    ensures |rest| == SLACK && (body[|body| - 1] < 8 <==> rest == Zeros(SLACK))
  {
    hide Flat, EncodeAll, Titled, TitledShapes, DecodeAll, TailFits, Decode, ReadsTitled, Pack, FixedBody;
    LicenseTail(license, block);
    IntegerAndRun(mid, license, block, CREATE_ACCOUNT_BLOCK_SIZE, rest);
    assert body[..2] == CREATE_HEADER;
    var tail := [Int64(license), Raw(block)];
    TitledBodyExact(CREATE_HEADER, body, a, b, mid, CREATE_TAIL, tail, rest);
    TitledFit(a, b, CREATE_TAIL, tail) by { assert TailFits(CREATE_TAIL, tail); }
    TitledFold(Flat(body[2..]), a, b, mid, CREATE_TAIL, tail, rest);
    DecodeAllExact(false, TitledShapes(CREATE_TAIL), Flat(body[2..]), Titled(a, b, tail), rest);
    LastByte(body[2..], EncodeAll(false, Titled(a, b, tail)), rest);
  }

  /** What the message carries when it is well formed, or the first reason to refuse it. */
  function Admitted(q: CreateAccountRequest): Result<CreateAccountRequest, MessageError> {
    if q.titleID != S.BOZ_TITLE_ID then Err(UnexpectedTitle)
    else if q.licenseHash != 0 then Err(UnsupportedLicenseHash)
    else Ok(q)
  }

  method ParseCreateAccountBody(p: C.Primitives, body: seq<byte>) returns (r: Result<CreateAccountRequest, MessageError>)
    requires C.Sound(p)
    ensures match CreateEncoded(p, body)
            case Some(q) => r == Admitted(q)
            case None => r.Err?
    ensures r == Err(EncryptedRequest) <==> |body| == CREATE_ACCOUNT_BODY_SIZE && body[0] != 0
    ensures r == Err(UnexpectedMessageType)
            <==> |body| == CREATE_ACCOUNT_BODY_SIZE && body[0] == 0 && body[1] != MESSAGE_CREATE_ACCOUNT_REQUEST
  {
    hide Decode, Flat, Zeros, CreateBody, CreateEncoded, EncryptedBlock, AccountBlock, BitReader.Rest, C.Sound, C.Unchain;
    ghost var expected := CreateEncoded(p, body);
    if expected.Some? {
      CreateEncodedExact(p, body, expected.value);
      ghost var mid := CreateReads(p, expected.value);
      BlockDecrypts(p, expected.value);
      BlockParts(expected.value);
    }
    if |body| != CREATE_ACCOUNT_BODY_SIZE {
      return Err(Malformed);
    }
    if body[0] != 0 {
      return Err(EncryptedRequest);
    }
    if body[1] != MESSAGE_CREATE_ACCOUNT_REQUEST {
      return Err(UnexpectedMessageType);
    }
    var reader := new BitReader(body[2..]);
    var flag := reader.ReadTypeCheckedFlag();
    if flag.Err? {
      return Err(Malformed);
    }
    if !flag.value.flag {
      return Err(TypeCheckingRequired);
    }
    var seed := reader.ReadUint32();
    if seed.Err? {
      return Err(Malformed);
    }
    var title := reader.ReadUint32();
    if title.Err? {
      return Err(Malformed);
    }
    if title.value.u32 != S.BOZ_TITLE_ID {
      return Err(UnexpectedTitle);
    }
    reader.SetTypeChecked(false);
    ghost var middle := reader.Rest();
    var license := reader.ReadUint64();
    if license.Err? {
      return Err(Malformed);
    }
    if license.value.u64 != 0 {
      return Err(UnsupportedLicenseHash);
    }
    var block := reader.ReadRaw(CREATE_ACCOUNT_BLOCK_SIZE);
    if block.Err? {
      return Err(Malformed);
    }
    CreatePadding(body, seed.value.u32, title.value.u32, license.value.u64, block.value.raw, middle, reader.Rest());
    if reader.RemainingBits() != SLACK || body[|body| - 1] >= 8 {
      return Err(Malformed);
    }
    C.SoundIV(p, seed.value.u32);
    var decrypted := C.DecryptCBC(p, CREATE_ACCOUNT_KEY, p.deriveIV(seed.value.u32), block.value.raw);
    if decrypted.Err? {
      return Err(InvalidAccountBlock);
    }
    var plaintext := decrypted.value;
    if FromLE32(plaintext[..4]) != ACCOUNT_BLOCK_SIGNATURE {
      return Err(InvalidAccountBlock);
    }
    var username := ParsePaddedUsername(plaintext[4..68]);
    if username.Err? {
      return Err(username.error);
    }
    var reserved := IsAllZero(plaintext[92..96]);
    if !reserved {
      return Err(ReservedBytes);
    }
    var q := CreateAccountRequest(seed.value.u32, title.value.u32, license.value.u64, username.value, plaintext[68..92]);
    BlockFromParts(plaintext, q);
    BlockEncrypts(p, q, block.value.raw);
    CreateFinish(p, body, q, middle, reader.Rest());
    r := Ok(q);
  }

  lemma BlockEncrypts(p: C.Primitives, q: CreateAccountRequest, block: seq<byte>)
    requires C.Sound(p) && |block| == CREATE_ACCOUNT_BLOCK_SIZE
    requires C.Unchain(p, CREATE_ACCOUNT_KEY, p.deriveIV(q.ivSeed), block) == AccountBlock(q)
    ensures block == EncryptedBlock(p, q)
  {
    hide AccountBlock;
    C.ChainUnchain(p, CREATE_ACCOUNT_KEY, p.deriveIV(q.ivSeed), block);
  }
}
