/**
  The lobby login message (internal/online/lobby/lsg.go): accepted exactly when it is the encoding
  of a login with the required title.
 */
module LsgLogin {
  import opened Bytes
  import opened Bits
  import opened BitBuffer
  import S = LobbySessions

  const LSG_SERVICE_ID: byte := 0x07
  const LSG_LOGIN_BODY_SIZE := 140
  const AUTH_BLOB_SIZE: u32 := 128

  type AuthBlob = blob: seq<byte> | |blob| == AUTH_BLOB_SIZE witness Repeat(0, AUTH_BLOB_SIZE)

  datatype LSGLogin = LSGLogin(titleID: u32, ticketSeed: u32, authBlob: AuthBlob)

  datatype LoginError = MalformedLSGLogin | InvalidLSGIdentity

  const LOGIN_HEADER: seq<byte> := [0, LSG_SERVICE_ID]

  /** The encoding of a login. */
  function LoginBody(q: LSGLogin): seq<byte> {
    FixedBody(LOGIN_HEADER, Titled(q.titleID, q.ticketSeed, [Raw(q.authBlob)]))
  }

  /** The login this body encodes, if any. */
  ghost function LoginEncoded(body: seq<byte>): Option<LSGLogin> {
    if exists q :: body == LoginBody(q) then
      var q :| body == LoginBody(q);
      Some(q)
    else None
  }

  lemma BlobTail(blob: AuthBlob)
    ensures TailFits([SRaw(AUTH_BLOB_SIZE)], [Raw(blob)]) && |EncodeAll(false, [Raw(blob)])| == 8 * AUTH_BLOB_SIZE
  {
    hide Flat, EncodeAll;
    EncodeOne(false, Raw(blob));
  }

  lemma LoginReads(q: LSGLogin) returns (mid: bits)
    ensures var body := LoginBody(q);
            && |body| == LSG_LOGIN_BODY_SIZE && body[0] == 0 && body[1] == LSG_SERVICE_ID
            && ReadsTitled(Flat(body[2..]), q.titleID, q.ticketSeed, mid)
            && Decode(false, SRaw(AUTH_BLOB_SIZE), mid) == Got(Raw(q.authBlob), Zeros(SLACK))
  {
    hide Flat, EncodeAll, FixedBody, ReadsTitled, Titled, DecodeAll, TailFits, Decode, Zeros;
    BlobTail(q.authBlob);
    mid := TitledBodyReads(LOGIN_HEADER, q.titleID, q.ticketSeed, [SRaw(AUTH_BLOB_SIZE)], [Raw(q.authBlob)]);
    LastItem(false, SRaw(AUTH_BLOB_SIZE), mid, Raw(q.authBlob), Zeros(SLACK));
    var body := LoginBody(q);
    assert body[..2][0] == body[0] && body[..2][1] == body[1];
  }

  /** No body encodes two logins. */
  lemma LoginEncodedExact(body: seq<byte>, q: LSGLogin)
    ensures LoginEncoded(body) == Some(q) <==> body == LoginBody(q)
  {
    hide Decode, Flat, LoginBody;
    if body == LoginBody(q) {
      var m := LoginReads(q);
      var n := LoginReads(LoginEncoded(body).value);
    }
  }

  lemma LoginFinish(body: seq<byte>, q: LSGLogin, mid: bits, rest: bits)
    requires |body| == LSG_LOGIN_BODY_SIZE && body[0] == 0 && body[1] == LSG_SERVICE_ID
    requires ReadsTitled(Flat(body[2..]), q.titleID, q.ticketSeed, mid)
    requires Decode(false, SRaw(AUTH_BLOB_SIZE), mid) == Got(Raw(q.authBlob), rest)
    ensures |rest| == SLACK
    ensures LoginEncoded(body) == if body[|body| - 1] < 8 then Some(q) else None
  {
    hide Flat, EncodeAll, Titled, DecodeAll, TailFits, FixedBody, Decode, LoginEncoded;
    BlobTail(q.authBlob);
    LastItem(false, SRaw(AUTH_BLOB_SIZE), mid, Raw(q.authBlob), rest);
    assert body[..2] == LOGIN_HEADER;
    TitledBodyExact(LOGIN_HEADER, body, q.titleID, q.ticketSeed, mid, [SRaw(AUTH_BLOB_SIZE)], [Raw(q.authBlob)], rest);
    LoginEncodedExact(body, q);
    if LoginEncoded(body).Some? {
      LoginEncodedExact(body, LoginEncoded(body).value);
      var n := LoginReads(LoginEncoded(body).value);
    }
  }

  method ParseLSGLoginBody(body: seq<byte>) returns (r: Result<LSGLogin, LoginError>)
    ensures match LoginEncoded(body)
            case Some(q) => r == if q.titleID == S.BOZ_TITLE_ID then Ok(q) else Err(InvalidLSGIdentity)
            case None => r.Err?
    ensures |body| != LSG_LOGIN_BODY_SIZE || body[0] != 0 || body[1] != LSG_SERVICE_ID
            ==> r == Err(MalformedLSGLogin)
  {
    hide Decode, Flat, Zeros, LoginBody, LoginEncoded, BitReader.Rest;
    ghost var expected := LoginEncoded(body);
    if expected.Some? {
      LoginEncodedExact(body, expected.value);
      ghost var mid := LoginReads(expected.value);
    }
    if |body| != LSG_LOGIN_BODY_SIZE {
      return Err(MalformedLSGLogin);
    }
    if body[0] != 0 || body[1] != LSG_SERVICE_ID {
      return Err(MalformedLSGLogin);
    }
    var reader := new BitReader(body[2..]);
    var flag := reader.ReadTypeCheckedFlag();
    if flag.Err? || !flag.value.flag {
      return Err(MalformedLSGLogin);
    }
    var title := reader.ReadUint32();
    if title.Err? {
      return Err(MalformedLSGLogin);
    }
    if title.value.u32 != S.BOZ_TITLE_ID {
      return Err(InvalidLSGIdentity);
    }
    var seed := reader.ReadUint32();
    if seed.Err? {
      return Err(MalformedLSGLogin);
    }
    reader.SetTypeChecked(false);
    ghost var middle := reader.Rest();
    var blob := reader.ReadRaw(AUTH_BLOB_SIZE);
    if blob.Err? {
      return Err(MalformedLSGLogin);
    }
    var q := LSGLogin(title.value.u32, seed.value.u32, blob.value.raw);
    LoginFinish(body, q, middle, reader.Rest());
    if reader.RemainingBits() != SLACK || body[|body| - 1] >= 8 {
      return Err(MalformedLSGLogin);
    }
    r := Ok(q);
  }
}
