/**
  The encrypted request envelope and the clear reply envelope (internal/online/lobby/envelope.go).
 */
module Envelope {
  import opened Bytes
  import C = Crypto

  const ENCRYPTED_HEADER_SIZE := 5
  const RESERVED_CLEAR_REPLY_SIZE := 200

  datatype EncryptedRequest = EncryptedRequest(seed: u32, service: byte, payload: seq<byte>)

  datatype EnvelopeError = MalformedEncryptedEnvelope | InvalidRequestHMAC

  // ---------- the encrypted envelope ----------

  function Header(seed: u32): (h: seq<byte>)
    ensures |h| == ENCRYPTED_HEADER_SIZE
  {
    [1] + LE32(seed)
  }

  /** Any cleartext of whole blocks, encrypted under a seed. */
  function Encrypted(p: C.Primitives, key: C.SessionKey, seed: u32, plaintext: seq<byte>): (body: seq<byte>)
    requires C.Sound(p) && C.Whole(plaintext)
    ensures |body| == ENCRYPTED_HEADER_SIZE + |plaintext|
  {
    Header(seed) + C.Chain(p, key, p.deriveIV(seed), plaintext)
  }

  lemma HeaderExact(body: seq<byte>, seed: u32)
    requires |body| >= ENCRYPTED_HEADER_SIZE
    ensures body[..ENCRYPTED_HEADER_SIZE] == Header(seed) <==> body[0] == 1 && FromLE32(body[1..ENCRYPTED_HEADER_SIZE]) == seed
  {
    hide LE32, FromLE32;
    Canonical32(body[1..ENCRYPTED_HEADER_SIZE]);
    RoundTrip32(seed);
    assert body[..ENCRYPTED_HEADER_SIZE] == [body[0]] + body[1..ENCRYPTED_HEADER_SIZE];
    assert Header(seed)[0] == 1 && Header(seed)[1..] == LE32(seed);
  }

  /** A body is such an envelope exactly when its parts say so. */
  lemma EncryptedExact(p: C.Primitives, key: C.SessionKey, body: seq<byte>, seed: u32, plaintext: seq<byte>)
    requires C.Sound(p) && C.Whole(plaintext) && C.IsBlock(p.deriveIV(seed))
    ensures body == Encrypted(p, key, seed, plaintext)
            <==> |body| >= ENCRYPTED_HEADER_SIZE && body[0] == 1 && FromLE32(body[1..ENCRYPTED_HEADER_SIZE]) == seed
                 && C.DecryptCBC(p, key, p.deriveIV(seed), body[ENCRYPTED_HEADER_SIZE..]) == Ok(plaintext)
  {
    hide C.Sound, C.Chain, C.Unchain, FromLE32, Header;
    var sealed := C.Chain(p, key, p.deriveIV(seed), plaintext);
    var whole := Encrypted(p, key, seed, plaintext);
    assert whole[..ENCRYPTED_HEADER_SIZE] == Header(seed) && whole[ENCRYPTED_HEADER_SIZE..] == sealed;
    if |body| >= ENCRYPTED_HEADER_SIZE {
      HeaderExact(body, seed);
      C.EncryptDecryptInverse(p, key, p.deriveIV(seed), plaintext, body[ENCRYPTED_HEADER_SIZE..]);
      assert body == body[..ENCRYPTED_HEADER_SIZE] + body[ENCRYPTED_HEADER_SIZE..];
    }
  }

  // ---------- requests ----------

  /** The authentication code, the service and the payload. */
  function RequestPlaintext(p: C.Primitives, key: C.SessionKey, q: EncryptedRequest): seq<byte> {
    p.mac(key, q.payload) + ([q.service] + q.payload)
  }

  /** body is the sealed form of q. */
  ghost predicate Seals(p: C.Primitives, key: C.SessionKey, body: seq<byte>, q: EncryptedRequest)
    requires C.Sound(p)
  {
    var plaintext := RequestPlaintext(p, key, q);
    C.Whole(plaintext) && body == Encrypted(p, key, q.seed, plaintext)
  }

  function DecryptRequestBody(p: C.Primitives, key: C.SessionKey, body: seq<byte>): (r: Result<EncryptedRequest, EnvelopeError>)
    requires C.Sound(p)
  {
    if |body| < ENCRYPTED_HEADER_SIZE + C.BLOCK_SIZE || body[0] != 1 then Err(MalformedEncryptedEnvelope)
    else
      var ciphertext := body[ENCRYPTED_HEADER_SIZE..];
      if |ciphertext| % C.BLOCK_SIZE != 0 then Err(MalformedEncryptedEnvelope)
      else
        var seed := FromLE32(body[1..ENCRYPTED_HEADER_SIZE]);
        C.SoundIV(p, seed);
        match C.DecryptCBC(p, key, p.deriveIV(seed), ciphertext)
        case Err(_) => Err(MalformedEncryptedEnvelope)
        case Ok(plaintext) =>
          if |plaintext| < C.MAC_SIZE + 1 then Err(MalformedEncryptedEnvelope)
          else if plaintext[..C.MAC_SIZE] != p.mac(key, plaintext[C.MAC_SIZE + 1..]) then Err(InvalidRequestHMAC)
          else Ok(EncryptedRequest(seed, plaintext[C.MAC_SIZE], plaintext[C.MAC_SIZE + 1..]))
  }

  lemma PlaintextExact(p: C.Primitives, key: C.SessionKey, plaintext: seq<byte>, q: EncryptedRequest)
    requires |p.mac(key, q.payload)| == C.MAC_SIZE
    ensures plaintext == RequestPlaintext(p, key, q)
            <==> |plaintext| > C.MAC_SIZE && plaintext[..C.MAC_SIZE] == p.mac(key, plaintext[C.MAC_SIZE + 1..])
                 && plaintext[C.MAC_SIZE] == q.service && plaintext[C.MAC_SIZE + 1..] == q.payload
  {
    var whole := RequestPlaintext(p, key, q);
    assert whole[C.MAC_SIZE + 1..] == q.payload;
    assert whole[..C.MAC_SIZE] == p.mac(key, q.payload);
    if |plaintext| > C.MAC_SIZE {
      assert plaintext == plaintext[..C.MAC_SIZE] + ([plaintext[C.MAC_SIZE]] + plaintext[C.MAC_SIZE + 1..]);
    }
  }

  lemma MacSize(p: C.Primitives, key: C.SessionKey, payload: seq<byte>)
    requires C.Sound(p)
    ensures |p.mac(key, payload)| == C.MAC_SIZE
  {}

  /** A body is accepted exactly when it is the sealed form of the request that is returned. */
  lemma DecryptRequestExact(p: C.Primitives, key: C.SessionKey, body: seq<byte>, q: EncryptedRequest)
    requires C.Sound(p)
    ensures DecryptRequestBody(p, key, body) == Ok(q) <==> Seals(p, key, body, q)
  {
    C.SoundIV(p, q.seed);
    MacSize(p, key, q.payload);
    hide C.Sound, C.Unchain, Encrypted, FromLE32, RequestPlaintext;
    var whole := RequestPlaintext(p, key, q);
    if Seals(p, key, body, q) {
      EncryptedExact(p, key, body, q.seed, whole);
      PlaintextExact(p, key, whole, q);
      SealedSize(p, key, q);
    }
    if DecryptRequestBody(p, key, body) == Ok(q) {
      var plaintext := C.DecryptCBC(p, key, p.deriveIV(q.seed), body[ENCRYPTED_HEADER_SIZE..]).value;
      PlaintextExact(p, key, plaintext, q);
      EncryptedExact(p, key, body, q.seed, plaintext);
    }
  }

  lemma SealedSize(p: C.Primitives, key: C.SessionKey, q: EncryptedRequest)
    requires C.Sound(p) && C.Whole(RequestPlaintext(p, key, q))
    ensures |RequestPlaintext(p, key, q)| >= C.BLOCK_SIZE
    ensures |Encrypted(p, key, q.seed, RequestPlaintext(p, key, q))| == ENCRYPTED_HEADER_SIZE + |RequestPlaintext(p, key, q)|
  {
    MacSize(p, key, q.payload);
  }

  // ---------- padding of requests ----------

  /** A zero byte and up to seven copies of the seed's low byte. */
  predicate ValidPadding(padding: seq<byte>, seed: u32) {
    && 0 < |padding| <= C.BLOCK_SIZE
    && padding == [0] + Repeat(seed % 256, |padding| - 1)
  }

  method ValidClientRequestPadding(padding: seq<byte>, seed: u32) returns (valid: bool)
    ensures valid == ValidPadding(padding, seed)
  {
    if |padding| < 1 || |padding| > C.BLOCK_SIZE || padding[0] != 0 {
      return false;
    }
    var fill := seed % 256;
    for i := 1 to |padding|
      invariant forall j | 1 <= j < i :: padding[j] == fill
    {
      if padding[i] != fill {
        return false;
      }
    }
    valid := true;
  }

  /** The bytes a parser reads as padding: it cuts the number of remaining bytes to 32 bits. */
  function TakenAsPadding(rest: seq<byte>): seq<byte> { rest[..|rest| % U32_LIMIT] }

  predicate AcceptedPadding(rest: seq<byte>, seed: u32) {
    ValidPadding(TakenAsPadding(rest), seed)
  }

  /** What is accepted is valid padding exactly when it is shorter than 4 GiB. */
  lemma AcceptedExactly(rest: seq<byte>, seed: u32)
    ensures ValidPadding(rest, seed) <==> AcceptedPadding(rest, seed) && |rest| < U32_LIMIT
  {
    hide Repeat;
    if |rest| < U32_LIMIT { assert TakenAsPadding(rest) == rest; }
  }

  /** A longer rest may be accepted although it is not valid padding. */
  lemma LongRestAccepted(seed: u32)
    ensures var rest := Repeat(0, U32_LIMIT + 1); AcceptedPadding(rest, seed) && !ValidPadding(rest, seed)
  {
    var rest := Repeat(0, U32_LIMIT + 1);
    assert TakenAsPadding(rest) == [0] + Repeat(seed % 256, 0);
  }

  // ---------- clear replies ----------

  method MarshalClearTaskReplyBody(logicalReply: seq<byte>) returns (body: seq<byte>)
    ensures body == ClearBody(logicalReply)
  {
    body := [0];
    body := body + logicalReply;
    if |body| == RESERVED_CLEAR_REPLY_SIZE {
      body := body + [0];
    }
  }

  function ClearBody(reply: seq<byte>): seq<byte> {
    [0] + reply + Repeat(0, if |reply| + 1 == RESERVED_CLEAR_REPLY_SIZE then 1 else 0)
  }

  /**
    A clear reply never has the reserved length; a reader that knows where the reply ends finds at
    most one zero byte behind it.
   */
  lemma ClearBodyShape(reply: seq<byte>)
    ensures var body := ClearBody(reply);
            && |body| != RESERVED_CLEAR_REPLY_SIZE && body[0] == 0
            && reply <= body[1..] && |body| <= |reply| + 2 && AllZero(body[1..][|reply|..])
  {
    var body := ClearBody(reply);
    assert body[1..] == reply + body[1..][|reply|..];
  }
}
