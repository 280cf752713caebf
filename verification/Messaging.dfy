/**
  Instant messages between clients (internal/online/lobby/messaging.go).

  A message accepted from one client reaches another unchanged, behind the sender's hash and name and in
  front of less than a block of zeros.
 */
module Messaging {
  import opened Bytes
  import opened ByteBuffer
  import opened PaddedFields
  import opened Outputs
  import C = Crypto
  import Envelope

  const TASK_SEND: byte := 0x0e
  const INSTANT_MESSAGE_EVENT: u32 := 21
  const SERVER_REPLY_SIGNATURE: u32 := 0xdeadbeef
  const PUSH_MESSAGE_TYPE: byte := 0x02

  datatype MessagingRequest = MessagingRequest(task: byte, recipient: u64, message: seq<byte>)

  datatype RequestError = MalformedRequest | UnsupportedTask

  datatype PushError = InvalidMessage | CannotEncrypt

  // ---------- requests ----------

  const MESSAGE_KINDS: seq<Kind> := [KU8, KU64, KBlob(MAX_MESSAGE)]

  function MessageFields(q: MessagingRequest): seq<Field> {
    [U8(q.task), U64(q.recipient), Blob(q.message)]
  }

  /** With the authentication code and the service byte the payload fills whole blocks. */
  predicate WholeBlocks(payload: seq<byte>) {
    (|payload| + C.MAC_SIZE + 1) % C.BLOCK_SIZE == 0
  }

  ghost predicate Encodes(payload: seq<byte>, seed: u32, q: MessagingRequest) {
    q.task == TASK_SEND && WholeBlocks(payload) && exists rest :: Envelope.ValidPadding(rest, seed) && Followed(payload, MESSAGE_KINDS, MessageFields(q), rest)
  }

  /** The request the payload encodes, if any. */
  ghost function RequestOf(payload: seq<byte>, seed: u32): Option<MessagingRequest> {
    if exists q :: Encodes(payload, seed, q) then
      var q :| Encodes(payload, seed, q);
      Some(q)
    else None
  }

  /** A reader finds the fields of q and rest. */
  ghost predicate Reads(payload: seq<byte>, q: MessagingRequest, rest: seq<byte>) {
    ReadsThree(payload, KU8, KU64, KBlob(MAX_MESSAGE), U8(q.task), U64(q.recipient), Blob(q.message), rest)
  }

  lemma EncodesReads(payload: seq<byte>, seed: u32, q: MessagingRequest)
    ensures Encodes(payload, seed, q)
            <==> q.task == TASK_SEND && WholeBlocks(payload) && exists rest :: Envelope.ValidPadding(rest, seed) && Reads(payload, q, rest)
  {
    hide Envelope.ValidPadding, ReadsThree, Followed;
    forall rest ensures Followed(payload, MESSAGE_KINDS, MessageFields(q), rest) <==> Reads(payload, q, rest) {
      ThreeFollowed(payload, KU8, KU64, KBlob(MAX_MESSAGE), U8(q.task), U64(q.recipient), Blob(q.message), rest);
    }
  }

  /** A payload encodes at most one request. */
  lemma RequestOfExact(payload: seq<byte>, seed: u32, q: MessagingRequest)
    ensures RequestOf(payload, seed) == Some(q) <==> Encodes(payload, seed, q)
  {
    hide Encodes, Decode, Envelope.ValidPadding;
    if Encodes(payload, seed, q) {
      var r := RequestOf(payload, seed).value;
      EncodesReads(payload, seed, q);
      EncodesReads(payload, seed, r);
    }
  }

  /** What a reader of an expected request finds. */
  lemma Expected(payload: seq<byte>, seed: u32) returns (rest: seq<byte>)
    requires RequestOf(payload, seed).Some?
    ensures Reads(payload, RequestOf(payload, seed).value, rest) && Envelope.ValidPadding(rest, seed)
    ensures RequestOf(payload, seed).value.task == TASK_SEND && WholeBlocks(payload)
  {
    hide Reads, RequestOf, Encodes, Envelope.ValidPadding;
    var q := RequestOf(payload, seed).value;
    RequestOfExact(payload, seed, q);
    EncodesReads(payload, seed, q);
    rest :| Envelope.ValidPadding(rest, seed) && Reads(payload, q, rest);
  }

  /** A request whose fields and padding have been read is the one the payload encodes. */
  lemma Accepted(payload: seq<byte>, seed: u32, q: MessagingRequest, rest: seq<byte>)
    requires q.task == TASK_SEND && WholeBlocks(payload) && Reads(payload, q, rest)
    ensures RequestOf(payload, seed) == if Envelope.ValidPadding(rest, seed) then Some(q) else None
  {
    hide Decode, RequestOf, Encodes, Envelope.ValidPadding;
    RequestOfExact(payload, seed, q);
    EncodesReads(payload, seed, q);
    if RequestOf(payload, seed).Some? {
      var other := Expected(payload, seed);
    }
  }

  method ParseMessagingRequest(payload: seq<byte>, seed: u32) returns (r: Result<MessagingRequest, RequestError>)
    ensures match RequestOf(payload, seed)
            case Some(q) => r == Ok(q)
            case None => r.Err?
    ensures r == Err(UnsupportedTask)
            <==> WholeBlocks(payload) && Decode(true, KU8, payload).Got? && Decode(true, KU8, payload).field != U8(TASK_SEND)
  {
    hide Decode, ByteReader.Rest, RequestOf, Envelope.ValidPadding;
    if RequestOf(payload, seed).Some? {
      ghost var suffix := Expected(payload, seed);
      PaddingSize(suffix, seed);
    }
    if (|payload| + C.MAC_SIZE + 1) % C.BLOCK_SIZE != 0 {
      return Err(MalformedRequest);
    }
    var reader := new ByteReader(payload, true);
    var task := reader.ReadUint8();
    if task.Err? {
      return Err(MalformedRequest);
    }
    if task.value.u8 != TASK_SEND {
      return Err(UnsupportedTask);
    }
    var recipient := reader.ReadUint64();
    if recipient.Err? {
      return Err(MalformedRequest);
    }
    var message := reader.ReadBlob(MAX_MESSAGE);
    if message.Err? {
      return Err(MalformedRequest);
    }
    var q := MessagingRequest(task.value.u8, recipient.value.u64, message.value.blob);
    ghost var rest := reader.Rest();
    Accepted(payload, seed, q, rest);
    if reader.Remaining() > C.BLOCK_SIZE {
      return Err(MalformedRequest);
    }
    var padding := reader.ReadRaw(reader.Remaining());
    if padding.Err? {
      return Err(MalformedRequest);
    }
    assert padding.value == rest;
    var valid := Envelope.ValidClientRequestPadding(padding.value, seed);
    if !valid {
      return Err(MalformedRequest);
    }
    r := Ok(q);
  }

  lemma PaddingSize(padding: seq<byte>, seed: u32)
    requires Envelope.ValidPadding(padding, seed)
    ensures |padding| <= C.BLOCK_SIZE
  {}

  // ---------- pushes ----------

  const PUSH_KINDS: seq<Kind> := [KU32, KU64, KStr(MAX_SENDER_NAME), KBlob(MAX_MESSAGE)]

  function PushFields(sender: u64, name: seq<byte>, message: seq<byte>): seq<Field> {
    [U32(INSTANT_MESSAGE_EVENT), U64(sender), Str(name), Blob(message)]
  }

  predicate Pushable(name: seq<byte>, message: seq<byte>) {
    |name| <= MAX_SENDER_NAME && 0 !in name && |message| <= MAX_MESSAGE
  }

  lemma PushConforms(sender: u64, name: seq<byte>, message: seq<byte>)
    requires Pushable(name, message)
    ensures AllConform(PUSH_KINDS, PushFields(sender, name, message)) && AllWritable(PushFields(sender, name, message))
  {}

  function PushPlaintext(sender: u64, name: seq<byte>, message: seq<byte>): seq<byte>
    requires Pushable(name, message)
  {
    PushConforms(sender, name, message);
    LE32(SERVER_REPLY_SIGNATURE) + [PUSH_MESSAGE_TYPE] + EncodeAll(true, PushFields(sender, name, message))
  }

  lemma PaddedWhole(plaintext: seq<byte>)
    ensures C.Whole(C.PadTo3DESBlock(plaintext))
  {
    C.PaddingExact(plaintext, C.PadTo3DESBlock(plaintext));
  }

  function PushBody(p: C.Primitives, key: C.SessionKey, seed: u32, sender: u64, name: seq<byte>, message: seq<byte>): seq<byte>
    requires C.Sound(p) && Pushable(name, message)
  {
    PaddedWhole(PushPlaintext(sender, name, message));
    Envelope.Encrypted(p, key, seed, C.PadTo3DESBlock(PushPlaintext(sender, name, message)))
  }

  method MarshalGlobalInstantMessagePush(p: C.Primitives, key: C.SessionKey, seed: u32, sender: u64, name: seq<byte>, message: seq<byte>)
    returns (r: Result<seq<byte>, PushError>)
    requires C.Sound(p)
    ensures r.Ok? <==> Pushable(name, message)
    ensures r.Ok? ==> r.value == PushBody(p, key, seed, sender, name, message)
    ensures r.Err? ==> r.error == InvalidMessage
  {
    hide C.Sound, C.Chain, C.Unchain, C.PadTo3DESBlock, Encode, EncodeAll;
    if |name| > MAX_SENDER_NAME || IndexOfZero(name) < |name| || |message| > MAX_MESSAGE {
      return Err(InvalidMessage);
    }
    var writer := new ByteWriter(true);
    ghost var done: seq<Field> := [];
    NoFields();
    WroteNext([], true, done, U32(INSTANT_MESSAGE_EVENT), writer.data);
    writer.WriteUint32(INSTANT_MESSAGE_EVENT);
    done := done + [U32(INSTANT_MESSAGE_EVENT)];
    WroteNext([], true, done, U64(sender), writer.data);
    writer.WriteUint64(sender);
    done := done + [U64(sender)];
    ghost var before := writer.data;
    var wrote := writer.WriteString(name);
    if wrote.Err? {
      return Err(InvalidMessage);
    }
    WroteNext([], true, done, Str(name), before);
    done := done + [Str(name)];
    before := writer.data;
    wrote := writer.WriteBlob(message);
    if wrote.Err? {
      return Err(InvalidMessage);
    }
    WroteNext([], true, done, Blob(message), before);
    done := done + [Blob(message)];
    assert done == PushFields(sender, name, message);
    assert writer.data == EncodeAll(true, PushFields(sender, name, message));
    var plaintext := LE32(SERVER_REPLY_SIGNATURE) + [PUSH_MESSAGE_TYPE];
    plaintext := plaintext + writer.data;
    PaddedWhole(plaintext);
    plaintext := C.PadTo3DESBlock(plaintext);
    C.SoundIV(p, seed);
    var ciphertext := C.EncryptCBC(p, key, p.deriveIV(seed), plaintext);
    if ciphertext.Err? {
      return Err(CannotEncrypt);
    }
    r := Ok([1] + LE32(seed) + ciphertext.value);
  }

  /** What the recipient finds in a decrypted push. */
  ghost predicate Carries(plaintext: seq<byte>, sender: u64, name: seq<byte>, message: seq<byte>) {
    && |plaintext| >= 5 && FromLE32(plaintext[..4]) == SERVER_REPLY_SIGNATURE && plaintext[4] == PUSH_MESSAGE_TYPE
    && var all := DecodeAll(true, PUSH_KINDS, plaintext[5..]);
    && all.Some? && all.value.fields == PushFields(sender, name, message)
    && |all.value.rest| < C.BLOCK_SIZE && AllZero(all.value.rest)
  }

  lemma PlaintextCarries(sender: u64, name: seq<byte>, message: seq<byte>)
    requires Pushable(name, message)
    ensures Carries(C.PadTo3DESBlock(PushPlaintext(sender, name, message)), sender, name, message)
  {
    hide DecodeAll, EncodeAll, C.PadTo3DESBlock, LE32, FromLE32, PushFields;
    PushConforms(sender, name, message);
    var clear := PushPlaintext(sender, name, message);
    var padded := C.PadTo3DESBlock(clear);
    C.PaddingExact(clear, padded);
    RoundTrip32(SERVER_REPLY_SIGNATURE);
    var fields := EncodeAll(true, PushFields(sender, name, message));
    var zeros := padded[|clear|..];
    assert padded == clear + zeros;
    assert padded[..4] == LE32(SERVER_REPLY_SIGNATURE);
    assert padded[5..] == fields + zeros;
    DecodeAllComplete(true, PUSH_KINDS, PushFields(sender, name, message), zeros);
  }

  /** The body of a push is a header, whose seed the recipient uses, and whole blocks. */
  lemma PushDecrypts(p: C.Primitives, key: C.SessionKey, seed: u32, sender: u64, name: seq<byte>, message: seq<byte>)
    requires C.Sound(p) && Pushable(name, message)
    ensures var body := PushBody(p, key, seed, sender, name, message);
            && |body| % 8 == 5 && body[0] == 1 && FromLE32(body[1..5]) == seed
            && C.IsBlock(p.deriveIV(seed))
            && C.DecryptCBC(p, key, p.deriveIV(seed), body[5..])
               == Ok(C.PadTo3DESBlock(PushPlaintext(sender, name, message)))
  {
    hide C.Sound, C.PadTo3DESBlock, PushPlaintext, Envelope.Encrypted, FromLE32;
    C.SoundIV(p, seed);
    var clear := PushPlaintext(sender, name, message);
    PaddedWhole(clear);
    Envelope.EncryptedExact(p, key, PushBody(p, key, seed, sender, name, message), seed, C.PadTo3DESBlock(clear));
  }

  /**
    From end to end: what one client seals and another decrypts are the same message bytes, with the
    sender's hash and name in front and fewer than eight zero bytes behind.
   */
  lemma Relay(p: C.Primitives, senderKey: C.SessionKey, wire: seq<byte>, q: Envelope.EncryptedRequest, m: MessagingRequest,
              recipientKey: C.SessionKey, seed: u32, sender: u64, name: seq<byte>)
    requires C.Sound(p) && Envelope.Seals(p, senderKey, wire, q) && Encodes(q.payload, q.seed, m)
    requires |name| <= MAX_SENDER_NAME && 0 !in name
    ensures Envelope.DecryptRequestBody(p, senderKey, wire) == Ok(q) && RequestOf(q.payload, q.seed) == Some(m)
    ensures Pushable(name, m.message) && C.IsBlock(p.deriveIV(seed))
    ensures var body := PushBody(p, recipientKey, seed, sender, name, m.message);
            |body| >= 5 && match C.DecryptCBC(p, recipientKey, p.deriveIV(FromLE32(body[1..5])), body[5..])
            case Ok(plaintext) => Carries(plaintext, sender, name, m.message)
            case Err(_) => false
  {
    hide C.Sound, Envelope.Seals, Encodes, RequestOf, Carries, PushBody, FromLE32, PushPlaintext;
    Envelope.DecryptRequestExact(p, senderKey, wire, q);
    RequestOfExact(q.payload, q.seed, m);
    MessageFits(q.payload, q.seed, m);
    PushDecrypts(p, recipientKey, seed, sender, name, m.message);
    PlaintextCarries(sender, name, m.message);
  }

  lemma MessageFits(payload: seq<byte>, seed: u32, m: MessagingRequest)
    requires Encodes(payload, seed, m)
    ensures |m.message| <= MAX_MESSAGE
  {
    assert Conforms(MESSAGE_KINDS[2], MessageFields(m)[2]);
  }
}
