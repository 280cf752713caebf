/** Routing of a new TCP connection by lookahead (internal/online/backend/router.go). */
module Router {
  import opened Bytes
  import opened Frame

  const MAX_LEADING_CONTROLS := 32
  const MAX_INITIAL_BODY := 256
  const MAX_PEEK := 516
  const BUFIO_SIZE := 4096

  const MESSAGE_CREATE_ACCOUNT: byte := 0x00
  const MESSAGE_ACCOUNT_FOR_MMP: byte := 0x0a
  const LSG_SERVICE: byte := 0x07

  /** The handler a connection goes to, or why it goes to none. */
  datatype Verdict =
    | ToAuth
    | ToLobby
    | EndOfStream        // the stream ended before a frame started: no error
    | ReadFailed         // it ended inside the frame
    | UnsupportedSize
    | EncryptedFrame
    | UnsupportedType
    | TooManyControls

  predicate Routed(v: Verdict) { v.ToAuth? || v.ToLobby? }

  // ---------- what routing means, in terms of the sequential record reader ----------

  /** The handler for a whole frame. */
  function BodyVerdict(body: seq<byte>): Verdict {
    if |body| < 2 || |body| > MAX_INITIAL_BODY then UnsupportedSize
    else if body[0] != 0 then EncryptedFrame
    else if body[1] == MESSAGE_CREATE_ACCOUNT || body[1] == MESSAGE_ACCOUNT_FOR_MMP then ToAuth
    else if body[1] == LSG_SERVICE then ToLobby
    else UnsupportedType
  }

  /** The same for a frame of this size of which t, and perhaps more, has arrived. */
  function FrameVerdict(size: u32, t: seq<byte>): Verdict {
    if size < 2 || size > MAX_INITIAL_BODY then UnsupportedSize
    else if |t| < 2 then ReadFailed
    else if t[0] != 0 then EncryptedFrame
    else if |t| < size then ReadFailed
    else BodyVerdict(t[..size])
  }

  predicate IsControl(r: Record) { !r.Frame? }

  /** Read record headers one by one, allowing n controls before the first frame, and judge that frame. */
  function Classify(s: seq<byte>, n: nat): Verdict {
    if |s| < 4 then EndOfStream
    else
      var size, t := FromLE32(s[..4]), s[4..];
      if size != 0 && size != BUFFER_AVAILABLE_MARKER then FrameVerdict(size, t)
      else if n == 0 then TooManyControls
      else if size == 0 then Classify(t, n - 1)
      else if |t| < 4 then EndOfStream
      else Classify(t[4..], n - 1)
  }

  /** A header and its record: how one step of Classify reads, in terms of the record reader. */
  lemma ClassifyStep(s: seq<byte>, n: nat)
    ensures match ParseOne(s, 0)
            case Got(Frame(body), _) => Classify(s, n) == BodyVerdict(body)
            case Got(_, rest) => Classify(s, n) == if n == 0 then TooManyControls else Classify(rest, n - 1)
            case Failed(_) => !Routed(Classify(s, n))
  {
    if |s| >= 4 {
      var size, t := FromLE32(s[..4]), s[4..];
      if size != 0 && size != BUFFER_AVAILABLE_MARKER && |t| >= size && size >= 2 {
        assert t[..size][0] == t[0];
      }
    }
  }

  /** The stream reads as at most n control records, then a frame. */
  ghost predicate Routes(s: seq<byte>, n: nat, controls: seq<Record>, body: seq<byte>, rest: seq<byte>) {
    && |controls| <= n
    && (forall i | 0 <= i < |controls| :: IsControl(controls[i]))
    && AllReceivable(controls + [Frame(body)], 0)
    && s == EncodeAll(controls + [Frame(body)], 0) + rest
  }

  lemma ConsRecords(r: Record, tail: seq<Record>, rest: seq<byte>)
    requires Receivable(r, 0) && AllReceivable(tail, 0)
    ensures AllReceivable([r] + tail, 0)
    ensures EncodeAll([r] + tail, 0) + rest == Encode(r, 0) + (EncodeAll(tail, 0) + rest)
  {
    hide Encode, Receivable;
    assert ([r] + tail)[1..] == tail;
  }

  lemma OneRecord(r: Record, rest: seq<byte>)
    requires Receivable(r, 0)
    ensures AllReceivable([r], 0) && EncodeAll([r], 0) + rest == Encode(r, 0) + rest
  {
    hide Encode, Receivable;
    assert EncodeAll([r], 0) == Encode(r, 0) + EncodeAll([r][1..], 0);
  }

  lemma RoutesMore(s: seq<byte>, n: nat, r: Record, next: seq<byte>, controls: seq<Record>, body: seq<byte>, rest: seq<byte>)
    requires Receivable(r, 0) && IsControl(r) && s == Encode(r, 0) + next && Routes(next, n, controls, body, rest)
    ensures Routes(s, n + 1, [r] + controls, body, rest)
  {
    hide Encode, Receivable;
    ConsRecords(r, controls + [Frame(body)], rest);
    assert ([r] + controls) + [Frame(body)] == [r] + (controls + [Frame(body)]);
  }

  lemma RoutesFirst(s: seq<byte>, n: nat, controls: seq<Record>, body: seq<byte>, rest: seq<byte>)
    returns (next: seq<byte>)
    requires Routes(s, n, controls, body, rest)
    ensures controls == [] ==> ParseOne(s, 0) == Got(Frame(body), rest)
    ensures controls != [] ==>
              n > 0 && ParseOne(s, 0) == Got(controls[0], next) && Routes(next, n - 1, controls[1..], body, rest)
  {
    hide Encode, Receivable, ParseOne;
    if controls == [] {
      assert [] + [Frame(body)] == [Frame(body)];
      OneRecord(Frame(body), rest);
      ParseOneExact(s, 0, Frame(body), rest);
      next := rest;
    } else {
      var tail := controls[1..] + [Frame(body)];
      assert controls + [Frame(body)] == [controls[0]] + tail;
      assert AllReceivable(tail, 0) by {
        forall i | 0 <= i < |tail| ensures Receivable(tail[i], 0) {
          assert tail[i] == (controls + [Frame(body)])[i + 1];
        }
      }
      assert Receivable((controls + [Frame(body)])[0], 0);
      ConsRecords(controls[0], tail, rest);
      next := EncodeAll(tail, 0) + rest;
      ParseOneExact(s, 0, controls[0], next);
    }
  }

  /** Classifying by reading agrees with the shape of the stream, in both directions. */
  lemma {:induction false} ClassifySound(s: seq<byte>, n: nat) returns (controls: seq<Record>, body: seq<byte>, rest: seq<byte>)
    requires Routed(Classify(s, n))
    ensures Routes(s, n, controls, body, rest) && Classify(s, n) == BodyVerdict(body)
    decreases n
  {
    ClassifyStep(s, n);
    hide Classify, ParseOne, Encode, Receivable, BodyVerdict;
    var p := ParseOne(s, 0);
    ParseOneExact(s, 0, p.record, p.rest);
    if p.record.Frame? {
      controls, body, rest := [], p.record.body, p.rest;
      assert [] + [Frame(body)] == [p.record];
      OneRecord(p.record, rest);
    } else {
      controls, body, rest := ClassifySound(p.rest, n - 1);
      RoutesMore(s, n - 1, p.record, p.rest, controls, body, rest);
      controls := [p.record] + controls;
    }
  }

  lemma {:induction false} ClassifyComplete(s: seq<byte>, n: nat, controls: seq<Record>, body: seq<byte>, rest: seq<byte>)
    requires Routes(s, n, controls, body, rest)
    ensures Classify(s, n) == BodyVerdict(body)
    decreases n
  {
    ClassifyStep(s, n);
    hide Classify, ParseOne, Encode, Receivable, BodyVerdict;
    var next := RoutesFirst(s, n, controls, body, rest);
    if controls != [] {
      assert IsControl(controls[0]);
      ClassifyComplete(next, n - 1, controls[1..], body, rest);
    }
  }

  // ---------- the buffered connection ----------

  datatype PeekError = NoMoreData | BufferFull

  /** A bufio.Reader: Peek does not consume, so a later Read replays the stream from its start. */
  class BufferedReader {
    const data: seq<byte>
    ghost var furthest: nat  // the largest number of bytes ever peeked

    constructor (data: seq<byte>)
      ensures this.data == data && furthest == 0
    {
      this.data := data;
      furthest := 0;
    }

    method Peek(n: nat) returns (r: Result<seq<byte>, PeekError>)
      modifies this
      ensures r.Ok? <==> n <= |data| && n <= BUFIO_SIZE
      ensures r.Ok? ==> r.value == data[..n]
      ensures r == Err(BufferFull) <==> n > BUFIO_SIZE
      ensures furthest == if n > old(furthest) then n else old(furthest)
    {
      furthest := if n > furthest then n else furthest;
      if n > BUFIO_SIZE {
        return Err(BufferFull);
      }
      if n > |data| {
        return Err(NoMoreData);
      }
      r := Ok(data[..n]);
    }
  }

  /** The next header at offset is a control: skipping its record continues the classification. */
  lemma SkipControl(s: seq<byte>, offset: nat, n: nat)
    requires offset + 4 <= |s|
    requires FromLE32(s[offset..offset + 4]) == 0 || FromLE32(s[offset..offset + 4]) == BUFFER_AVAILABLE_MARKER
    ensures var next := offset + if FromLE32(s[offset..offset + 4]) == 0 then 4 else 8;
            Classify(s[offset..], n)
            == if n == 0 then TooManyControls else if next > |s| then EndOfStream else Classify(s[next..], n - 1)
  {
    var t := s[offset..];
    assert t[..4] == s[offset..offset + 4];
    assert t[4..] == s[offset + 4..];
    if |t| >= 8 { assert t[4..][4..] == s[offset + 8..]; }
  }

  lemma FrameAt(s: seq<byte>, offset: nat, n: nat)
    requires offset + 4 <= |s|
    requires FromLE32(s[offset..offset + 4]) != 0 && FromLE32(s[offset..offset + 4]) != BUFFER_AVAILABLE_MARKER
    ensures Classify(s[offset..], n) == FrameVerdict(FromLE32(s[offset..offset + 4]), s[offset + 4..])
  {
    var t := s[offset..];
    assert t[..4] == s[offset..offset + 4];
    assert t[4..] == s[offset + 4..];
  }

  lemma TooShort(s: seq<byte>, offset: nat, n: nat)
    requires offset <= |s| < offset + 4
    ensures Classify(s[offset..], n) == EndOfStream
  {}

  lemma FirstTwo(s: seq<byte>, n: nat)
    requires n + 2 <= |s|
    ensures s[n..][0] == s[n] && s[n..][1] == s[n + 1]
  {}

  /**
    The routing decision. It equals the verdict of reading the stream header by header; nothing is
    consumed, and no peek looks further than 516 bytes.
   */
  method HandleTCP(reader: BufferedReader) returns (verdict: Verdict)
    requires reader.furthest == 0
    modifies reader
    ensures verdict == Classify(reader.data, MAX_LEADING_CONTROLS)
    ensures reader.furthest <= MAX_PEEK
  {
    hide Classify, ParseOne;
    var s := reader.data;
    assert s[0..] == s;
    var offset := 0;
    var controlCount := 0;
    while controlCount <= MAX_LEADING_CONTROLS
      invariant 0 <= controlCount <= MAX_LEADING_CONTROLS + 1 && 0 <= offset <= 8 * controlCount
      invariant reader.furthest <= MAX_PEEK
      invariant Classify(s, MAX_LEADING_CONTROLS)
                == if controlCount > MAX_LEADING_CONTROLS then TooManyControls
                   else if offset > |s| then EndOfStream
                   else Classify(s[offset..], MAX_LEADING_CONTROLS - controlCount)
    {
      var prefix := reader.Peek(offset + 4);
      if prefix.Err? {
        if offset <= |s| { TooShort(s, offset, MAX_LEADING_CONTROLS - controlCount); }
        return if prefix.error == NoMoreData then EndOfStream else ReadFailed;
      }
      var bodySize := FromLE32(prefix.value[offset..offset + 4]);
      assert prefix.value[offset..offset + 4] == s[offset..offset + 4];
      if bodySize == 0 {
        SkipControl(s, offset, MAX_LEADING_CONTROLS - controlCount);
        offset := offset + 4;
        controlCount := controlCount + 1;
        continue;
      }
      if bodySize == BUFFER_AVAILABLE_MARKER {
        SkipControl(s, offset, MAX_LEADING_CONTROLS - controlCount);
        offset := offset + 8;
        controlCount := controlCount + 1;
        continue;
      }
      FrameAt(s, offset, MAX_LEADING_CONTROLS - controlCount);
      if bodySize < 2 || bodySize > MAX_INITIAL_BODY {
        return UnsupportedSize;
      }
      ghost var t := s[offset + 4..];
      var header := reader.Peek(offset + 4 + 2);
      if header.Err? {
        return ReadFailed;
      }
      FirstTwo(s, offset + 4);
      if header.value[offset + 4] != 0 {
        return EncryptedFrame;
      }
      var messageType := header.value[offset + 5];
      var whole := reader.Peek(offset + 4 + bodySize);
      if whole.Err? {
        return ReadFailed;
      }
      assert t[..bodySize][0] == t[0] && t[..bodySize][1] == t[1];
      if messageType == MESSAGE_CREATE_ACCOUNT || messageType == MESSAGE_ACCOUNT_FOR_MMP {
        return ToAuth;
      }
      if messageType == LSG_SERVICE {
        return ToLobby;
      }
      return UnsupportedType;
    }
    return TooManyControls;
  }

  /** A frame for the authentication service, or for the lobby: short, in the clear, and of a type of that service. */
  predicate IsFor(v: Verdict, body: seq<byte>) {
    && 2 <= |body| <= 256 && body[0] == 0
    && if v == ToAuth then body[1] == 0x00 || body[1] == 0x0a else v == ToLobby && body[1] == 0x07
  }

  /**
    The router and the reader agree on every stream: it goes to a service exactly when it starts with at
    most 32 control records and then a frame for that service.
   */
  lemma RoutedExactly(s: seq<byte>, v: Verdict)
    requires Routed(v)
    ensures Classify(s, MAX_LEADING_CONTROLS) == v
            <==> exists controls, body, rest :: Routes(s, 32, controls, body, rest) && IsFor(v, body)
  {
    assert forall body :: IsFor(v, body) <==> BodyVerdict(body) == v;
    hide Classify, Routes, BodyVerdict, IsFor;
    if Classify(s, MAX_LEADING_CONTROLS) == v {
      var controls, body, rest := ClassifySound(s, MAX_LEADING_CONTROLS);
    }
    if controls, body, rest :| Routes(s, 32, controls, body, rest) && IsFor(v, body) {
      ClassifyComplete(s, MAX_LEADING_CONTROLS, controls, body, rest);
    }
  }

  /** The stream starts with these control records and then with the header of a frame of this size. */
  ghost predicate Heads(s: seq<byte>, controls: seq<Record>, size: u32, t: seq<byte>) {
    && (forall i | 0 <= i < |controls| :: IsControl(controls[i]))
    && AllReceivable(controls, 0) && size != 0 && size != BUFFER_AVAILABLE_MARKER
    && s == EncodeAll(controls, 0) + (LE32(size) + t)
  }

  lemma HeadNow(size: u32, t: seq<byte>, n: nat)
    requires size != 0 && size != BUFFER_AVAILABLE_MARKER
    ensures Classify(LE32(size) + t, n) == FrameVerdict(size, t)
  {
    RoundTrip32(size);
    hide LE32, FromLE32, FrameVerdict;
    assert (LE32(size) + t)[..4] == LE32(size) && (LE32(size) + t)[4..] == t;
  }

  lemma {:induction false} HeadJudged(s: seq<byte>, n: nat, controls: seq<Record>, size: u32, t: seq<byte>)
    requires Heads(s, controls, size, t) && |controls| <= n
    ensures Classify(s, n) == FrameVerdict(size, t)
    decreases n
  {
    if controls == [] {
      hide Classify, FrameVerdict, LE32;
      assert s == LE32(size) + t;
      HeadNow(size, t, n);
    } else {
      ClassifyStep(s, n);
      assert IsControl(controls[0]);
      hide Classify, ParseOne, FrameVerdict, LE32, Encode, Receivable;
      var tail := LE32(size) + t;
      assert controls == [controls[0]] + controls[1..];
      ConsRecords(controls[0], controls[1..], tail);
      var next := EncodeAll(controls[1..], 0) + tail;
      ParseOneExact(s, 0, controls[0], next);
      HeadJudged(next, n - 1, controls[1..], size, t);
    }
  }

  /**
    What happens to a connection whose first frame comes after at most 32 control records: a frame of a
    wrong size, of which too little arrives, that is encrypted or of no service's type is refused with that
    reason, the first that applies in this order.
   */
  lemma JudgedBy(s: seq<byte>, controls: seq<Record>, size: u32, t: seq<byte>)
    requires Heads(s, controls, size, t) && |controls| <= 32
    ensures Classify(s, MAX_LEADING_CONTROLS)
            == if size < 2 || size > 256 then UnsupportedSize
               else if |t| < 2 then ReadFailed
               else if t[0] != 0 then EncryptedFrame
               else if |t| < size then ReadFailed
               else if t[1] in {0x00, 0x0a} then ToAuth
               else if t[1] == 0x07 then ToLobby
               else UnsupportedType
  {
    HeadJudged(s, MAX_LEADING_CONTROLS, controls, size, t);
    hide Classify, Heads;
    if 2 <= size <= |t| { assert t[..size][0] == t[0] && t[..size][1] == t[1]; }
  }

  // ---------- streams that end quietly ----------

  /** tail is where a stream can end without an error when n more controls are allowed. */
  predicate CutShort(tail: seq<byte>, n: nat) {
    |tail| < 4 || (n > 0 && |tail| < 8 && FromLE32(tail[..4]) == BUFFER_AVAILABLE_MARKER)
  }

  /** The stream is controls only, the last header or control perhaps cut short. */
  ghost predicate Ends(s: seq<byte>, n: nat, controls: seq<Record>, tail: seq<byte>) {
    && |controls| <= n
    && (forall i | 0 <= i < |controls| :: IsControl(controls[i]))
    && AllReceivable(controls, 0) && s == EncodeAll(controls, 0) + tail && CutShort(tail, n - |controls|)
  }

  lemma FrameNeverQuiet(size: u32, t: seq<byte>)
    ensures FrameVerdict(size, t) != EndOfStream
  {}

  lemma EndStep(s: seq<byte>, n: nat)
    requires Classify(s, n) == EndOfStream
    ensures CutShort(s, n)
            || (n > 0 && ParseOne(s, 0).Got? && IsControl(ParseOne(s, 0).record)
                && Classify(ParseOne(s, 0).rest, n - 1) == EndOfStream)
  {
    if |s| >= 4 { FrameNeverQuiet(FromLE32(s[..4]), s[4..]); }
  }

  lemma EndsMore(s: seq<byte>, n: nat, r: Record, next: seq<byte>, controls: seq<Record>, tail: seq<byte>)
    requires Receivable(r, 0) && IsControl(r) && s == Encode(r, 0) + next && Ends(next, n, controls, tail)
    ensures Ends(s, n + 1, [r] + controls, tail)
  {
    hide Encode, Receivable, CutShort;
    ConsRecords(r, controls, tail);
  }

  lemma EndsFirst(s: seq<byte>, n: nat, controls: seq<Record>, tail: seq<byte>) returns (next: seq<byte>)
    requires Ends(s, n, controls, tail) && controls != []
    ensures n > 0 && ParseOne(s, 0) == Got(controls[0], next) && Ends(next, n - 1, controls[1..], tail)
  {
    hide Encode, Receivable, ParseOne, CutShort;
    assert controls == [controls[0]] + controls[1..];
    assert AllReceivable(controls[1..], 0);
    ConsRecords(controls[0], controls[1..], tail);
    next := EncodeAll(controls[1..], 0) + tail;
    ParseOneExact(s, 0, controls[0], next);
  }

  lemma EndsNow(s: seq<byte>, n: nat)
    requires CutShort(s, n)
    ensures Ends(s, n, [], s) && Classify(s, n) == EndOfStream
  {
    assert EncodeAll([], 0) + s == s;
  }

  lemma {:induction false} EndSound(s: seq<byte>, n: nat) returns (controls: seq<Record>, tail: seq<byte>)
    requires Classify(s, n) == EndOfStream
    ensures Ends(s, n, controls, tail)
    decreases n
  {
    EndStep(s, n);
    hide Classify, ParseOne, Encode, Receivable, CutShort, Ends;
    if CutShort(s, n) {
      controls, tail := [], s;
      EndsNow(s, n);
    } else {
      var p := ParseOne(s, 0);
      ParseOneExact(s, 0, p.record, p.rest);
      controls, tail := EndSound(p.rest, n - 1);
      EndsMore(s, n - 1, p.record, p.rest, controls, tail);
      controls := [p.record] + controls;
    }
  }

  lemma EndsEmpty(s: seq<byte>, n: nat, tail: seq<byte>)
    requires Ends(s, n, [], tail)
    ensures CutShort(s, n)
  {
    assert s == tail;
  }

  lemma {:induction false} EndComplete(s: seq<byte>, n: nat, controls: seq<Record>, tail: seq<byte>)
    requires Ends(s, n, controls, tail)
    ensures Classify(s, n) == EndOfStream
    decreases n
  {
    if controls == [] {
      hide Ends, Classify;
      EndsEmpty(s, n, tail);
      EndsNow(s, n);
    } else {
      ClassifyStep(s, n);
      assert IsControl(controls[0]);
      hide Classify, ParseOne, Ends;
      var next := EndsFirst(s, n, controls, tail);
      EndComplete(next, n - 1, controls[1..], tail);
    }
  }

  /** The connection is dropped without an error exactly when its stream ends before a frame starts. */
  lemma QuietExactly(s: seq<byte>)
    ensures Classify(s, MAX_LEADING_CONTROLS) == EndOfStream
            <==> exists controls, tail :: Ends(s, MAX_LEADING_CONTROLS, controls, tail)
  {
    hide Classify, Ends;
    if Classify(s, MAX_LEADING_CONTROLS) == EndOfStream {
      var controls, tail := EndSound(s, MAX_LEADING_CONTROLS);
    }
    if controls, tail :| Ends(s, MAX_LEADING_CONTROLS, controls, tail) {
      EndComplete(s, MAX_LEADING_CONTROLS, controls, tail);
    }
  }

  /** Reading n records from a stream. */
  function ReadRecords(s: seq<byte>, n: nat): Option<(seq<Record>, seq<byte>)> {
    if n == 0 then Some(([], s))
    else
      match ParseOne(s, 0)
      case Failed(_) => None
      case Got(r, rest) =>
        match ReadRecords(rest, n - 1)
        case None => None
        case Some((rs, left)) => Some(([r] + rs, left))
  }

  /** The handler reads back the skipped controls and then the very frame that was classified. */
  lemma {:induction false} ReplayReads(s: seq<byte>, rs: seq<Record>, rest: seq<byte>)
    requires AllReceivable(rs, 0) && s == EncodeAll(rs, 0) + rest
    ensures ReadRecords(s, |rs|) == Some((rs, rest))
    decreases |rs|
  {
    hide ParseOne, Encode;
    if rs == [] {
      assert s == rest;
    } else {
      var tail := EncodeAll(rs[1..], 0) + rest;
      assert s == Encode(rs[0], 0) + tail;
      ParseOneExact(s, 0, rs[0], tail);
      ReplayReads(tail, rs[1..], rest);
      assert rs == [rs[0]] + rs[1..];
    }
  }
}
