/** Transport records (internal/online/bitdemon/frame.go). */
module Frame {
  import opened Bytes

  const DEFAULT_MAX_BODY: u32 := 0x10_0000
  const BUFFER_AVAILABLE_MARKER: u32 := 200

  datatype Record = Frame(body: seq<byte>) | Keepalive | BufferAvailable(available: u32)

  datatype Error = UnexpectedEOF | FrameTooLarge | ReservedSize | WriteFailed | ShortWrite

  datatype Parsed = Got(record: Record, rest: seq<byte>) | Failed(error: Error)

  function Limit(maxBody: u32): u32 { if maxBody == 0 then DEFAULT_MAX_BODY else maxBody }

  /** The records a reader with this limit can receive. */
  predicate Receivable(r: Record, maxBody: u32) {
    r.Frame? ==> |r.body| != 0 && |r.body| != BUFFER_AVAILABLE_MARKER && |r.body| <= Limit(maxBody)
  }

  function Encode(r: Record, maxBody: u32): seq<byte>
    requires Receivable(r, maxBody)
  {
    match r
    case Keepalive => LE32(0)
    case BufferAvailable(v) => LE32(BUFFER_AVAILABLE_MARKER) + LE32(v)
    case Frame(body) => LE32(|body|) + body
  }

  /** What the next read from a stream holding exactly s delivers. */
  function ParseOne(s: seq<byte>, maxBody: u32): Parsed {
    if |s| < 4 then Failed(UnexpectedEOF)
    else
      var size := FromLE32(s[..4]);
      var t := s[4..];
      if size == 0 then Got(Keepalive, t)
      else if size == BUFFER_AVAILABLE_MARKER then
        if |t| < 4 then Failed(UnexpectedEOF) else Got(BufferAvailable(FromLE32(t[..4])), t[4..])
      else if size > Limit(maxBody) then Failed(FrameTooLarge)
      else if |t| < size then Failed(UnexpectedEOF)
      else Got(Frame(t[..size]), t[size..])
  }

  lemma ParseOneSound(s: seq<byte>, maxBody: u32)
    requires ParseOne(s, maxBody).Got?
    ensures var p := ParseOne(s, maxBody);
            Receivable(p.record, maxBody) && s == Encode(p.record, maxBody) + p.rest
  {
    var t := s[4..];
    Canonical32(s[..4]);
    assert s == s[..4] + t;
    var p := ParseOne(s, maxBody);
    match p.record
    case Keepalive =>
    case BufferAvailable(v) =>
      Canonical32(t[..4]);
      assert s == (s[..4] + t[..4]) + t[4..];
    case Frame(body) =>
      assert s == (s[..4] + body) + p.rest;
  }

  lemma ParseOneComplete(r: Record, rest: seq<byte>, maxBody: u32)
    requires Receivable(r, maxBody)
    ensures ParseOne(Encode(r, maxBody) + rest, maxBody) == Got(r, rest)
  {
    hide LE32, FromLE32;
    var s := Encode(r, maxBody) + rest;
    match r
    case Keepalive =>
      RoundTrip32(0);
      assert s[..4] == LE32(0) && s[4..] == rest;
    case BufferAvailable(v) =>
      RoundTrip32(BUFFER_AVAILABLE_MARKER);
      RoundTrip32(v);
      assert s[..4] == LE32(BUFFER_AVAILABLE_MARKER);
      assert s[4..] == LE32(v) + rest;
      assert s[4..][..4] == LE32(v) && s[4..][4..] == rest;
    case Frame(body) =>
      RoundTrip32(|body|);
      assert s[..4] == LE32(|body|);
      assert s[4..] == body + rest;
      assert s[4..][..|body|] == body && s[4..][|body|..] == rest;
  }

  /** A stream starts with a record exactly when it starts with that record's encoding. */
  lemma ParseOneExact(s: seq<byte>, maxBody: u32, r: Record, rest: seq<byte>)
    ensures ParseOne(s, maxBody) == Got(r, rest)
            <==> Receivable(r, maxBody) && s == Encode(r, maxBody) + rest
  {
    if ParseOne(s, maxBody) == Got(r, rest) { ParseOneSound(s, maxBody); }
    if Receivable(r, maxBody) && s == Encode(r, maxBody) + rest { ParseOneComplete(r, rest, maxBody); }
  }

  // ---------- streams of records ----------

  predicate AllReceivable(rs: seq<Record>, maxBody: u32) {
    forall i | 0 <= i < |rs| :: Receivable(rs[i], maxBody)
  }

  function EncodeAll(rs: seq<Record>, maxBody: u32): seq<byte>
    requires AllReceivable(rs, maxBody)
  {
    if rs == [] then [] else Encode(rs[0], maxBody) + EncodeAll(rs[1..], maxBody)
  }

  /** Reading records until the stream is used up. */
  function ParseAll(s: seq<byte>, maxBody: u32): Option<seq<Record>>
    decreases |s|
  {
    if s == [] then Some([])
    else
      match ParseOne(s, maxBody)
      case Failed(_) => None
      case Got(r, rest) =>
        match ParseAll(rest, maxBody)
        case None => None
        case Some(rs) => Some([r] + rs)
  }

  /**
    Record streams synchronise themselves: a stream reads back as rs, with nothing left over, exactly
    when it is the concatenation of the encodings of rs.
   */
  lemma {:induction false} ParseAllExact(s: seq<byte>, maxBody: u32, rs: seq<Record>)
    ensures ParseAll(s, maxBody) == Some(rs) <==> AllReceivable(rs, maxBody) && s == EncodeAll(rs, maxBody)
    decreases |s|
  {
    hide Encode, ParseOne;
    if s == [] {
      if rs != [] && AllReceivable(rs, maxBody) { EncodeNonEmpty(rs[0], maxBody); }
      return;
    }
    var p := ParseOne(s, maxBody);
    if p.Got? {
      ParseOneExact(s, maxBody, p.record, p.rest);
      EncodeNonEmpty(p.record, maxBody);
    }
    if rs != [] {
      if AllReceivable(rs, maxBody) && s == EncodeAll(rs, maxBody) {
        ParseOneExact(s, maxBody, rs[0], EncodeAll(rs[1..], maxBody));
        ParseAllExact(p.rest, maxBody, rs[1..]);
        assert rs == [rs[0]] + rs[1..];
      }
      if ParseAll(s, maxBody) == Some(rs) {
        var tail := ParseAll(p.rest, maxBody).value;
        assert rs == [p.record] + tail && rs[1..] == tail && rs[0] == p.record;
        ParseAllExact(p.rest, maxBody, tail);
        forall i | 0 <= i < |rs| ensures Receivable(rs[i], maxBody) {
          if i > 0 { assert rs[i] == tail[i - 1]; }
        }
      }
    }
  }

  lemma EncodeNonEmpty(r: Record, maxBody: u32)
    requires Receivable(r, maxBody)
    ensures |Encode(r, maxBody)| >= 4
  {}

  lemma {:induction false} EncodeAllAppend(rs: seq<Record>, qs: seq<Record>, maxBody: u32)
    requires AllReceivable(rs, maxBody) && AllReceivable(qs, maxBody)
    ensures AllReceivable(rs + qs, maxBody)
    ensures EncodeAll(rs + qs, maxBody) == EncodeAll(rs, maxBody) + EncodeAll(qs, maxBody)
  {
    hide Encode;
    if rs == [] {
      assert rs + qs == qs;
    } else {
      EncodeAllAppend(rs[1..], qs, maxBody);
      assert (rs + qs)[0] == rs[0] && (rs + qs)[1..] == rs[1..] + qs;
      var a, b, c := Encode(rs[0], maxBody), EncodeAll(rs[1..], maxBody), EncodeAll(qs, maxBody);
      assert a + (b + c) == (a + b) + c;
    }
  }

  // ---------- reading ----------

  /** An io.Reader that will deliver exactly `data` and then end. */
  class Stream {
    var data: seq<byte>

    constructor (data: seq<byte>)
      ensures this.data == data
    {
      this.data := data;
    }

    /** io.ReadFull: a short stream is consumed and reported. */
    method ReadFull(n: nat) returns (r: Result<seq<byte>, Error>)
      modifies this
      ensures r.Ok? <==> n <= |old(data)|
      ensures r.Ok? ==> r.value == old(data)[..n] && data == old(data)[n..]
      ensures r.Err? ==> r.error == UnexpectedEOF
    {
      if |data| < n {
        data := [];
        return Err(UnexpectedEOF);
      }
      r := Ok(data[..n]);
      data := data[n..];
    }
  }

  method ReadTransportRecord(reader: Stream, maxBody: u32) returns (r: Result<Record, Error>)
    modifies reader
    ensures match ParseOne(old(reader.data), maxBody)
            case Got(record, rest) => r == Ok(record) && reader.data == rest
            case Failed(e) => r == Err(e)
  {
    var limit := maxBody;
    if limit == 0 {
      limit := DEFAULT_MAX_BODY;
    }
    var prefix := reader.ReadFull(4);
    if prefix.Err? {
      return Err(prefix.error);
    }
    var bodySize := FromLE32(prefix.value);
    if bodySize == 0 {
      return Ok(Keepalive);
    }
    if bodySize == BUFFER_AVAILABLE_MARKER {
      var value := reader.ReadFull(4);
      if value.Err? {
        return Err(value.error);
      }
      return Ok(BufferAvailable(FromLE32(value.value)));
    }
    if bodySize > limit {
      return Err(FrameTooLarge);
    }
    var body := reader.ReadFull(bodySize);
    if body.Err? {
      return Err(body.error);
    }
    r := Ok(Frame(body.value));
  }

  // ---------- writing ----------

  /**
    How one Write call goes: it takes at least one byte and at most this many, or reports any number
    of bytes, or fails after some bytes.
   */
  datatype WriteOutcome = Short(most: nat) | Report(bytes: int) | FailAfter(written: nat)

  /** Writes may be short, but each one makes progress. */
  predicate Healthy(script: seq<WriteOutcome>) {
    forall i | 0 <= i < |script| :: script[i].Short?
  }

  /** An io.Writer whose Write calls follow a script; when the script ends they take everything. */
  class Sink {
    var out: seq<byte>
    var script: seq<WriteOutcome>

    constructor (script: seq<WriteOutcome>)
      ensures out == [] && this.script == script
    {
      out := [];
      this.script := script;
    }

    method Write(data: seq<byte>) returns (written: int, failed: bool)
      modifies this
      ensures !failed && 1 <= written <= |data| ==> out == old(out) + data[..written]
      ensures failed || written < 1 || written > |data| ==> exists k | 0 <= k <= |data| :: out == old(out) + data[..k]
      ensures Healthy(old(script)) ==> Healthy(script) && !failed && (data != [] ==> 1 <= written <= |data|)
    {
      var outcome := if script == [] then Short(|data|) else script[0];
      script := if script == [] then [] else script[1..];
      match outcome
      case Short(most) =>
        var k := if most < 1 then 1 else most;
        k := if k > |data| then |data| else k;
        out := out + data[..k];
        return k, false;
      case Report(n) =>
        var k := if n < 0 then 0 else if n > |data| then |data| else n;
        out := out + data[..k];
        return n, false;
      case FailAfter(n) =>
        var k := if n > |data| then |data| else n;
        out := out + data[..k];
        return k, true;
    }
  }

  /** out grew by some prefix of data. */
  ghost predicate EmittedPrefix(before: seq<byte>, data: seq<byte>, after: seq<byte>) {
    exists k | 0 <= k <= |data| :: after == before + data[..k]
  }

  /**
    Terminates under any pattern of writes, having written all of data or failed after a prefix; it
    succeeds whenever each write makes progress, however short.
   */
  method WriteAll(writer: Sink, data: seq<byte>) returns (r: Result<(), Error>)
    modifies writer
    ensures r.Ok? ==> writer.out == old(writer.out) + data
    ensures r.Err? ==> EmittedPrefix(old(writer.out), data, writer.out)
    ensures Healthy(old(writer.script)) ==> r.Ok? && Healthy(writer.script)
  {
    var left := data;
    ghost var done := 0;
    assert data == data[0..];
    while |left| > 0
      invariant 0 <= done <= |data| && left == data[done..]
      invariant writer.out == old(writer.out) + data[..done]
      invariant Healthy(old(writer.script)) ==> Healthy(writer.script)
      decreases |left|
    {
      var written, failed := writer.Write(left);
      if failed || written < 1 || written > |left| {
        ghost var k :| 0 <= k <= |left| && writer.out == (old(writer.out) + data[..done]) + left[..k];
        assert data[..done] + left[..k] == data[..done + k];
        assert writer.out == old(writer.out) + data[..done + k];
        return Err(if failed then WriteFailed else ShortWrite);
      }
      assert data[..done] + left[..written] == data[..done + written];
      left := left[written..];
      done := done + written;
    }
    assert data[..done] == data;
    r := Ok(());
  }

  /** The record WriteFrame sends for a body: an empty body is a keepalive. */
  function RecordOf(body: seq<byte>): Record {
    if body == [] then Keepalive else Frame(body)
  }

  predicate Writable(body: seq<byte>) {
    |body| < U32_LIMIT && |body| != BUFFER_AVAILABLE_MARKER
  }

  function FrameBytes(body: seq<byte>): seq<byte>
    requires Writable(body)
  {
    LE32(|body|) + body
  }

  /** A body within the receiver's limit is sent as the encoding of its record. */
  lemma FrameBytesAreRecord(body: seq<byte>, maxBody: u32)
    requires Writable(body) && |body| <= Limit(maxBody)
    ensures Receivable(RecordOf(body), maxBody) && FrameBytes(body) == Encode(RecordOf(body), maxBody)
  {
    if body == [] { assert LE32(0) + [] == LE32(0); }
  }

  method WriteFrame(writer: Sink, body: seq<byte>) returns (r: Result<(), Error>)
    modifies writer
    ensures r.Ok? ==> Writable(body) && writer.out == old(writer.out) + FrameBytes(body)
    ensures !Writable(body) ==> r.Err? && writer.out == old(writer.out)
    ensures r.Err? && Writable(body) ==> EmittedPrefix(old(writer.out), FrameBytes(body), writer.out)
    ensures Healthy(old(writer.script)) ==> (r.Ok? <==> Writable(body)) && Healthy(writer.script)
  {
    if |body| > U32_LIMIT - 1 {
      return Err(FrameTooLarge);
    }
    if |body| == BUFFER_AVAILABLE_MARKER {
      return Err(ReservedSize);
    }
    var prefix := LE32(|body|);
    r := WriteAll(writer, prefix);
    if r.Err? {
      ghost var k :| 0 <= k <= |prefix| && writer.out == old(writer.out) + prefix[..k];
      assert FrameBytes(body)[..k] == prefix[..k];
      return;
    }
    r := WriteAll(writer, body);
    if r.Err? {
      ghost var k :| 0 <= k <= |body| && writer.out == (old(writer.out) + prefix) + body[..k];
      assert FrameBytes(body)[..4 + k] == prefix + body[..k];
      assert writer.out == old(writer.out) + FrameBytes(body)[..4 + k];
    } else {
      assert (old(writer.out) + prefix) + body == old(writer.out) + FrameBytes(body);
    }
  }

  method MarshalFrame(body: seq<byte>) returns (r: Result<seq<byte>, Error>)
    ensures r.Ok? <==> Writable(body)
    ensures r.Ok? ==> |body| <= DEFAULT_MAX_BODY ==> ParseAll(r.value, 0) == Some([RecordOf(body)])
    ensures r.Ok? ==> r.value == FrameBytes(body)
  {
    if |body| > U32_LIMIT - 1 {
      return Err(FrameTooLarge);
    }
    if |body| == BUFFER_AVAILABLE_MARKER {
      return Err(ReservedSize);
    }
    r := Ok(LE32(|body|) + body);
    if |body| <= DEFAULT_MAX_BODY {
      FrameBytesAreRecord(body, 0);
      assert EncodeAll([RecordOf(body)], 0) == r.value;
      ParseAllExact(r.value, 0, [RecordOf(body)]);
    }
  }

  method WriteBufferAvailableRecord(writer: Sink, available: u32) returns (r: Result<(), Error>)
    modifies writer
    ensures r.Ok? ==> writer.out == old(writer.out) + Encode(BufferAvailable(available), 0)
    ensures r.Err? ==> EmittedPrefix(old(writer.out), Encode(BufferAvailable(available), 0), writer.out)
    ensures Healthy(old(writer.script)) ==> r.Ok? && Healthy(writer.script)
  {
    r := WriteAll(writer, LE32(BUFFER_AVAILABLE_MARKER) + LE32(available));
  }

  // ---------- whole streams ----------

  /** Sends one record with the function the server has for its kind. */
  method WriteRecord(writer: Sink, record: Record, maxBody: u32) returns (r: Result<(), Error>)
    requires Receivable(record, maxBody)
    modifies writer
    ensures Healthy(old(writer.script)) ==> r.Ok? && Healthy(writer.script)
    ensures r.Ok? ==> writer.out == old(writer.out) + Encode(record, maxBody)
    ensures r.Err? ==> EmittedPrefix(old(writer.out), Encode(record, maxBody), writer.out)
  {
    match record
    case Keepalive =>
      FrameBytesAreRecord([], maxBody);
      r := WriteFrame(writer, []);
    case Frame(body) =>
      FrameBytesAreRecord(body, maxBody);
      r := WriteFrame(writer, body);
    case BufferAvailable(available) =>
      r := WriteBufferAvailableRecord(writer, available);
  }

  lemma PrefixFurther(before: seq<byte>, head: seq<byte>, data: seq<byte>, whole: seq<byte>, after: seq<byte>)
    requires EmittedPrefix(before + head, data, after) && head + data <= whole
    ensures EmittedPrefix(before, whole, after)
  {
    var k :| 0 <= k <= |data| && after == (before + head) + data[..k];
    assert whole[..|head| + k] == head + data[..k];
    assert after == before + whole[..|head| + k];
  }

  /** The encodings of the records before i, of the i-th, and of the rest. */
  lemma EncodeSplit(records: seq<Record>, i: nat, maxBody: u32)
    requires AllReceivable(records, maxBody) && i < |records|
    ensures AllReceivable(records[..i], maxBody) && AllReceivable(records[..i + 1], maxBody)
    ensures EncodeAll(records[..i + 1], maxBody) == EncodeAll(records[..i], maxBody) + Encode(records[i], maxBody)
    ensures EncodeAll(records[..i + 1], maxBody) <= EncodeAll(records, maxBody)
  {
    hide Encode, Receivable;
    var head, last := records[..i], [records[i]];
    assert records[..i + 1] == head + last;
    EncodeAllAppend(head, last, maxBody);
    assert EncodeAll(last, maxBody) == Encode(records[i], maxBody) + EncodeAll([], maxBody);
    assert records == records[..i + 1] + records[i + 1..];
    EncodeAllAppend(records[..i + 1], records[i + 1..], maxBody);
  }

  /**
    Record streams synchronise themselves from end to end: over any writer that makes progress, however
    short its writes, a list of records is written as a stream that reads back as that list with nothing
    left over; on an error a prefix of that stream has been written.
   */
  method WriteRecords(writer: Sink, records: seq<Record>, maxBody: u32) returns (r: Result<(), Error>)
    requires AllReceivable(records, maxBody)
    modifies writer
    ensures Healthy(old(writer.script)) ==> r.Ok?
    ensures r.Ok? ==> old(writer.out) <= writer.out && ParseAll(writer.out[|old(writer.out)|..], maxBody) == Some(records)
    ensures r.Err? ==> EmittedPrefix(old(writer.out), EncodeAll(records, maxBody), writer.out)
  {
    hide Encode, Receivable, EmittedPrefix, ParseAll, EncodeAll;
    ghost var start := writer.out;
    NoRecords(start, maxBody);
    for i := 0 to |records|
      invariant AllReceivable(records[..i], maxBody)
      invariant writer.out == start + EncodeAll(records[..i], maxBody)
      invariant Healthy(old(writer.script)) ==> Healthy(writer.script)
    {
      EncodeSplit(records, i, maxBody);
      ghost var head := EncodeAll(records[..i], maxBody);
      r := WriteRecord(writer, records[i], maxBody);
      if r.Err? {
        PrefixFurther(start, head, Encode(records[i], maxBody), EncodeAll(records, maxBody), writer.out);
        return;
      }
      assert (start + head) + Encode(records[i], maxBody) == start + (head + Encode(records[i], maxBody));
    }
    assert records[..|records|] == records;
    ParseAllExact(EncodeAll(records, maxBody), maxBody, records);
    assert writer.out[|start|..] == EncodeAll(records, maxBody);
    r := Ok(());
  }

  lemma NoRecords(start: seq<byte>, maxBody: u32)
    ensures AllReceivable([], maxBody) && start + EncodeAll([], maxBody) == start
  {}
}
