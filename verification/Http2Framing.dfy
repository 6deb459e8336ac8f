/**
 The HTTP/2 frame reader (tls/http2.go, the loop of `parse`).

 The frame header is read as section 4.1 of RFC 7540 lays it out.  What the library does
 with a payload (`strip`: validation, removal of padding and priority fields) is arbitrary,
 and so is the machine the frames are applied to (`apply`, supplied by module Http2): every
 statement here holds for all choices of the two.  The reader's frame-order rule
 (section 6.10 of RFC 7540) is modelled as it behaves in the program: the reader is rebuilt,
 and so forgets, on each call.  Versions of the library differ in when they apply that rule,
 to a whole frame or already to its nine-byte header; both are covered (`peek`).
 */
module Http2Framing {
  import opened Common

  const FRAME_HEADER_LEN := 9
  const FRAME_DATA := 0x0
  const FRAME_HEADERS := 0x1
  const FRAME_RST_STREAM := 0x3
  const FRAME_CONTINUATION := 0x9

  // "PRI * HTTP/2.0\r\n\r\nSM\r\n\r\n"
  const PREFACE: bytes := [
    0x50, 0x52, 0x49, 0x20, 0x2a, 0x20, 0x48, 0x54, 0x54, 0x50, 0x2f, 0x32, 0x2e, 0x30,
    0x0d, 0x0a, 0x0d, 0x0a, 0x53, 0x4d, 0x0d, 0x0a, 0x0d, 0x0a]

  /** What the library makes of a payload: content, a short read, or a rejection. */
  datatype Stripped = Content(content: bytes) | ShortRead | Rejected

  datatype FrameHeader = FrameHeader(length: nat, kind: byte, flags: byte, sid: nat)

  datatype HeaderField = HeaderField(name: string, value: string)

  datatype Message =
    | Complete(sid: nat, headers: seq<HeaderField>, body: bytes)
    | Canceled(sid: nat)

  datatype Frame =
    | Headers(sid: nat, fragment: bytes, endHeaders: bool, endStream: bool)
    | Continuation(sid: nat, fragment: bytes, endHeaders: bool)
    | Data(sid: nat, payload: bytes, endStream: bool)
    | Reset(sid: nat)
    | Ignored

  datatype StepResult<S> = Fail | Next(st: S, msg: Option<Message>)

  datatype ReadResult = Incomplete | Malformed | Got(frame: Frame, len: nat)

  // ---------- reading one frame ----------

  function ParseHeader(data: bytes): FrameHeader
    requires |data| >= FRAME_HEADER_LEN
  {
    FrameHeader(
      (data[0] as int) * 0x1_0000 + (data[1] as int) * 0x100 + data[2], data[3], data[4],
      (data[5] as int) % 0x80 * 0x100_0000 + (data[6] as int) * 0x1_0000 + (data[7] as int) * 0x100 + data[8])
  }

  // flag 0x1
  predicate EndsStream(flags: byte) {
    flags % 2 == 1
  }

  // flag 0x4
  predicate EndsHeaders(flags: byte) {
    flags / 4 % 2 == 1
  }

  function MakeFrame(h: FrameHeader, content: bytes): Frame {
    if h.kind == FRAME_HEADERS then Headers(h.sid, content, EndsHeaders(h.flags), EndsStream(h.flags))
    else if h.kind == FRAME_CONTINUATION then Continuation(h.sid, content, EndsHeaders(h.flags))
    else if h.kind == FRAME_DATA then Data(h.sid, content, EndsStream(h.flags))
    else if h.kind == FRAME_RST_STREAM then Reset(h.sid)
    else Ignored
  }

  /** One frame off the front of the buffer; both kinds of end-of-input count as incomplete. */
  function ReadFrame(strip: (FrameHeader, bytes) -> Stripped, data: bytes): (r: ReadResult) {
    if |data| < FRAME_HEADER_LEN then Incomplete else
      var h := ParseHeader(data);
      var total := FRAME_HEADER_LEN + h.length;
      if |data| < total then Incomplete else
        match strip(h, data[FRAME_HEADER_LEN..total])
        case ShortRead => Incomplete
        case Rejected => Malformed
        case Content(c) => Got(MakeFrame(h, c), total)
  }

  /** Bytes that arrive later do not change how a frame already read, or rejected, is read. */
  lemma ReadFrameStable(strip: (FrameHeader, bytes) -> Stripped, data: bytes, more: bytes)
    ensures !ReadFrame(strip, data).Incomplete? ==> ReadFrame(strip, data + more) == ReadFrame(strip, data)
  {
    if |data| >= FRAME_HEADER_LEN {
      var h := ParseHeader(data);
      assert ParseHeader(data + more) == h;
      var total := FRAME_HEADER_LEN + h.length;
      if total <= |data| {
        assert (data + more)[FRAME_HEADER_LEN..total] == data[FRAME_HEADER_LEN..total];
      }
    }
  }

  /** What the order rule needs to know of a frame. */
  datatype Ahead = Ahead(continuation: bool, sid: nat)

  /** The same read off the frame header alone, when the library looks at it that early. */
  function PeekFrame(early: bool, data: bytes): Option<Ahead> {
    if early && |data| >= FRAME_HEADER_LEN then
      var h := ParseHeader(data);
      Some(Ahead(h.kind == FRAME_CONTINUATION, h.sid))
    else None
  }

  /** A proper prefix of the preface reads as an unfinished frame, so it just waits. */
  lemma PartialPrefaceWaits(strip: (FrameHeader, bytes) -> Stripped, early: bool, buf: bytes)
    requires buf < PREFACE
    ensures ReadFrame(strip, buf).Incomplete?
    ensures PeekFrame(early, buf).Some? ==> !PeekFrame(early, buf).value.continuation
  {
    if |buf| >= FRAME_HEADER_LEN {
      assert forall i | 0 <= i < 4 :: buf[i] == PREFACE[i];
      assert ParseHeader(buf).length == 0x50_5249 && ParseHeader(buf).kind == 0x20;
    }
  }

  // ---------- the parser, over any way of reading and applying frames ----------

  datatype Reader<!S> = Reader(
    read: bytes -> ReadResult,
    peek: bytes -> Option<Ahead>,
    apply: (S, Frame) -> StepResult<S>)

  function Read<S>(reader: Reader<S>, data: bytes): (r: ReadResult)
    ensures r.Got? ==> 0 < r.len <= |data|
  {
    var r := reader.read(data);
    if r.Got? && !(0 < r.len <= |data|) then Malformed else r
  }

  /** Looking ahead tells of the frame that is read later. */
  predicate Foretells<S>(reader: Reader<S>, data: bytes) {
    var a, r := reader.peek(data), Read(reader, data);
    a.Some? && r.Got? ==>
      a.value.continuation == r.frame.Continuation? && (r.frame.Continuation? ==> a.value.sid == r.frame.sid)
  }

  /** Decisions are final: about a frame, and about what is ahead. */
  predicate Final<S>(reader: Reader<S>, data: bytes, more: bytes) {
    && (!Read(reader, data).Incomplete? ==> Read(reader, data + more) == Read(reader, data))
    && (reader.peek(data).Some? ==> reader.peek(data + more) == reader.peek(data))
  }

  predicate WaitsFor<S>(reader: Reader<S>, buf: bytes) {
    Read(reader, buf).Incomplete? && (reader.peek(buf).Some? ==> !reader.peek(buf).value.continuation)
  }

  /** What the parser relies on; the last part is that half a preface waits. */
  ghost predicate Sound<S>(reader: Reader<S>) {
    && (forall data, more :: Final(reader, data, more))
    && (forall data :: Foretells(reader, data))
    && (forall buf :: buf < PREFACE ==> WaitsFor(reader, buf))
  }

  /** The reader of the program. */
  function FrameReader<S(!new)>(
    strip: (FrameHeader, bytes) -> Stripped, early: bool, apply: (S, Frame) -> StepResult<S>): Reader<S>
  {
    Reader(data => ReadFrame(strip, data), data => PeekFrame(early, data), apply)
  }

  lemma FrameReaderReads<S(!new)>(
    strip: (FrameHeader, bytes) -> Stripped, early: bool, apply: (S, Frame) -> StepResult<S>, data: bytes)
    ensures Read(FrameReader(strip, early, apply), data) == ReadFrame(strip, data)
    ensures FrameReader(strip, early, apply).peek(data) == PeekFrame(early, data)
  {
  }

  /** It is sound, whatever the library does with payloads and whenever it applies the order rule. */
  lemma FrameReaderIsSound<S(!new)>(
    strip: (FrameHeader, bytes) -> Stripped, early: bool, apply: (S, Frame) -> StepResult<S>)
    ensures Sound(FrameReader(strip, early, apply))
  {
    var reader := FrameReader(strip, early, apply);
    forall data, more ensures Final(reader, data, more) {
      FrameReaderReads(strip, early, apply, data);
      FrameReaderReads(strip, early, apply, data + more);
      ReadFrameStable(strip, data, more);
    }
    forall data ensures Foretells(reader, data) {
      FrameReaderReads(strip, early, apply, data);
    }
    forall buf | buf < PREFACE ensures WaitsFor(reader, buf) {
      FrameReaderReads(strip, early, apply, buf);
      PartialPrefaceWaits(strip, early, buf);
    }
  }

  // ---------- the reader's frame-order rule ----------

  /** `open` is the stream whose header block is unfinished, 0 when there is none. */
  predicate InOrder(open: nat, f: Frame) {
    if open != 0 then f.Continuation? && f.sid == open else !f.Continuation?
  }

  /** The rule applied to what is ahead. */
  predicate Allowed(open: nat, a: Ahead) {
    if open != 0 then a.continuation && a.sid == open else !a.continuation
  }

  function NextOpen(open: nat, f: Frame): nat {
    if f.Headers? || f.Continuation? then (if f.endHeaders then 0 else f.sid) else open
  }

  // ---------- one call of the parser ----------

  /** One turn of the frame loop. */
  datatype Turn<S> = Wait | Error | Moved(st: S, msg: Option<Message>, len: nat, open: nat)

  function OneFrame<S>(reader: Reader<S>, st: S, open: nat, data: bytes): (t: Turn<S>)
    ensures t.Moved? ==> 0 < t.len <= |data|
  {
    match Read(reader, data)
    case Incomplete =>
      var a := reader.peek(data);
      if a.Some? && !Allowed(open, a.value) then Error else Wait
    case Malformed => Error
    case Got(f, n) =>
      if !InOrder(open, f) then Error else
        match reader.apply(st, f)
        case Fail => Error
        case Next(st', msg) => Moved(st', msg, n, NextOpen(open, f))
  }

  /** `open` records the reader's memory when the call stopped; it is thrown away afterwards. */
  datatype CallResult<S> = Failed | Returned(st: S, msg: Option<Message>, consumed: nat, open: nat)

  function Shift<S>(r: CallResult<S>, n: nat): CallResult<S> {
    if r.Failed? then Failed else r.(consumed := r.consumed + n)
  }

  function Frames<S>(reader: Reader<S>, st: S, open: nat, data: bytes): (r: CallResult<S>)
    ensures r.Returned? ==> r.consumed <= |data|
    ensures r.Returned? && r.msg.Some? ==> r.consumed > 0
    ensures r.Returned? && r.consumed == 0 ==> r.st == st && r.open == open
    decreases |data|
  {
    match OneFrame(reader, st, open, data)
    case Wait => Returned(st, None, 0, open)
    case Error => Failed
    case Moved(st', msg, n, open') =>
      if msg.Some? then Returned(st', msg, n, open')
      else Shift(Frames(reader, st', open', data[n..]), n)
  }

  /** The connection preface is looked for at the start of a call until it has been seen. */
  datatype Conn<S> = Conn(prefaceSeen: bool, st: S)

  predicate AtPreface(prefaceSeen: bool, data: bytes) {
    !prefaceSeen && PREFACE <= data
  }

  /** Bytes skipped at the start of a call. */
  function Skip(prefaceSeen: bool, data: bytes): (n: nat)
    ensures n <= |data|
  {
    if AtPreface(prefaceSeen, data) then |PREFACE| else 0
  }

  function Parse<S>(reader: Reader<S>, c: Conn<S>, data: bytes): CallResult<S> {
    var k := Skip(c.prefaceSeen, data);
    Shift(Frames(reader, c.st, 0, data[k..]), k)
  }

  /** The connection after a call that returned `st`. */
  function After<S>(c: Conn<S>, data: bytes, st: S): Conn<S> {
    Conn(c.prefaceSeen || AtPreface(c.prefaceSeen, data), st)
  }
}
