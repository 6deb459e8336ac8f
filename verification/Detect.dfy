/**
 Protocol detection (tls/protocol.go, `detectProtocol`): what the first visit to a record takes
 its bytes for.  The answer is kept for the connection, so a wrong one is final.
 */
module Detect {
  import opened Common
  import opened Http2Framing
  import Chunked

  const SSL_MAX_DATA_SIZE := 4194304
  const STARTUP_MAX_LENGTH := 4096
  const FRAME_MAX_CODE := 0x9

  // "HTTP/"
  const RESPONSE_PREFIX: bytes := [0x48, 0x54, 0x54, 0x50, 0x2F]
  // "0\r\n\r\n"
  const CHUNK_END: bytes := [0x30, 0x0D, 0x0A, 0x0D, 0x0A]
  // GET, POST, PUT, DELETE, HEAD, OPTIONS, PATCH, TRACE, CONNECT
  const METHODS: seq<bytes> := [
    [0x47, 0x45, 0x54], [0x50, 0x4F, 0x53, 0x54], [0x50, 0x55, 0x54], [0x44, 0x45, 0x4C, 0x45, 0x54, 0x45],
    [0x48, 0x45, 0x41, 0x44], [0x4F, 0x50, 0x54, 0x49, 0x4F, 0x4E, 0x53], [0x50, 0x41, 0x54, 0x43, 0x48],
    [0x54, 0x52, 0x41, 0x43, 0x45], [0x43, 0x4F, 0x4E, 0x4E, 0x45, 0x43, 0x54]]

  datatype Kind = Http1 | Http2 | Postgres

  /** A protocol and the bytes cut off the front, none that is known, or a failing slice. */
  datatype Verdict = Known(kind: Kind, trim: nat) | Unknown | Panics

  // ---------- the tests, in order ----------

  predicate StartsRequest(buf: bytes) {
    exists i :: 0 <= i < |METHODS| && METHODS[i] <= buf
  }

  predicate IsControl(b: byte) {
    b < 0x20 || 0x7F <= b < 0xA0
  }

  predicate IsBinaryByte(b: byte) {
    IsControl(b) && b != 9 && b != 10 && b != 13
  }

  predicate IsBinary(data: bytes) {
    exists i :: 0 <= i < |data| && IsBinaryByte(data[i])
  }

  function StartupLength(buf: bytes): nat
    requires |buf| >= 4
  {
    (buf[0] as int) * 0x100_0000 + (buf[1] as int) * 0x1_0000 + (buf[2] as int) * 0x100 + buf[3] as int
  }

  /** A Postgres startup message: a short length, and protocol version 3. */
  predicate StartsPostgres(buf: bytes) {
    |buf| > 8 && StartupLength(buf) <= STARTUP_MAX_LENGTH && buf[4] == 0 && buf[5] == 3
  }

  // no flags but 0x1, 0x4, 0x8 and 0x20
  predicate FlagsKnown(flags: byte) {
    flags / 2 % 2 == 0 && flags / 16 % 2 == 0 && flags / 64 == 0
  }

  /** SETTINGS, PING, GOAWAY and WINDOW_UPDATE */
  predicate IsControlFrame(kind: byte) {
    kind == 0x4 || kind == 0x6 || kind == 0x7 || kind == 0x8
  }

  function DetectFrame(buf: bytes): Verdict {
    if |buf| < FRAME_HEADER_LEN then Unknown else
      var h := ParseHeader(buf);
      if h.length > SSL_MAX_DATA_SIZE || h.kind > FRAME_MAX_CODE || !FlagsKnown(h.flags) then Unknown
      else if h.sid == 0 && !IsControlFrame(h.kind) then Unknown
      else Known(Http2, 0)
  }

  function DetectText(buf: bytes): Verdict {
    var step := Chunked.ParseStream(buf);
    if step.OutOfBounds? then Panics
    else if step.Chunk? || !IsBinary(buf) then Known(Http1, 0)
    else DetectFrame(buf)
  }

  function Detect(buf: bytes): Verdict {
    if PREFACE <= buf then Known(Http2, 0)
    else if RESPONSE_PREFIX <= buf || CHUNK_END <= buf || StartsRequest(buf) then Known(Http1, 0)
    else if StartsPostgres(buf) then
      var length := StartupLength(buf);
      if length < 8 then Panics else Known(Postgres, Min(length, |buf|))
    else DetectText(buf)
  }

  /** What is already known of the connection decides; otherwise the bytes do. */
  function Judge(cached: Option<Kind>, buf: bytes): Verdict {
    if cached.Some? then Known(cached.value, 0) else Detect(buf)
  }

  method FindMethod(buf: bytes) returns (found: bool)
    ensures found == StartsRequest(buf)
  {
    found := false;
    var i := 0;
    while i < |METHODS|
      invariant 0 <= i <= |METHODS|
      invariant !found && forall j :: 0 <= j < i ==> !(METHODS[j] <= buf)
    {
      if METHODS[i] <= buf {
        return true;
      }
      i := i + 1;
    }
  }

  method FindBinary(data: bytes) returns (found: bool)
    ensures found == IsBinary(data)
  {
    found := false;
    var i := 0;
    while i < |data|
      invariant 0 <= i <= |data|
      invariant !found && forall j :: 0 <= j < i ==> !IsBinaryByte(data[j])
    {
      if IsBinaryByte(data[i]) {
        return true;
      }
      i := i + 1;
    }
  }

  method DetectBytes(buf: bytes) returns (v: Verdict)
    ensures v == Detect(buf)
  {
    if PREFACE <= buf {
      return Known(Http2, 0);
    }
    if RESPONSE_PREFIX <= buf || CHUNK_END <= buf {
      return Known(Http1, 0);
    }
    var request := FindMethod(buf);
    if request {
      return Known(Http1, 0);
    }
    if StartsPostgres(buf) {
      var length := StartupLength(buf);
      return if length < 8 then Panics else Known(Postgres, Min(length, |buf|));
    }
    var step := Chunked.ParseStream(buf);
    if step.OutOfBounds? {
      return Panics;
    }
    if step.Chunk? {
      return Known(Http1, 0);
    }
    var binary := FindBinary(buf);
    v := if binary then DetectFrame(buf) else Known(Http1, 0);
  }

  // ---------- what the first bytes of each protocol are taken for ----------

  /** No size line starts with a byte that is not a hexadecimal digit. */
  lemma NoSizeLine(buf: bytes)
    requires buf != [] && Chunked.Digit(buf[0]).None?
    ensures Chunked.ParseStream(buf).Malformed?
  {
    var idx := Chunked.LineEnd(buf);
    if idx.Some? {
      assert idx.value == 0 || buf[..idx.value][0] == buf[0];
    }
  }

  lemma NotThese(buf: bytes, b: byte)
    requires buf != [] && buf[0] == b && b != 0x48 && b != 0x30
    ensures !(RESPONSE_PREFIX <= buf) && !(CHUNK_END <= buf)
  {
    assert RESPONSE_PREFIX[0] == 0x48 && CHUNK_END[0] == 0x30;
  }

  /** Bytes that begin with 0 are no text: they start a Postgres connection or an HTTP/2 frame, or nothing. */
  lemma ZeroFirst(buf: bytes)
    requires buf != [] && buf[0] == 0
    ensures Detect(buf) ==
              if StartsPostgres(buf) then
                (if StartupLength(buf) < 8 then Panics else Known(Postgres, Min(StartupLength(buf), |buf|)))
              else DetectFrame(buf)
  {
    assert PREFACE[0] == 0x50;
    NotThese(buf, 0);
    assert forall i :: 0 <= i < |METHODS| ==> METHODS[i][0] != 0;
    assert !StartsRequest(buf);
    NoSizeLine(buf);
    assert IsBinaryByte(buf[0]);
  }

  /** A server's HTTP/2 connection, which starts with SETTINGS: known from its first nine bytes on, lost before. */
  lemma SettingsDetectedIff(w: bytes, n: nat)
    requires 0 < n <= |w| && |w| >= FRAME_HEADER_LEN && w[0] == 0
    requires ParseHeader(w).kind == 0x4 && ParseHeader(w).sid == 0 && FlagsKnown(ParseHeader(w).flags)
    ensures Detect(w[..n]) == if n >= FRAME_HEADER_LEN then Known(Http2, 0) else Unknown
  {
    ZeroFirst(w[..n]);
    assert w[5] == 0 || w[5] == 0x80;
    if n >= FRAME_HEADER_LEN {
      assert ParseHeader(w[..n]) == ParseHeader(w);
    }
  }

  /**
   A Postgres connection: known from its first nine bytes on; what is cut off is what is there
   of the startup message.  A length too short for the message's own head makes a slice fail.
   */
  lemma StartupDetectedIff(w: bytes, n: nat)
    requires 0 < n <= |w| && StartsPostgres(w)
    ensures Detect(w[..n]) ==
            if n <= 8 then Unknown
            else if StartupLength(w) < 8 then Panics
            else Known(Postgres, Min(StartupLength(w), n))
  {
    assert w[0] == 0;
    ZeroFirst(w[..n]);
  }

  /** Text that no other test recognises is taken for HTTP/1. */
  lemma TextIsHttp1(buf: bytes)
    requires buf != [] && Chunked.Digit(buf[0]).None? && !IsBinary(buf) && !StartsPostgres(buf) && !(PREFACE <= buf)
    ensures Detect(buf) == Known(Http1, 0)
  {
    NoSizeLine(buf);
  }

  lemma PrefaceIsText(buf: bytes)
    requires buf <= PREFACE
    ensures !IsBinary(buf) && !StartsPostgres(buf)
  {
    assert forall i :: 0 <= i < |PREFACE| ==> !IsBinaryByte(PREFACE[i]);
    assert forall i :: 0 <= i < |buf| ==> buf[i] == PREFACE[i];
    if |buf| > 8 {
      assert buf[0] == 0x50;
    }
  }

  /** A client's HTTP/2 connection: known once its whole preface is there, and taken for HTTP/1 before. */
  lemma PrefaceDetectedIff(w: bytes, n: nat)
    requires 0 < n <= |w| && PREFACE <= w
    ensures Detect(w[..n]) == if n >= |PREFACE| then Known(Http2, 0) else Known(Http1, 0)
  {
    if n >= |PREFACE| {
      assert PREFACE <= w[..n];
    } else {
      var buf := w[..n];
      assert buf == PREFACE[..n] && buf[0] == PREFACE[0] == 0x50;
      PrefaceIsText(buf);
      TextIsHttp1(buf);
    }
  }

  /** An HTTP/1 response is known by any part of its first line. */
  lemma ResponseDetected(w: bytes, n: nat)
    requires 0 < n <= |w| && RESPONSE_PREFIX <= w
    ensures Detect(w[..n]) == Known(Http1, 0)
  {
    var buf := w[..n];
    assert buf[0] == RESPONSE_PREFIX[0] == 0x48 && PREFACE[0] == 0x50;
    if n < |RESPONSE_PREFIX| {
      assert buf == RESPONSE_PREFIX[..n];
      assert forall i :: 0 <= i < |buf| ==> buf[i] == RESPONSE_PREFIX[i];
      assert forall i :: 0 <= i < |RESPONSE_PREFIX| ==> !IsBinaryByte(RESPONSE_PREFIX[i]);
      TextIsHttp1(buf);
    } else {
      assert RESPONSE_PREFIX <= buf;
    }
  }
}
