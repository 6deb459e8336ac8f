/**
 HTTP/2 stream reassembly (tls/http2.go): frames collected into per-stream messages.

 The header decoder `decode` belongs to a library and is arbitrary; its state `D` is
 shared by all streams of the connection.
 */
module Http2 {
  import opened Common
  import opened Http2Framing

  datatype Lib<!D> = Lib(
    strip: (FrameHeader, bytes) -> Stripped,
    early: bool,
    decode: (D, bytes) -> (D, Option<seq<HeaderField>>))

  datatype StreamState = StreamState(ready: bool, ended: bool, headers: seq<HeaderField>, body: bytes)

  datatype State<D> = State(decoder: D, headerStream: nat, block: bytes, streams: map<nat, StreamState>)

  // ---------- one frame applied to the connection state ----------

  function StreamAt<D>(st: State<D>, sid: nat): StreamState {
    if sid in st.streams then st.streams[sid] else StreamState(false, false, [], [])
  }

  function TryComplete<D>(st: State<D>, sid: nat): StepResult<State<D>> {
    if sid in st.streams && st.streams[sid].ready && st.streams[sid].ended then
      var s := st.streams[sid];
      Next(st.(streams := st.streams - {sid}), Some(Complete(sid, s.headers, s.body)))
    else
      Next(st, None)
  }

  function PutStream<D>(st: State<D>, sid: nat, s: StreamState): State<D> {
    st.(streams := st.streams[sid := s])
  }

  /** A header fragment joins the open block; a finished block is decoded into its stream. */
  function AddFragment<D>(
    lib: Lib<D>, st: State<D>, sid: nat, fragment: bytes, endHeaders: bool, endStream: bool): StepResult<State<D>>
  {
    var block := st.block + fragment;
    var s := StreamAt(st, sid);
    if endHeaders then
      var (d, fields) := lib.decode(st.decoder, block);
      if fields.None? then Fail else
        var s' := s.(headers := s.headers + fields.value, ready := true, ended := s.ended || endStream);
        TryComplete(PutStream(st.(decoder := d, headerStream := 0, block := []), sid, s'), sid)
    else
      TryComplete(PutStream(st.(block := block), sid, s.(ended := s.ended || endStream)), sid)
  }

  function Step<D>(lib: Lib<D>, st: State<D>, f: Frame): StepResult<State<D>> {
    match f
    case Headers(sid, fragment, endHeaders, endStream) =>
      if st.headerStream != 0 && st.headerStream != sid then Fail else
        var st1 := if st.headerStream == 0 then st.(headerStream := sid, block := []) else st;
        AddFragment(lib, st1, sid, fragment, endHeaders, endStream)
    case Continuation(sid, fragment, endHeaders) =>
      if st.headerStream == 0 || st.headerStream != sid then Fail
      else AddFragment(lib, st, sid, fragment, endHeaders, false)
    case Data(sid, payload, endStream) =>
      var s := StreamAt(st, sid);
      TryComplete(PutStream(st, sid, s.(body := s.body + payload, ended := s.ended || endStream)), sid)
    case Reset(sid) =>
      var st1 := st.(streams := st.streams - {sid});
      var st2 := if st.headerStream == sid then st1.(headerStream := 0, block := []) else st1;
      Next(st2, Some(Canceled(sid)))
    case Ignored => Next(st, None)
  }

  /** The frame reader working on this state. */
  function ReaderOf<D(!new)>(lib: Lib<D>): Reader<State<D>> {
    FrameReader(lib.strip, lib.early, (st: State<D>, f: Frame) => Step(lib, st, f))
  }

  lemma ReaderIsSound<D(!new)>(lib: Lib<D>)
    ensures Sound(ReaderOf(lib))
  {
    FrameReaderIsSound(lib.strip, lib.early, (st: State<D>, f: Frame) => Step(lib, st, f));
  }

  /** The connection state as the program holds it, and the parser's frame loop. */
  class Http2State<D(!new)> {
    const lib: Lib<D>
    var prefaceConsumed: bool
    var decoder: D
    var headerStream: nat
    var block: bytes
    var streams: map<nat, StreamState>

    ghost function View(): State<D>
      reads this
    {
      State(decoder, headerStream, block, streams)
    }

    constructor (lib: Lib<D>, decoder: D)
      ensures this.lib == lib
      ensures View() == State(decoder, 0, [], map[]) && !prefaceConsumed
    {
      this.lib := lib;
      this.decoder := decoder;
      prefaceConsumed, headerStream, block, streams := false, 0, [], map[];
    }

    method EnsureStream(sid: nat) returns (s: StreamState)
      modifies this`decoder, this`headerStream, this`block, this`streams
      ensures s == StreamAt(old(View()), sid)
      ensures View() == PutStream(old(View()), sid, s)
    {
      if sid !in streams {
        streams := streams[sid := StreamState(false, false, [], [])];
      }
      s := streams[sid];
      assert streams == old(streams)[sid := s];
    }

    method TryCompleteStream(sid: nat) returns (msg: Option<Message>)
      modifies this`decoder, this`headerStream, this`block, this`streams
      ensures Next(View(), msg) == TryComplete(old(View()), sid)
    {
      msg := None;
      if sid in streams && streams[sid].ready && streams[sid].ended {
        msg := Some(Complete(sid, streams[sid].headers, streams[sid].body));
        streams := streams - {sid};
      }
    }

    method Fragment(sid: nat, fragment: bytes, endHeaders: bool, endStream: bool)
      returns (ok: bool, msg: Option<Message>)
      modifies this`decoder, this`headerStream, this`block, this`streams
      ensures ok == AddFragment(lib, old(View()), sid, fragment, endHeaders, endStream).Next?
      ensures ok ==> Next(View(), msg) == AddFragment(lib, old(View()), sid, fragment, endHeaders, endStream)
    {
      ghost var before := View();
      var s := EnsureStream(sid);
      block := block + fragment;
      if endHeaders {
        var (d, fields) := lib.decode(decoder, block);
        if fields.None? {
          return false, None;
        }
        decoder := d;
        s := s.(headers := s.headers + fields.value, ready := true);
        headerStream, block := 0, [];
      }
      if endStream {
        s := s.(ended := true);
      }
      streams := streams[sid := s];
      assert streams == before.streams[sid := s];
      msg := TryCompleteStream(sid);
      ok := true;
    }

    method ApplyFrame(f: Frame) returns (ok: bool, msg: Option<Message>)
      modifies this`decoder, this`headerStream, this`block, this`streams
      ensures ok == Step(lib, old(View()), f).Next?
      ensures ok ==> Next(View(), msg) == Step(lib, old(View()), f)
    {
      ok, msg := true, None;
      match f {
        case Headers(sid, fragment, endHeaders, endStream) =>
          if headerStream != 0 && headerStream != sid {
            return false, None;
          }
          if headerStream == 0 {
            headerStream, block := sid, [];
          }
          ok, msg := Fragment(sid, fragment, endHeaders, endStream);
        case Continuation(sid, fragment, endHeaders) =>
          if headerStream == 0 || headerStream != sid {
            return false, None;
          }
          ok, msg := Fragment(sid, fragment, endHeaders, false);
        case Data(sid, payload, endStream) =>
          ghost var before := View();
          var s := EnsureStream(sid);
          s := s.(body := s.body + payload);
          if endStream {
            s := s.(ended := true);
          }
          streams := streams[sid := s];
          assert streams == before.streams[sid := s];
          msg := TryCompleteStream(sid);
        case Reset(sid) =>
          streams := streams - {sid};
          if headerStream == sid {
            headerStream, block := 0, [];
          }
          msg := Some(Canceled(sid));
        case Ignored =>
      }
    }

    /** Reads the next frame and applies it; nothing is used up when the frame is incomplete. */
    method ReadAndApply(data: bytes, open: nat)
      returns (ok: bool, msg: Option<Message>, used: nat, open': nat)
      modifies this`decoder, this`headerStream, this`block, this`streams
      ensures var t := OneFrame(ReaderOf(lib), old(View()), open, data);
              && ok == !t.Error?
              && (ok && used == 0 <==> t.Wait?)
              && (t.Wait? ==> View() == old(View()))
              && (t.Moved? ==> t == Moved(View(), msg, used, open'))
    {
      ok, msg, used, open' := true, None, 0, open;
      FrameReaderReads(lib.strip, lib.early, (st: State<D>, f: Frame) => Step(lib, st, f), data);
      match ReadFrame(lib.strip, data) {
        case Incomplete =>
          var a := PeekFrame(lib.early, data);
          ok := a.None? || Allowed(open, a.value);
        case Malformed => ok := false;
        case Got(f, n) =>
          if !InOrder(open, f) {
            return false, None, 0, open;
          }
          ok, msg := ApplyFrame(f);
          used, open' := n, NextOpen(open, f);
      }
    }

    /** The frame loop over what follows the preface. */
    method FrameLoop(data: bytes) returns (ok: bool, msg: Option<Message>, consumed: nat)
      modifies this`decoder, this`headerStream, this`block, this`streams
      ensures var r := Frames(ReaderOf(lib), old(View()), 0, data);
              && ok == r.Returned?
              && (ok ==> View() == r.st && msg == r.msg && consumed == r.consumed)
    {
      ghost var want := Frames(ReaderOf(lib), View(), 0, data);
      consumed := 0;
      var open, rest := 0, data;
      while true
        invariant want == Shift(Frames(ReaderOf(lib), View(), open, rest), consumed)
        decreases |rest|
      {
        var used, open';
        ok, msg, used, open' := ReadAndApply(rest, open);
        if !ok || used == 0 {
          return ok, None, consumed;
        }
        open, rest, consumed := open', rest[used..], consumed + used;
        if msg.Some? {
          return;
        }
      }
    }

    /** The parser's entry point: at most one message per call, with the bytes it used up. */
    method ParseCall(stream: bytes) returns (ok: bool, msg: Option<Message>, consumed: nat)
      modifies this
      ensures var c := Conn(old(prefaceConsumed), old(View()));
              var r := Parse(ReaderOf(lib), c, stream);
              && ok == r.Returned?
              && (ok ==> msg == r.msg && consumed == r.consumed
                         && Conn(prefaceConsumed, View()) == After(c, stream, r.st))
    {
      var skip := 0;
      if !prefaceConsumed && PREFACE <= stream {
        prefaceConsumed, skip := true, |PREFACE|;
      }
      ok, msg, consumed := FrameLoop(stream[skip..]);
      consumed := consumed + skip;
    }
  }
}
