/**
 Interleaving-independence of HTTP/2 reassembly: what one stream yields depends only on
 its own frames and on the header decodings, whatever other streams are mixed in.  The
 decoder is the one shared thing, and it is fed whole blocks in connection order.
 */
module Http2Streams {
  import opened Common
  import opened Http2Framing
  import opened Http2
  import opened Http2Cuts

  // ---------- the connection, frame by frame ----------

  datatype Run<D> = Stuck | Ran(msgs: seq<Message>, st: State<D>)

  function RunFrames<D>(lib: Lib<D>, st: State<D>, frames: seq<Frame>): Run<D>
    decreases |frames|
  {
    if frames == [] then Ran([], st) else
      match Step(lib, st, frames[0])
      case Fail => Stuck
      case Next(st', msg) =>
        match RunFrames(lib, st', frames[1..])
        case Stuck => Stuck
        case Ran(msgs, end) => Ran(ToSeq(msg) + msgs, end)
  }

  function FramesIn<S>(reader: Reader<S>, data: bytes): seq<Frame>
    decreases |data|
  {
    match Read(reader, data)
    case Got(f, n) => [f] + FramesIn(reader, data[n..])
    case _ => []
  }

  /** Reading bytes in one pass is running the frames they contain. */
  lemma {:induction false} OnePassRunsFrames<D(!new)>(lib: Lib<D>, c: Conn<State<D>>, open: nat, data: bytes)
    requires !Flow(ReaderOf(lib), c, open, data).end.Broken?
    ensures var o := Flow(ReaderOf(lib), c, open, data);
            RunFrames(lib, c.st, FramesIn(ReaderOf(lib), data)) == Ran(o.msgs, o.end.conn.st)
    decreases |data|
  {
    var reader := ReaderOf(lib);
    var t := OneFrame(reader, c.st, open, data);
    if t.Moved? {
      var frames := FramesIn(reader, data);
      var tail := data[t.len..];
      assert frames[1..] == FramesIn(reader, tail);
      OnePassRunsFrames(lib, c.(st := t.st), if t.msg.Some? then 0 else t.open, tail);
    }
  }

  // ---------- the shared part: block assembly and the decoder ----------

  /** What a frame means to its own stream. */
  datatype Event =
    | Part(end: bool)
    | Block(fields: seq<HeaderField>, end: bool)
    | Body(payload: bytes, end: bool)
    | Rst

  datatype Wire<D> = Wire(decoder: D, headerStream: nat, block: bytes)

  datatype WireResult<D> = Reject | Accept(wire: Wire<D>, event: Option<Event>)

  function WireOf<D>(st: State<D>): Wire<D> {
    Wire(st.decoder, st.headerStream, st.block)
  }

  function WireFragment<D>(lib: Lib<D>, w: Wire<D>, fragment: bytes, endHeaders: bool, endStream: bool): WireResult<D> {
    var block := w.block + fragment;
    if endHeaders then
      var (d, fields) := lib.decode(w.decoder, block);
      if fields.None? then Reject else Accept(Wire(d, 0, []), Some(Block(fields.value, endStream)))
    else
      Accept(w.(block := block), Some(Part(endStream)))
  }

  function WireStep<D>(lib: Lib<D>, w: Wire<D>, f: Frame): WireResult<D> {
    match f
    case Headers(sid, fragment, endHeaders, endStream) =>
      if w.headerStream != 0 && w.headerStream != sid then Reject
      else
        var w1 := if w.headerStream == 0 then Wire(w.decoder, sid, []) else w;
        WireFragment(lib, w1, fragment, endHeaders, endStream)
    case Continuation(sid, fragment, endHeaders) =>
      if w.headerStream == 0 || w.headerStream != sid then Reject
      else WireFragment(lib, w, fragment, endHeaders, false)
    case Data(_, payload, endStream) => Accept(w, Some(Body(payload, endStream)))
    case Reset(sid) => Accept(if w.headerStream == sid then Wire(w.decoder, 0, []) else w, Some(Rst))
    case Ignored => Accept(w, None)
  }

  // ---------- the private part: one stream on its own ----------

  function StreamStep(sid: nat, cur: Option<StreamState>, e: Event): (Option<StreamState>, Option<Message>) {
    var s := if cur.Some? then cur.value else StreamState(false, false, [], []);
    match e
    case Rst => (None, Some(Canceled(sid)))
    case _ =>
      var s' := match e
        case Part(end) => s.(ended := s.ended || end)
        case Block(fields, end) => s.(ready := true, ended := s.ended || end, headers := s.headers + fields)
        case Body(payload, end) => s.(ended := s.ended || end, body := s.body + payload);
      if s'.ready && s'.ended then (None, Some(Complete(sid, s'.headers, s'.body))) else (Some(s'), None)
  }

  function StreamRun(sid: nat, cur: Option<StreamState>, events: seq<Event>): (Option<StreamState>, seq<Message>)
    decreases |events|
  {
    if events == [] then (cur, []) else
      var (cur', msg) := StreamStep(sid, cur, events[0]);
      var (end, msgs) := StreamRun(sid, cur', events[1..]);
      (end, ToSeq(msg) + msgs)
  }

  function Lookup(streams: map<nat, StreamState>, sid: nat): Option<StreamState> {
    if sid in streams then Some(streams[sid]) else None
  }

  predicate Touches(f: Frame, sid: nat) {
    !f.Ignored? && f.sid == sid
  }

  /** The events of one stream, read off the whole connection. */
  function EventsOf<D>(lib: Lib<D>, w: Wire<D>, frames: seq<Frame>, sid: nat): seq<Event>
    decreases |frames|
  {
    if frames == [] then [] else
      match WireStep(lib, w, frames[0])
      case Reject => []
      case Accept(w', e) =>
        (if Touches(frames[0], sid) then ToSeq(e) else []) + EventsOf(lib, w', frames[1..], sid)
  }

  function MessagesOf(msgs: seq<Message>, sid: nat): seq<Message> {
    if msgs == [] then []
    else (if msgs[0].sid == sid then [msgs[0]] else []) + MessagesOf(msgs[1..], sid)
  }

  lemma {:induction false} MessagesOfSplit(a: seq<Message>, b: seq<Message>, sid: nat)
    ensures MessagesOf(a + b, sid) == MessagesOf(a, sid) + MessagesOf(b, sid)
  {
    if a == [] {
      assert a + b == b;
      assert [] + MessagesOf(b, sid) == MessagesOf(b, sid);
    } else {
      assert (a + b)[1..] == a[1..] + b;
      MessagesOfSplit(a[1..], b, sid);
      Assoc(if a[0].sid == sid then [a[0]] else [], MessagesOf(a[1..], sid), MessagesOf(b, sid));
    }
  }

  /** One frame: the shared part moves by itself, only the frame's own stream changes. */
  ghost predicate Splits<D>(st: State<D>, f: Frame, r: StepResult<State<D>>, w: WireResult<D>) {
    && (r.Fail? <==> w.Reject?)
    && (r.Next? ==>
          && WireOf(r.st) == w.wire
          && (f.Ignored? <==> w.event.None?)
          && (forall sid :: !Touches(f, sid) ==> Lookup(r.st.streams, sid) == Lookup(st.streams, sid))
          && (if f.Ignored? then r.msg == None
              else (Lookup(r.st.streams, f.sid), r.msg) == StreamStep(f.sid, Lookup(st.streams, f.sid), w.event.value)))
  }

  lemma FragmentSplits<D>(lib: Lib<D>, st: State<D>, f: Frame, endStream: bool)
    requires f.Headers? || f.Continuation?
    ensures Splits(st, f, AddFragment(lib, st, f.sid, f.fragment, f.endHeaders, endStream),
                   WireFragment(lib, WireOf(st), f.fragment, f.endHeaders, endStream))
  {
  }

  lemma StepSplits<D>(lib: Lib<D>, st: State<D>, f: Frame)
    ensures Splits(st, f, Step(lib, st, f), WireStep(lib, WireOf(st), f))
  {
    match f
    case Headers(sid, _, _, endStream) =>
      FragmentSplits(lib, if st.headerStream == 0 then st.(headerStream := sid, block := []) else st, f, endStream);
    case Continuation(sid, _, _) =>
      FragmentSplits(lib, st, f, false);
    case Data(_, _, _) =>
    case Reset(_) =>
    case Ignored =>
  }

  lemma StepMessageIsOwn<D>(lib: Lib<D>, st: State<D>, f: Frame)
    ensures var r := Step(lib, st, f);
            r.Next? && r.msg.Some? ==> !f.Ignored? && r.msg.value.sid == f.sid
  {
  }

  /** Each stream of a run behaves as it would alone, fed its own events. */
  lemma {:induction false} StreamsAreIndependent<D>(lib: Lib<D>, st: State<D>, frames: seq<Frame>, sid: nat)
    requires RunFrames(lib, st, frames).Ran?
    ensures var run := RunFrames(lib, st, frames);
            (Lookup(run.st.streams, sid), MessagesOf(run.msgs, sid)) ==
            StreamRun(sid, Lookup(st.streams, sid), EventsOf(lib, WireOf(st), frames, sid))
    decreases |frames|
  {
    if frames != [] {
      var f, tail := frames[0], frames[1..];
      StepSplits(lib, st, f);
      StepMessageIsOwn(lib, st, f);
      var r := Step(lib, st, f);
      StreamsAreIndependent(lib, r.st, tail, sid);
      var msgs := RunFrames(lib, r.st, tail).msgs;
      MessagesOfSplit(ToSeq(r.msg), msgs, sid);
      var later := EventsOf(lib, WireOf(r.st), tail, sid);
      if Touches(f, sid) {
        var e := WireStep(lib, WireOf(st), f).event.value;
        StreamRunCons(sid, Lookup(st.streams, sid), e, later);
        assert MessagesOf(ToSeq(r.msg), sid) == ToSeq(r.msg);
      } else {
        assert [] + later == later;
        assert MessagesOf(ToSeq(r.msg), sid) == [];
        assert [] + MessagesOf(msgs, sid) == MessagesOf(msgs, sid);
      }
    }
  }

  lemma StreamRunCons(sid: nat, cur: Option<StreamState>, e: Event, later: seq<Event>)
    ensures var (cur', msg) := StreamStep(sid, cur, e);
            var (end, msgs) := StreamRun(sid, cur', later);
            StreamRun(sid, cur, [e] + later) == (end, ToSeq(msg) + msgs)
  {
    assert ([e] + later)[1..] == later;
  }

  // ---------- what one stream yields ----------

  predicate HasBlock(events: seq<Event>) {
    events != [] && (events[0].Block? || HasBlock(events[1..]))
  }

  predicate HasEnd(events: seq<Event>) {
    events != [] && ((!events[0].Rst? && events[0].end) || HasEnd(events[1..]))
  }

  /** The stream has all it needs: a decoded header block and an end mark. */
  predicate Finished(events: seq<Event>) {
    HasBlock(events) && HasEnd(events)
  }

  function FieldsOf(events: seq<Event>): seq<HeaderField> {
    if events == [] then []
    else (if events[0].Block? then events[0].fields else []) + FieldsOf(events[1..])
  }

  function PayloadOf(events: seq<Event>): bytes {
    if events == [] then []
    else (if events[0].Body? then events[0].payload else []) + PayloadOf(events[1..])
  }

  /** What a stream state owes to the events that built it. */
  function Grown(s: StreamState, events: seq<Event>): StreamState {
    StreamState(s.ready || HasBlock(events), s.ended || HasEnd(events),
                s.headers + FieldsOf(events), s.body + PayloadOf(events))
  }

  function Base(cur: Option<StreamState>): StreamState {
    if cur.Some? then cur.value else StreamState(false, false, [], [])
  }

  /** Until the last event the stream only collects; the last event releases it, if it finishes. */
  lemma {:induction false} StreamCollects(sid: nat, cur: Option<StreamState>, events: seq<Event>)
    requires events != [] && Rst !in events
    requires var s := Grown(Base(cur), events[..|events| - 1]); !(s.ready && s.ended)
    ensures var s := Grown(Base(cur), events);
            StreamRun(sid, cur, events) ==
            if s.ready && s.ended then (None, [Complete(sid, s.headers, s.body)]) else (Some(s), [])
    decreases |events|
  {
    var e, tail := events[0], events[1..];
    assert events == [e] + tail;
    StepCollects(sid, cur, e);
    StreamRunCons(sid, cur, e, tail);
    if tail == [] {
      assert events == [e];
      var msg := StreamStep(sid, cur, e).1;
      assert ToSeq(msg) + [] == ToSeq(msg);
    } else {
      var front := tail[..|tail| - 1];
      assert events[..|events| - 1] == [e] + front;
      GrownCons(Base(cur), e, tail);
      GrownCons(Base(cur), e, front);
      var cur' := Some(Grown(Base(cur), [e]));
      StreamCollects(sid, cur', tail);
      assert [] + StreamRun(sid, cur', tail).1 == StreamRun(sid, cur', tail).1;
    }
  }

  /** One event that is not a reset. */
  lemma StepCollects(sid: nat, cur: Option<StreamState>, e: Event)
    requires !e.Rst?
    ensures var s := Grown(Base(cur), [e]);
            StreamStep(sid, cur, e) ==
            if s.ready && s.ended then (None, Some(Complete(sid, s.headers, s.body))) else (Some(s), None)
  {
    GrownOne(Base(cur), e);
  }

  lemma GrownOne(s: StreamState, e: Event)
    requires !e.Rst?
    ensures Grown(s, [e]) == match e
      case Part(end) => s.(ended := s.ended || end)
      case Block(fields, end) => s.(ready := true, ended := s.ended || end, headers := s.headers + fields)
      case Body(payload, end) => s.(ended := s.ended || end, body := s.body + payload)
  {
    EventsCons(e, []);
    assert [e] + [] == [e];
    assert s.headers + [] == s.headers && s.body + [] == s.body;
    assert FieldsOf([e]) == if e.Block? then e.fields else [];
    assert PayloadOf([e]) == if e.Body? then e.payload else [];
  }

  lemma GrownCons(s: StreamState, e: Event, tail: seq<Event>)
    requires !e.Rst?
    ensures Grown(s, [e] + tail) == Grown(Grown(s, [e]), tail)
  {
    EventsCons(e, tail);
    EventsCons(e, []);
    assert [e] + [] == [e];
    var fields, payload := if e.Block? then e.fields else [], if e.Body? then e.payload else [];
    assert fields + [] == fields && payload + [] == payload;
    Assoc(s.headers, fields, FieldsOf(tail));
    Assoc(s.body, payload, PayloadOf(tail));
  }

  lemma EventsCons(e: Event, tail: seq<Event>)
    requires !e.Rst?
    ensures HasBlock([e] + tail) <==> e.Block? || HasBlock(tail)
    ensures HasEnd([e] + tail) <==> e.end || HasEnd(tail)
    ensures FieldsOf([e] + tail) == (if e.Block? then e.fields else []) + FieldsOf(tail)
    ensures PayloadOf([e] + tail) == (if e.Body? then e.payload else []) + PayloadOf(tail)
  {
    var all := [e] + tail;
    assert all[0] == e && all[1..] == tail;
  }

  // ---------- the same, said of frames ----------

  predicate BlockDone(frames: seq<Frame>, sid: nat) {
    exists f :: f in frames && (f.Headers? || f.Continuation?) && f.sid == sid && f.endHeaders
  }

  predicate EndMarked(frames: seq<Frame>, sid: nat) {
    exists f :: f in frames && (f.Headers? || f.Data?) && f.sid == sid && f.endStream
  }

  predicate FramesFinish(frames: seq<Frame>, sid: nat) {
    BlockDone(frames, sid) && EndMarked(frames, sid)
  }

  function DataOf(frames: seq<Frame>, sid: nat): bytes {
    if frames == [] then []
    else (if frames[0].Data? && frames[0].sid == sid then frames[0].payload else []) + DataOf(frames[1..], sid)
  }

  /** The header blocks of all streams, in connection order; the first may be under way. */
  function BlocksOf(open: nat, block: bytes, frames: seq<Frame>): seq<(nat, bytes)>
    decreases |frames|
  {
    if frames == [] then [] else
      var f, tail := frames[0], frames[1..];
      if f.Headers? || f.Continuation? then
        var grown := (if f.Headers? && open == 0 then [] else block) + f.fragment;
        if f.endHeaders then [(f.sid, grown)] + BlocksOf(0, [], tail)
        else BlocksOf(if open == 0 then f.sid else open, grown, tail)
      else if f.Reset? && f.sid == open then BlocksOf(0, [], tail)
      else BlocksOf(open, block, tail)
  }

  /** One decoder for the connection, fed the blocks in order; each decoding goes to its stream. */
  function DecodedFor<D>(lib: Lib<D>, d: D, blocks: seq<(nat, bytes)>, sid: nat): seq<HeaderField>
    decreases |blocks|
  {
    if blocks == [] then [] else
      var (d', fields) := lib.decode(d, blocks[0].1);
      (if blocks[0].0 == sid && fields.Some? then fields.value else []) + DecodedFor(lib, d', blocks[1..], sid)
  }

  /** One frame adds at most one finished block, and the decoder is fed just that. */
  lemma DecodedForCons<D>(lib: Lib<D>, w: Wire<D>, frames: seq<Frame>, sid: nat)
    requires frames != [] && WireStep(lib, w, frames[0]).Accept?
    ensures var Accept(w', e) := WireStep(lib, w, frames[0]);
            DecodedFor(lib, w.decoder, BlocksOf(w.headerStream, w.block, frames), sid) ==
            (if Touches(frames[0], sid) && e.value.Block? then e.value.fields else [])
            + DecodedFor(lib, w'.decoder, BlocksOf(w'.headerStream, w'.block, frames[1..]), sid)
  {
    var f, tail := frames[0], frames[1..];
    var Accept(w', e) := WireStep(lib, w, f);
    var blocks := BlocksOf(w.headerStream, w.block, frames);
    var later := BlocksOf(w'.headerStream, w'.block, tail);
    if (f.Headers? || f.Continuation?) && f.endHeaders {
      assert blocks[1..] == later;
      var block := blocks[0].1;
      assert lib.decode(w.decoder, block) == (w'.decoder, Some(e.value.fields));
    } else {
      assert blocks == later;
    }
  }

  /** The events of a stream carry exactly its DATA payloads and the decodings of its blocks. */
  lemma {:induction false} EventsCarryContent<D>(lib: Lib<D>, st: State<D>, frames: seq<Frame>, sid: nat)
    requires RunFrames(lib, st, frames).Ran?
    ensures var events := EventsOf(lib, WireOf(st), frames, sid);
            && PayloadOf(events) == DataOf(frames, sid)
            && FieldsOf(events) == DecodedFor(lib, st.decoder, BlocksOf(st.headerStream, st.block, frames), sid)
    decreases |frames|
  {
    if frames != [] {
      var f, tail := frames[0], frames[1..];
      StepSplits(lib, st, f);
      DecodedForCons(lib, WireOf(st), frames, sid);
      var st' := Step(lib, st, f).st;
      EventsCarryContent(lib, st', tail, sid);
      var later := EventsOf(lib, WireOf(st'), tail, sid);
      var events := EventsOf(lib, WireOf(st), frames, sid);
      if Touches(f, sid) {
        var e := WireStep(lib, WireOf(st), f).event.value;
        assert events == [e] + later && events[0] == e && events[1..] == later;
      } else {
        assert events == later;
      }
    }
  }

  /** They finish the stream exactly when its frames do. */
  lemma {:induction false} EventsCarryMarks<D>(lib: Lib<D>, st: State<D>, frames: seq<Frame>, sid: nat)
    requires RunFrames(lib, st, frames).Ran?
    ensures var events := EventsOf(lib, WireOf(st), frames, sid);
            && (HasBlock(events) <==> BlockDone(frames, sid))
            && (HasEnd(events) <==> EndMarked(frames, sid))
            && (Rst in events <==> Reset(sid) in frames)
    decreases |frames|
  {
    if frames != [] {
      var f, tail := frames[0], frames[1..];
      StepSplits(lib, st, f);
      var st' := Step(lib, st, f).st;
      EventsCarryMarks(lib, st', tail, sid);
      var later := EventsOf(lib, WireOf(st'), tail, sid);
      var events := EventsOf(lib, WireOf(st), frames, sid);
      assert forall x :: x in frames <==> x == f || x in tail;
      if Touches(f, sid) {
        var e := WireStep(lib, WireOf(st), f).event.value;
        assert events == [e] + later && events[0] == e && events[1..] == later;
      } else {
        assert events == later;
      }
    }
  }

  lemma {:induction false} EventsOfSnoc<D>(lib: Lib<D>, st: State<D>, frames: seq<Frame>, f: Frame)
    requires RunFrames(lib, st, frames + [f]).Ran? && !f.Ignored?
    ensures RunFrames(lib, st, frames).Ran?
    ensures var events := EventsOf(lib, WireOf(st), frames + [f], f.sid);
            events != [] && EventsOf(lib, WireOf(st), frames, f.sid) == events[..|events| - 1]
    decreases |frames|
  {
    var all := frames + [f];
    StepSplits(lib, st, all[0]);
    var st' := Step(lib, st, all[0]).st;
    if frames == [] {
      assert all[1..] == [];
    } else {
      assert all[1..] == frames[1..] + [f];
      EventsOfSnoc(lib, st', frames[1..], f);
    }
  }

  lemma NothingBeforeTheEnd<D>(lib: Lib<D>, st: State<D>, frames: seq<Frame>, sid: nat)
    requires RunFrames(lib, st, frames).Ran?
    requires sid !in st.streams && Reset(sid) !in frames && !FramesFinish(frames, sid)
    ensures MessagesOf(RunFrames(lib, st, frames).msgs, sid) == []
  {
    EventsCarryMarks(lib, st, frames, sid);
    StreamsAreIndependent(lib, st, frames, sid);
    var events := EventsOf(lib, WireOf(st), frames, sid);
    if events != [] {
      NotFinishedBefore(events);
      StreamCollects(sid, None, events);
    }
  }

  /** A run in two parts. */
  lemma {:induction false} RunSplit<D>(lib: Lib<D>, st: State<D>, a: seq<Frame>, b: seq<Frame>)
    requires RunFrames(lib, st, a + b).Ran?
    ensures RunFrames(lib, st, a).Ran?
    ensures var ra := RunFrames(lib, st, a);
            var rb := RunFrames(lib, ra.st, b);
            rb.Ran? && RunFrames(lib, st, a + b) == Ran(ra.msgs + rb.msgs, rb.st)
    decreases |a|
  {
    if a == [] {
      assert a + b == b;
      assert [] + RunFrames(lib, st, b).msgs == RunFrames(lib, st, b).msgs;
    } else {
      assert (a + b)[1..] == a[1..] + b;
      var r := Step(lib, st, a[0]);
      RunSplit(lib, r.st, a[1..], b);
      var ra := RunFrames(lib, r.st, a[1..]);
      Assoc(ToSeq(r.msg), ra.msgs, RunFrames(lib, ra.st, b).msgs);
    }
  }

  lemma {:induction false} EventsOfSplit<D>(lib: Lib<D>, st: State<D>, a: seq<Frame>, b: seq<Frame>, sid: nat)
    requires RunFrames(lib, st, a + b).Ran?
    ensures RunFrames(lib, st, a).Ran?
    ensures EventsOf(lib, WireOf(st), a + b, sid) ==
            EventsOf(lib, WireOf(st), a, sid) + EventsOf(lib, WireOf(RunFrames(lib, st, a).st), b, sid)
    decreases |a|
  {
    if a == [] {
      assert a + b == b;
      assert [] + EventsOf(lib, WireOf(st), b, sid) == EventsOf(lib, WireOf(st), b, sid);
    } else {
      assert (a + b)[1..] == a[1..] + b;
      StepSplits(lib, st, a[0]);
      var st', e := Step(lib, st, a[0]).st, WireStep(lib, WireOf(st), a[0]).event;
      EventsOfSplit(lib, st', a[1..], b, sid);
      Assoc(if Touches(a[0], sid) then ToSeq(e) else [], EventsOf(lib, WireOf(st'), a[1..], sid),
            EventsOf(lib, WireOf(RunFrames(lib, st', a[1..]).st), b, sid));
    }
  }

  predicate Untouched(frames: seq<Frame>, sid: nat) {
    forall f :: f in frames ==> !Touches(f, sid)
  }

  lemma {:induction false} UntouchedHasNoEvents<D>(lib: Lib<D>, w: Wire<D>, frames: seq<Frame>, sid: nat)
    requires Untouched(frames, sid)
    ensures EventsOf(lib, w, frames, sid) == []
    decreases |frames|
  {
    if frames != [] && WireStep(lib, w, frames[0]).Accept? {
      UntouchedHasNoEvents(lib, WireStep(lib, w, frames[0]).wire, frames[1..], sid);
    }
  }

  /** What a stream yields that gets all it needs with its last event. */
  lemma StreamCompletes(sid: nat, events: seq<Event>)
    requires events != [] && Rst !in events && Finished(events) && !Finished(events[..|events| - 1])
    ensures StreamRun(sid, None, events) == (None, [Complete(sid, FieldsOf(events), PayloadOf(events))])
  {
    StreamCollects(sid, None, events);
    assert [] + FieldsOf(events) == FieldsOf(events) && [] + PayloadOf(events) == PayloadOf(events);
  }

  /** The message of a stream, told from the frames of the connection. */
  function MessageFor<D>(lib: Lib<D>, st: State<D>, frames: seq<Frame>, sid: nat): Message {
    Complete(sid, DecodedFor(lib, st.decoder, BlocksOf(st.headerStream, st.block, frames), sid), DataOf(frames, sid))
  }

  /** The frames of one stream in all: they finish it, and only with the last of them. */
  predicate EndsAt(frames: seq<Frame>, f: Frame, later: seq<Frame>, sid: nat) {
    && !FramesFinish(frames, sid) && FramesFinish(frames + [f], sid)
    && Reset(sid) !in frames + [f] && Untouched(later, sid)
  }

  lemma EndsAtEvents<D>(lib: Lib<D>, st: State<D>, frames: seq<Frame>, f: Frame, later: seq<Frame>, sid: nat)
    requires RunFrames(lib, st, frames + [f] + later).Ran? && EndsAt(frames, f, later, sid)
    ensures RunFrames(lib, st, frames + [f]).Ran?
    ensures var events := EventsOf(lib, WireOf(st), frames + [f] + later, sid);
            && events == EventsOf(lib, WireOf(st), frames + [f], sid)
            && events != [] && Rst !in events && Finished(events) && !Finished(events[..|events| - 1])
  {
    var all := frames + [f];
    EventsOfSplit(lib, st, all, later, sid);
    UntouchedHasNoEvents(lib, WireOf(RunFrames(lib, st, all).st), later, sid);
    var events := EventsOf(lib, WireOf(st), all, sid);
    assert events + [] == events;
    assert Touches(f, sid);
    EventsOfSnoc(lib, st, frames, f);
    EventsCarryMarks(lib, st, frames, sid);
    EventsCarryMarks(lib, st, all, sid);
  }

  lemma NothingBeforeTheLast<D>(lib: Lib<D>, st: State<D>, frames: seq<Frame>, f: Frame, later: seq<Frame>, sid: nat)
    requires RunFrames(lib, st, frames + [f] + later).Ran?
    requires sid !in st.streams && EndsAt(frames, f, later, sid)
    ensures RunFrames(lib, st, frames).Ran? && MessagesOf(RunFrames(lib, st, frames).msgs, sid) == []
  {
    Assoc(frames, [f], later);
    RunSplit(lib, st, frames, [f] + later);
    NothingBeforeTheEnd(lib, st, frames, sid);
  }

  /**
   A stream that ends yields exactly one message, whatever other streams do before, between
   and after its frames: its headers are the decodings of its header blocks, its body is its
   DATA payloads in order, and nothing of it is left behind.
   */
  lemma OneMessagePerStream<D>(lib: Lib<D>, st: State<D>, frames: seq<Frame>, f: Frame, later: seq<Frame>, sid: nat)
    requires RunFrames(lib, st, frames + [f] + later).Ran?
    requires sid !in st.streams && EndsAt(frames, f, later, sid)
    ensures RunFrames(lib, st, frames).Ran? && MessagesOf(RunFrames(lib, st, frames).msgs, sid) == []
    ensures var run, all := RunFrames(lib, st, frames + [f] + later), frames + [f] + later;
            MessagesOf(run.msgs, sid) == [MessageFor(lib, st, all, sid)] && sid !in run.st.streams
  {
    var all := frames + [f] + later;
    NothingBeforeTheLast(lib, st, frames, f, later, sid);
    EndsAtEvents(lib, st, frames, f, later, sid);
    EventsCarryContent(lib, st, all, sid);
    StreamsAreIndependent(lib, st, all, sid);
    StreamCompletes(sid, EventsOf(lib, WireOf(st), all, sid));
  }

  // ---------- whole connections ----------

  function Touched(frames: seq<Frame>): set<nat> {
    set f | f in frames && !f.Ignored? :: f.sid
  }

  /** A stream that is never reset, finishes, and sends nothing afterwards. */
  predicate EndsWell(frames: seq<Frame>, sid: nat) {
    && Reset(sid) !in frames && FramesFinish(frames, sid)
    && forall i :: 0 <= i < |frames| && Touches(frames[i], sid) ==> !FramesFinish(frames[..i], sid)
  }

  lemma NotTouched(frames: seq<Frame>, sid: nat)
    ensures sid !in Touched(frames) <==> Untouched(frames, sid)
  {
    if f :| f in frames && Touches(f, sid) {
      assert f.sid in Touched(frames);
    }
  }

  lemma {:induction false} LastTouch(frames: seq<Frame>, sid: nat) returns (i: nat)
    requires !Untouched(frames, sid)
    ensures i < |frames| && Touches(frames[i], sid) && Untouched(frames[i + 1..], sid)
  {
    var tail := frames[1..];
    if Untouched(tail, sid) {
      i := 0;
      assert frames == [frames[0]] + tail;
    } else {
      var j := LastTouch(tail, sid);
      i := j + 1;
      assert frames[i + 1..] == tail[j + 1..];
    }
  }

  lemma EndsWellSplits(frames: seq<Frame>, sid: nat, i: nat)
    requires i < |frames| && EndsWell(frames, sid) && Touches(frames[i], sid) && Untouched(frames[i + 1..], sid)
    ensures frames == frames[..i] + [frames[i]] + frames[i + 1..]
    ensures EndsAt(frames[..i], frames[i], frames[i + 1..], sid)
  {
    var before, f, later := frames[..i], frames[i], frames[i + 1..];
    assert frames == before + [f] + later;
    assert forall x :: x in frames <==> x in before + [f] || x in later;
  }

  lemma StreamOfWhole<D>(lib: Lib<D>, st: State<D>, frames: seq<Frame>, sid: nat)
    requires RunFrames(lib, st, frames).Ran? && sid !in st.streams
    requires sid in Touched(frames) ==> EndsWell(frames, sid)
    ensures var run := RunFrames(lib, st, frames);
            && sid !in run.st.streams
            && MessagesOf(run.msgs, sid) == if sid in Touched(frames) then [MessageFor(lib, st, frames, sid)] else []
  {
    NotTouched(frames, sid);
    if sid in Touched(frames) {
      var i := LastTouch(frames, sid);
      EndsWellSplits(frames, sid, i);
      OneMessagePerStream(lib, st, frames[..i], frames[i], frames[i + 1..], sid);
    } else {
      UntouchedHasNoEvents(lib, WireOf(st), frames, sid);
      StreamsAreIndependent(lib, st, frames, sid);
    }
  }

  /** One message for each of the given streams and none for others: as many messages as streams. */
  lemma {:induction false} CountMessages(msgs: seq<Message>, sids: set<nat>)
    requires forall sid :: |MessagesOf(msgs, sid)| == if sid in sids then 1 else 0
    ensures |msgs| == |sids|
    decreases |msgs|
  {
    if msgs == [] {
      forall sid ensures sid !in sids {
        assert |MessagesOf(msgs, sid)| == 0;
      }
    } else {
      var sid, rest := msgs[0].sid, msgs[1..];
      forall x ensures |MessagesOf(rest, x)| == if x in sids - {sid} then 1 else 0 {
        assert |MessagesOf(msgs, x)| == (if x == sid then 1 else 0) + |MessagesOf(rest, x)|;
      }
      assert sid in sids by {
        assert |MessagesOf(msgs, sid)| >= 1;
      }
      CountMessages(rest, sids - {sid});
    }
  }

  /**
   A connection whose streams all end well: exactly one message for each stream, whatever
   the interleaving, as many messages as streams, and no stream state left.
   */
  lemma EveryStreamOnce<D>(lib: Lib<D>, st: State<D>, frames: seq<Frame>)
    requires RunFrames(lib, st, frames).Ran? && st.streams == map[]
    requires forall sid :: sid in Touched(frames) ==> EndsWell(frames, sid)
    ensures var run := RunFrames(lib, st, frames);
            && (forall sid :: MessagesOf(run.msgs, sid) ==
                              if sid in Touched(frames) then [MessageFor(lib, st, frames, sid)] else [])
            && |run.msgs| == |Touched(frames)|
            && run.st.streams == map[]
  {
    var run := RunFrames(lib, st, frames);
    forall sid
      ensures sid !in run.st.streams
      ensures MessagesOf(run.msgs, sid) == if sid in Touched(frames) then [MessageFor(lib, st, frames, sid)] else []
    {
      StreamOfWhole(lib, st, frames, sid);
    }
    assert run.st.streams == map[];
    CountMessages(run.msgs, Touched(frames));
  }

  lemma NotFinishedBefore(events: seq<Event>)
    requires events != [] && !Finished(events)
    ensures !Finished(events[..|events| - 1])
  {
    var front := events[..|events| - 1];
    assert events == front + events[|events| - 1..];
    HasSplit(front, events[|events| - 1..]);
  }

  lemma {:induction false} HasSplit(a: seq<Event>, b: seq<Event>)
    ensures HasBlock(a + b) == (HasBlock(a) || HasBlock(b))
    ensures HasEnd(a + b) == (HasEnd(a) || HasEnd(b))
  {
    if a == [] {
      assert a + b == b;
    } else {
      assert (a + b)[1..] == a[1..] + b;
      HasSplit(a[1..], b);
    }
  }

  // ---------- the program's parser ----------

  function Fresh<D>(decoder: D): Conn<State<D>> {
    Conn(false, State(decoder, 0, [], map[]))
  }

  /** Cut-independence with its exact condition, for the parser as the program has it. */
  lemma ParserCutIndependence<D(!new)>(lib: Lib<D>, decoder: D, ops: seq<Op>)
    requires var data := Delivered(ops);
             WellStarted(ReaderOf(lib), Fresh(decoder), data) &&
             !OnePass(ReaderOf(lib), Fresh(decoder), data).end.Broken?
    ensures CutRun(ReaderOf(lib), Fresh(decoder), [], ops) == OnePass(ReaderOf(lib), Fresh(decoder), Delivered(ops))
            <==> GoodCuts(ReaderOf(lib), Fresh(decoder), [], ops)
  {
    ReaderIsSound(lib);
    assert [] + Delivered(ops) == Delivered(ops);
    CutIndependenceIff(ReaderOf(lib), Fresh(decoder), [], ops);
  }

  /** One message for each stream of the frames, no other messages, and no stream state left. */
  ghost predicate OncePerStream<D(!new)>(lib: Lib<D>, st: State<D>, frames: seq<Frame>, o: Outcome<State<D>>) {
    && o.end.Open? && o.end.conn.st.streams == map[] && |o.msgs| == |Touched(frames)|
    && forall sid :: MessagesOf(o.msgs, sid) ==
                     if sid in Touched(frames) then [MessageFor(lib, st, frames, sid)] else []
  }

  /** One pass over the bytes of a connection whose streams all end well. */
  lemma OnePassYieldsStreams<D(!new)>(lib: Lib<D>, decoder: D, data: bytes)
    requires !OnePass(ReaderOf(lib), Fresh(decoder), data).end.Broken?
    requires var frames := FramesIn(ReaderOf(lib), data[Skip(false, data)..]);
             forall sid :: sid in Touched(frames) ==> EndsWell(frames, sid)
    ensures OncePerStream(lib, Fresh(decoder).st, FramesIn(ReaderOf(lib), data[Skip(false, data)..]),
                          OnePass(ReaderOf(lib), Fresh(decoder), data))
  {
    var c, rest := Fresh(decoder), data[Skip(false, data)..];
    OnePassRunsFrames(lib, After(c, data, c.st), 0, rest);
    EveryStreamOnce(lib, c.st, FramesIn(ReaderOf(lib), rest));
  }

  // ---------- trailers in more than one frame ----------

  /** The frames keep the order rule, for a reader that remembers. */
  predicate Ordered(open: nat, frames: seq<Frame>)
    decreases |frames|
  {
    frames == [] || (InOrder(open, frames[0]) && Ordered(NextOpen(open, frames[0]), frames[1..]))
  }

  function OpenBehind(open: nat, frames: seq<Frame>): nat
    decreases |frames|
  {
    if frames == [] then open else OpenBehind(NextOpen(open, frames[0]), frames[1..])
  }

  /** The header blocks begun on a stream, and those completed. */
  function Begun(frames: seq<Frame>, sid: nat): nat {
    if frames == [] then 0 else (if frames[0].Headers? && frames[0].sid == sid then 1 else 0) + Begun(frames[1..], sid)
  }

  function Completed(frames: seq<Frame>, sid: nat): nat {
    if frames == [] then 0 else
      var f := frames[0];
      (if (f.Headers? || f.Continuation?) && f.sid == sid && f.endHeaders then 1 else 0) +
      Completed(frames[1..], sid)
  }

  lemma {:induction false} BegunIsCompleted(open: nat, frames: seq<Frame>, sid: nat)
    requires Ordered(open, frames) && sid != 0
    ensures (if open == sid then 1 else 0) + Begun(frames, sid) ==
            Completed(frames, sid) + if OpenBehind(open, frames) == sid then 1 else 0
    decreases |frames|
  {
    if frames != [] {
      BegunIsCompleted(NextOpen(open, frames[0]), frames[1..], sid);
    }
  }

  /** On ordered frames the connection's open block is the one the order rule is waiting for. */
  lemma {:induction false} OpenBlockIsExpected<D>(lib: Lib<D>, st: State<D>, frames: seq<Frame>)
    requires RunFrames(lib, st, frames).Ran? && Ordered(st.headerStream, frames)
    ensures RunFrames(lib, st, frames).st.headerStream == OpenBehind(st.headerStream, frames)
    decreases |frames|
  {
    if frames != [] {
      StepSplits(lib, st, frames[0]);
      var st' := Step(lib, st, frames[0]).st;
      assert st'.headerStream == NextOpen(st.headerStream, frames[0]);
      OpenBlockIsExpected(lib, st', frames[1..]);
    }
  }

  lemma {:induction false} OpenBehindLast(open: nat, frames: seq<Frame>, f: Frame)
    requires Ordered(open, frames + [f])
    ensures InOrder(OpenBehind(open, frames), f)
    ensures OpenBehind(open, frames + [f]) == NextOpen(OpenBehind(open, frames), f)
    decreases |frames|
  {
    var all := frames + [f];
    if frames == [] {
      assert all[1..] == [];
    } else {
      assert all[1..] == frames[1..] + [f];
      OpenBehindLast(NextOpen(open, frames[0]), frames[1..], f);
    }
  }

  /** The frame begins or carries on a header block and leaves it open. */
  predicate SplitsBlock(f: Frame) {
    (f.Headers? || f.Continuation?) && !f.endHeaders
  }

  /**
   The exact condition for a stream that ends: its message carries every header block begun
   on the stream, and no block is left open, if and only if the frame that ends it does not
   split a block.
   */
  lemma TrailersKeptIff<D>(lib: Lib<D>, st: State<D>, frames: seq<Frame>, f: Frame, sid: nat)
    requires RunFrames(lib, st, frames + [f]).Ran? && st.headerStream == 0 && Ordered(0, frames + [f])
    requires sid !in st.streams && sid != 0 && EndsAt(frames, f, [], sid)
    ensures var run, all := RunFrames(lib, st, frames + [f]), frames + [f];
            && MessagesOf(run.msgs, sid) == [MessageFor(lib, st, all, sid)]
            && (Begun(all, sid) == Completed(all, sid) <==> !SplitsBlock(f))
            && (run.st.headerStream == 0 <==> !SplitsBlock(f))
  {
    var all := frames + [f];
    assert all + [] == all;
    OneMessagePerStream(lib, st, frames, f, [], sid);
    assert Touches(f, sid);
    BegunIsCompleted(0, all, sid);
    OpenBlockIsExpected(lib, st, all);
    OpenBehindLast(0, frames, f);
  }

  /**
   What that means for the bytes behind the message.  The next call starts with no memory;
   it reads the next frame of an ordered connection as a reader that remembers would, if
   and only if the block was not split, and otherwise it drops the connection.
   */
  lemma NextFrameReadIff<D(!new)>(lib: Lib<D>, c: Conn<State<D>>, data: bytes)
    requires var t, r := OneFrame(ReaderOf(lib), c.st, 0, data), Read(ReaderOf(lib), data);
             && t.Moved? && t.msg.Some? && (r.frame.Headers? ==> r.frame.sid != 0)
             && var g := Read(ReaderOf(lib), data[t.len..]); g.Got? && InOrder(t.open, g.frame)
    ensures var reader, t := ReaderOf(lib), OneFrame(ReaderOf(lib), c.st, 0, data);
            if SplitsBlock(Read(reader, data).frame) then
              Flow(reader, c, 0, data) == Outcome([t.msg.value], Broken)
            else
              OneFrame(reader, t.st, 0, data[t.len..]) == OneFrame(reader, t.st, t.open, data[t.len..])
  {
    var reader, t := ReaderOf(lib), OneFrame(ReaderOf(lib), c.st, 0, data);
    var f := Read(reader, data).frame;
    assert t.open == NextOpen(0, f) && InOrder(0, f);
    if SplitsBlock(f) {
      var rest := Flow(reader, c.(st := t.st), 0, data[t.len..]);
      assert rest == Outcome([], Broken);
      assert Flow(reader, c, 0, data) == Prepend(t.msg, rest);
    }
  }

  /** The nine bytes of a frame on stream 1 with no payload. */
  predicate EmptyFrame(b: bytes, kind: byte, flags: byte) {
    && |b| == FRAME_HEADER_LEN
    && b[0] == b[1] == b[2] == 0 && b[3] == kind && b[4] == flags
    && b[5] == b[6] == b[7] == 0 && b[8] == 1
  }

  /** A library that accepts every payload and decodes every block to no fields. */
  function PlainLib(early: bool): Lib<()> {
    Lib((h, p) => Content(p), early, (d, b) => (d, Some([])))
  }

  /** Two frames that one pass reads, the second being the continuation of the first. */
  ghost predicate HeadersThenContinuation<S>(reader: Reader<S>, c: Conn<S>, h: bytes, k: bytes) {
    && |h| + |k| < |PREFACE|
    && var t := OneFrame(reader, c.st, 0, h);
       && t.Moved? && t.len == |h| && t.msg == None && t.open != 0
       && var t' := OneFrame(reader, t.st, t.open, k);
          t'.Moved? && t'.len == |k|
  }

  lemma PassReadsBoth<S(!new)>(reader: Reader<S>, c: Conn<S>, h: bytes, k: bytes)
    requires Sound(reader) && HeadersThenContinuation(reader, c, h, k)
    requires Read(reader, []).Incomplete? && reader.peek([]).None?
    ensures !OnePass(reader, c, h + k).end.Broken?
  {
    var t := OneFrame(reader, c.st, 0, h);
    var t' := OneFrame(reader, t.st, t.open, k);
    var c1, c2 := c.(st := t.st), c.(st := t'.st);
    var open := if t'.msg.Some? then 0 else t'.open;
    assert (h + k)[0..] == h + k && (h + k)[|h|..] == k && k[|k|..] == [];
    OneFrameStays(reader, c.st, 0, h, k);
    assert Flow(reader, c2, open, []) == Outcome([], Open(c2, []));
    assert Flow(reader, c1, t.open, k) == Prepend(t'.msg, Flow(reader, c2, open, []));
    assert Flow(reader, c, 0, h + k) == Prepend(None, Flow(reader, c1, t.open, k));
  }

  lemma CutLosesConnection<S(!new)>(reader: Reader<S>, c: Conn<S>, h: bytes, k: bytes)
    requires Sound(reader) && HeadersThenContinuation(reader, c, h, k)
    requires Read(reader, []).Incomplete? && reader.peek([]).None?
    ensures CutRun(reader, c, [], [Deliver(h), Call, Deliver(k)]).end.Broken?
  {
    var t := OneFrame(reader, c.st, 0, h);
    var c1 := c.(st := t.st);
    assert h[0..] == h && h[|h|..] == [];
    assert Frames(reader, t.st, t.open, []) == Returned(t.st, None, 0, t.open);
    assert Frames(reader, c.st, 0, h) == Returned(t.st, None, |h|, t.open);
    assert Parse(reader, c, h) == Returned(t.st, None, |h|, t.open);

    var last := [Deliver(k)];
    assert last[1..] == [] && Delivered(last) == k && [] + k == k;
    UnreadableBreaks(reader, c1, [], last);
    var ops := [Deliver(h), Call, Deliver(k)];
    assert ops[1..] == [Call, Deliver(k)] && ops[1..][1..] == last;
    assert [] + h == h;
    assert CutRun(reader, c, h, ops[1..]) == Prepend(None, CutRun(reader, c1, [], last));
  }

  lemma EmptyFrameReads(early: bool, b: bytes, kind: byte, flags: byte)
    requires EmptyFrame(b, kind, flags)
    ensures ReadFrame(PlainLib(early).strip, b) == Got(MakeFrame(FrameHeader(0, kind, flags, 1), []), 9)
  {
    assert ParseHeader(b) == FrameHeader(0, kind, flags, 1);
    assert b[9..9] == [];
  }

  /** A cut between HEADERS and CONTINUATION, with a call at the cut, loses the connection. */
  lemma CutInsideHeaderBlock(early: bool, headers: bytes, continuation: bytes)
    requires EmptyFrame(headers, FRAME_HEADERS, 0) && EmptyFrame(continuation, FRAME_CONTINUATION, 0x4)
    ensures !OnePass(ReaderOf(PlainLib(early)), Fresh(()), headers + continuation).end.Broken?
    ensures CutRun(ReaderOf(PlainLib(early)), Fresh(()), [],
                   [Deliver(headers), Call, Deliver(continuation)]).end.Broken?
  {
    var reader := ReaderOf(PlainLib(early));
    ReaderIsSound(PlainLib(early));
    PlainReads(early, headers, FRAME_HEADERS, 0);
    PlainReads(early, continuation, FRAME_CONTINUATION, 0x4);
    PassReadsBoth(reader, Fresh(()), headers, continuation);
    CutLosesConnection(reader, Fresh(()), headers, continuation);
  }

  lemma PlainReads(early: bool, b: bytes, kind: byte, flags: byte)
    requires EmptyFrame(b, kind, flags)
    ensures Read(ReaderOf(PlainLib(early)), b) == Got(MakeFrame(FrameHeader(0, kind, flags, 1), []), 9)
    ensures Read(ReaderOf(PlainLib(early)), []).Incomplete? && ReaderOf(PlainLib(early)).peek([]).None?
  {
    EmptyFrameReads(early, b, kind, flags);
  }

  /** The frame at the front, read and applied. */
  lemma PlainStep(early: bool, st: State<()>, b: bytes, kind: byte, flags: byte, more: bytes)
    requires EmptyFrame(b, kind, flags)
    ensures var f, reader := MakeFrame(FrameHeader(0, kind, flags, 1), []), ReaderOf(PlainLib(early));
            && (b + more)[9..] == more
            && OneFrame(reader, st, 0, b + more) ==
               if !InOrder(0, f) then Error
               else match Step(PlainLib(early), st, f)
                 case Fail => Error
                 case Next(st', msg) => Moved(st', msg, 9, NextOpen(0, f))
  {
    var reader := ReaderOf(PlainLib(early));
    ReaderIsSound(PlainLib(early));
    PlainReads(early, b, kind, flags);
    assert Final(reader, b, more);
  }

  /** An input: headers, then trailers in HEADERS with the end mark and CONTINUATION. */
  lemma SplitTrailersLoseConnection(early: bool, headers: bytes, trailers: bytes, continuation: bytes)
    requires EmptyFrame(headers, FRAME_HEADERS, 0x4) && EmptyFrame(trailers, FRAME_HEADERS, 0x1)
    requires EmptyFrame(continuation, FRAME_CONTINUATION, 0x4)
    ensures OnePass(ReaderOf(PlainLib(early)), Fresh(()), headers + (trailers + continuation)) ==
            Outcome([Complete(1, [], [])], Broken)
  {
    var reader, rest := ReaderOf(PlainLib(early)), trailers + continuation;
    FirstHeaders(early);
    PlainStep(early, Fresh(()).st, headers, FRAME_HEADERS, 0x4, rest);
    var c := Conn(false, State((), 0, [], map[1 := StreamState(true, false, [], [])]));
    PassesFirst(reader, Fresh(()), headers + rest, c.st);
    AfterFirst(early, c, trailers, continuation);
  }

  /** One pass over bytes that begin with a frame and no message. */
  lemma PassesFirst<S>(reader: Reader<S>, c: Conn<S>, data: bytes, st: S)
    requires data != [] && data[0] == 0 && OneFrame(reader, c.st, 0, data) == Moved(st, None, 9, 0)
    ensures OnePass(reader, c, data) == Flow(reader, c.(st := st), 0, data[9..])
  {
    assert PREFACE[0] == 0x50;
    assert data[0..] == data;
    PrependNone(Flow(reader, c.(st := st), 0, data[9..]));
  }

  /** A message, then a frame that cannot be read. */
  lemma MessageThenBroken<S>(reader: Reader<S>, c: Conn<S>, data: bytes, st: S, msg: Message, open: nat)
    requires OneFrame(reader, c.st, 0, data) == Moved(st, Some(msg), 9, open)
    requires OneFrame(reader, st, 0, data[9..]).Error?
    ensures Flow(reader, c, 0, data) == Outcome([msg], Broken)
  {
    assert Flow(reader, c.(st := st), 0, data[9..]) == Outcome([], Broken);
  }

  lemma AfterFirst(early: bool, c: Conn<State<()>>, trailers: bytes, continuation: bytes)
    requires EmptyFrame(trailers, FRAME_HEADERS, 0x1) && EmptyFrame(continuation, FRAME_CONTINUATION, 0x4)
    requires c.st == State((), 0, [], map[1 := StreamState(true, false, [], [])])
    ensures Flow(ReaderOf(PlainLib(early)), c, 0, trailers + continuation) == Outcome([Complete(1, [], [])], Broken)
  {
    LastHeaders(early);
    PlainStep(early, c.st, trailers, FRAME_HEADERS, 0x1, continuation);
    var st := State((), 1, [], map[]);
    assert continuation + [] == continuation;
    PlainStep(early, st, continuation, FRAME_CONTINUATION, 0x4, []);
    MessageThenBroken(ReaderOf(PlainLib(early)), c, trailers + continuation, st, Complete(1, [], []), 1);
  }

  lemma FirstHeaders(early: bool)
    ensures Step(PlainLib(early), State((), 0, [], map[]), Headers(1, [], true, false)) ==
            Next(State((), 0, [], map[1 := StreamState(true, false, [], [])]), None)
  {
  }

  lemma LastHeaders(early: bool)
    ensures Step(PlainLib(early), State((), 0, [], map[1 := StreamState(true, false, [], [])]),
                 Headers(1, [], false, true)) ==
            Next(State((), 1, [], map[]), Some(Complete(1, [], [])))
  {
    var before, ended: StreamState := StreamState(true, false, [], []), StreamState(true, true, [], []);
    assert map[1 := before][1 := ended] - {1} == map[];
    var none: bytes := [];
    assert none + none == none;
  }
}
