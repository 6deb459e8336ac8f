/**
 Cut-independence of the HTTP/2 parser: however the bytes of a connection are cut into
 deliveries, and whenever the parser is called in between, the messages, the bytes used
 up and the final state are those of one pass over the whole byte string, exactly when no
 call stops inside a header block whose next frame the reader gets to see.
 */
module Http2Cuts {
  import opened Common
  import opened Http2Framing

  datatype End<S> = Open(conn: Conn<S>, rest: bytes) | Broken

  datatype Outcome<S> = Outcome(msgs: seq<Message>, end: End<S>)

  function Prepend<S>(msg: Option<Message>, o: Outcome<S>): Outcome<S> {
    o.(msgs := ToSeq(msg) + o.msgs)
  }

  // ---------- the reference: one pass, frame by frame ----------

  function Flow<S>(reader: Reader<S>, c: Conn<S>, open: nat, data: bytes): Outcome<S>
    decreases |data|
  {
    match OneFrame(reader, c.st, open, data)
    case Wait => Outcome([], Open(c, data))
    case Error => Outcome([], Broken)
    case Moved(st', msg, n, open') =>
      Prepend(msg, Flow(reader, c.(st := st'), if msg.Some? then 0 else open', data[n..]))
  }

  function OnePass<S>(reader: Reader<S>, c: Conn<S>, data: bytes): Outcome<S> {
    Flow(reader, After(c, data, c.st), 0, data[Skip(c.prefaceSeen, data)..])
  }

  // ---------- the program: deliveries and calls in any order ----------

  datatype Op = Deliver(data: bytes) | Call

  function Delivered(ops: seq<Op>): bytes {
    if ops == [] then []
    else (if ops[0].Deliver? then ops[0].data else []) + Delivered(ops[1..])
  }

  /** Calls until one uses up nothing, as the parse loops do. */
  function Drain<S>(reader: Reader<S>, c: Conn<S>, buf: bytes): Outcome<S>
    decreases |buf|
  {
    match Parse(reader, c, buf)
    case Failed => Outcome([], Broken)
    case Returned(st', msg, n, _) =>
      if n == 0 then Outcome([], Open(After(c, buf, st'), buf))
      else Prepend(msg, Drain(reader, After(c, buf, st'), buf[n..]))
  }

  /** A failed call drops the connection; otherwise the bytes used up leave the buffer. */
  function CutRun<S>(reader: Reader<S>, c: Conn<S>, buf: bytes, ops: seq<Op>): Outcome<S>
    decreases |ops|
  {
    if ops == [] then Drain(reader, c, buf) else
      match ops[0]
      case Deliver(b) => CutRun(reader, c, buf + b, ops[1..])
      case Call =>
        match Parse(reader, c, buf)
        case Failed => Outcome([], Broken)
        case Returned(st', msg, n, _) => Prepend(msg, CutRun(reader, After(c, buf, st'), buf[n..], ops[1..]))
  }

  // ---------- when a cut is harmless ----------

  /** The reader can tell what kind of frame is next. */
  predicate Decided<S>(reader: Reader<S>, data: bytes) {
    Read(reader, data).Got? || reader.peek(data).Some?
  }

  /** The call did not stop inside a header block, or the reader never sees what follows. */
  predicate Settled<S>(reader: Reader<S>, r: CallResult<S>, remaining: bytes) {
    r.Returned? ==> r.msg.Some? || r.open == 0 || !Decided(reader, remaining)
  }

  predicate GoodDrain<S>(reader: Reader<S>, c: Conn<S>, buf: bytes)
    decreases |buf|
  {
    var r := Parse(reader, c, buf);
    r.Failed? ||
    (&& Settled(reader, r, buf[r.consumed..])
     && (r.consumed == 0 || GoodDrain(reader, After(c, buf, r.st), buf[r.consumed..])))
  }

  predicate GoodCuts<S>(reader: Reader<S>, c: Conn<S>, buf: bytes, ops: seq<Op>)
    decreases |ops|
  {
    if ops == [] then GoodDrain(reader, c, buf) else
      match ops[0]
      case Deliver(b) => GoodCuts(reader, c, buf + b, ops[1..])
      case Call =>
        var r := Parse(reader, c, buf);
        r.Failed? ||
        (&& Settled(reader, r, buf[r.consumed..] + Delivered(ops[1..]))
         && GoodCuts(reader, After(c, buf, r.st), buf[r.consumed..], ops[1..]))
  }

  /** No frame boundary of the data looks like the connection preface. */
  predicate PrefaceFree<S>(reader: Reader<S>, data: bytes)
    decreases |data|
  {
    && !(PREFACE <= data)
    && var r := Read(reader, data);
       r.Got? ==> PrefaceFree(reader, data[r.len..])
  }

  /** The preface comes first or not at all. */
  predicate WellStarted<S>(reader: Reader<S>, c: Conn<S>, data: bytes) {
    c.prefaceSeen || PREFACE <= data || PrefaceFree(reader, data)
  }

  // ---------- one call, then the rest ----------

  lemma TailOfTail<S>(data: bytes, n: nat, r: CallResult<S>)
    requires n <= |data| && (r.Returned? ==> n + r.consumed <= |data|)
    ensures r.Returned? ==> data[n..][r.consumed..] == data[n + r.consumed..]
  {
  }

  /** The one-pass outcome after a call that read all of `data` and was followed by `more`. */
  function Resume<S>(reader: Reader<S>, prefaceSeen: bool, r: CallResult<S>, data: bytes, more: bytes): Outcome<S>
    requires r.Returned? ==> r.consumed <= |data|
  {
    if r.Failed? then Outcome([], Broken)
    else
      var open := if r.msg.Some? then 0 else r.open;
      Prepend(r.msg, Flow(reader, Conn(prefaceSeen, r.st), open, data[r.consumed..] + more))
  }

  lemma ResumeShift<S>(reader: Reader<S>, prefaceSeen: bool, r: CallResult<S>, n: nat, data: bytes, more: bytes)
    requires n <= |data| && (r.Returned? ==> n + r.consumed <= |data|)
    ensures Resume(reader, prefaceSeen, Shift(r, n), data, more) == Resume(reader, prefaceSeen, r, data[n..], more)
  {
    if r.Returned? {
      assert data[n..][r.consumed..] == data[n + r.consumed..];
    }
  }

  /** A turn that did something is not changed by what arrives later. */
  lemma OneFrameStays<S>(reader: Reader<S>, st: S, open: nat, data: bytes, more: bytes)
    requires Sound(reader) && !OneFrame(reader, st, open, data).Wait?
    ensures OneFrame(reader, st, open, data + more) == OneFrame(reader, st, open, data)
  {
    assert Final(reader, data, more) && Foretells(reader, data + more);
  }

  lemma {:induction false} FramesThenFlow<S>(reader: Reader<S>, c: Conn<S>, open: nat, data: bytes, more: bytes)
    requires Sound(reader)
    ensures Flow(reader, c, open, data + more) ==
            Resume(reader, c.prefaceSeen, Frames(reader, c.st, open, data), data, more)
    decreases |data|
  {
    var t := OneFrame(reader, c.st, open, data);
    if t.Wait? {
      assert data[0..] == data;
      PrependNone(Flow(reader, c, open, data + more));
    } else {
      OneFrameStays(reader, c.st, open, data, more);
      if t.Moved? {
        var tail := data[t.len..];
        assert (data + more)[t.len..] == tail + more;
        if t.msg.None? {
          var c' := c.(st := t.st);
          PrependNone(Flow(reader, c', t.open, tail + more));
          FramesThenFlow(reader, c', t.open, tail, more);
          ResumeShift(reader, c.prefaceSeen, Frames(reader, t.st, t.open, tail), t.len, data, more);
        }
      }
    }
  }

  lemma PrependNone<S>(o: Outcome<S>)
    ensures Prepend(None, o) == o
  {
    assert [] + o.msgs == o.msgs;
  }

  lemma FrameKeepsPrefaceFree<S>(reader: Reader<S>, st: S, open: nat, data: bytes, more: bytes)
    requires Sound(reader) && PrefaceFree(reader, data + more) && OneFrame(reader, st, open, data).Moved?
    ensures PrefaceFree(reader, data[OneFrame(reader, st, open, data).len..] + more)
  {
    var n := OneFrame(reader, st, open, data).len;
    assert Final(reader, data, more);
    assert (data + more)[n..] == data[n..] + more;
  }

  lemma FramesMoved<S>(reader: Reader<S>, st: S, open: nat, data: bytes)
    requires OneFrame(reader, st, open, data).Moved?
    ensures var t := OneFrame(reader, st, open, data);
            Frames(reader, st, open, data) ==
              if t.msg.Some? then Returned(t.st, t.msg, t.len, t.open)
              else Shift(Frames(reader, t.st, t.open, data[t.len..]), t.len)
  {
  }

  lemma {:induction false} FramesKeepPrefaceFree<S>(reader: Reader<S>, st: S, open: nat, data: bytes, more: bytes)
    requires Sound(reader)
    requires PrefaceFree(reader, data + more)
    ensures var r := Frames(reader, st, open, data); r.Returned? ==> PrefaceFree(reader, data[r.consumed..] + more)
    decreases |data|
  {
    var t := OneFrame(reader, st, open, data);
    if t.Wait? {
      assert data[0..] == data;
    } else if t.Moved? {
      FramesMoved(reader, st, open, data);
      FrameKeepsPrefaceFree(reader, st, open, data, more);
      FramesKeepPrefaceFree(reader, t.st, t.open, data[t.len..], more);
      TailOfTail(data, t.len, Frames(reader, t.st, t.open, data[t.len..]));
    }
  }

  /** A call either uses up nothing, or skips exactly what one pass would skip. */
  lemma SkipAgrees<S>(reader: Reader<S>, c: Conn<S>, buf: bytes, more: bytes)
    requires Sound(reader)
    ensures Skip(c.prefaceSeen, buf) == Skip(c.prefaceSeen, buf + more)
            || Parse(reader, c, buf) == Returned(c.st, None, 0, 0)
  {
    if Skip(c.prefaceSeen, buf) != Skip(c.prefaceSeen, buf + more) {
      assert buf < PREFACE && WaitsFor(reader, buf);
      assert buf[0..] == buf;
    }
  }

  /** A call that used something up leaves the rest to be read as one pass would read it. */
  lemma CallThenFlow<S>(reader: Reader<S>, c: Conn<S>, buf: bytes, more: bytes)
    requires Sound(reader)
    requires Skip(c.prefaceSeen, buf) == Skip(c.prefaceSeen, buf + more)
    ensures var r := Parse(reader, c, buf);
            OnePass(reader, c, buf + more) == Resume(reader, After(c, buf, c.st).prefaceSeen, r, buf, more)
  {
    var k := Skip(c.prefaceSeen, buf);
    var c' := After(c, buf, c.st);
    assert (buf + more)[k..] == buf[k..] + more;
    FramesThenFlow(reader, c', 0, buf[k..], more);
    ResumeShift(reader, c'.prefaceSeen, Frames(reader, c.st, 0, buf[k..]), k, buf, more);
  }

  lemma CallKeepsWellStarted<S>(reader: Reader<S>, c: Conn<S>, buf: bytes, more: bytes)
    requires Sound(reader)
    requires WellStarted(reader, c, buf + more)
    ensures var r := Parse(reader, c, buf); r.Returned? ==>
              && WellStarted(reader, After(c, buf, r.st), buf[r.consumed..] + more)
              && (r.consumed > 0 ==> !AtPreface(After(c, buf, r.st).prefaceSeen, buf[r.consumed..] + more))
  {
    SkipAgrees(reader, c, buf, more);
    assert buf[0..] == buf;
    if !c.prefaceSeen && !(PREFACE <= buf) && !(PREFACE <= buf + more) {
      FramesKeepPrefaceFree(reader, c.st, 0, buf, more);
    }
  }

  /** With nothing decided, what the reader remembers makes no difference. */
  lemma FlowIgnoresOpenAtStop<S>(reader: Reader<S>, c: Conn<S>, open: nat, data: bytes)
    ensures !Decided(reader, data) ==> Flow(reader, c, open, data) == Flow(reader, c, 0, data)
  {
  }

  /** One call and the one-pass reading of what it leaves over. */
  lemma CallThenOnePass<S>(reader: Reader<S>, c: Conn<S>, buf: bytes, more: bytes)
    requires Sound(reader)
    requires WellStarted(reader, c, buf + more)
    ensures var r := Parse(reader, c, buf);
            if r.Failed? then OnePass(reader, c, buf + more) == Outcome([], Broken)
            else Settled(reader, r, buf[r.consumed..] + more) ==>
                   OnePass(reader, c, buf + more) ==
                   Prepend(r.msg, OnePass(reader, After(c, buf, r.st), buf[r.consumed..] + more))
  {
    var r := Parse(reader, c, buf);
    if r == Returned(c.st, None, 0, 0) {
      assert buf[0..] == buf;
    } else {
      SkipAgrees(reader, c, buf, more);
      CallThenFlow(reader, c, buf, more);
      if r.Returned? {
        var rest := buf[r.consumed..] + more;
        var c' := After(c, buf, r.st);
        CallKeepsWellStarted(reader, c, buf, more);
        FlowIgnoresOpenAtStop(reader, c', r.open, rest);
        assert rest[0..] == rest;
      }
    }
  }

  /** Draining with calls is the one pass, when no call is harmful. */
  lemma {:induction false} DrainIsOnePass<S>(reader: Reader<S>, c: Conn<S>, buf: bytes)
    requires Sound(reader)
    requires WellStarted(reader, c, buf) && GoodDrain(reader, c, buf)
    ensures Drain(reader, c, buf) == OnePass(reader, c, buf)
    decreases |buf|
  {
    assert buf + [] == buf;
    CallThenOnePass(reader, c, buf, []);
    CallKeepsWellStarted(reader, c, buf, []);
    var r := Parse(reader, c, buf);
    if r.Returned? {
      var rest := buf[r.consumed..];
      assert rest + [] == rest;
      if r.consumed > 0 {
        DrainIsOnePass(reader, After(c, buf, r.st), rest);
      } else {
        NothingUsed(reader, c, buf);
      }
    }
  }

  /** A call that uses up nothing leaves one pass nothing to read either. */
  lemma NothingUsed<S>(reader: Reader<S>, c: Conn<S>, buf: bytes)
    requires Parse(reader, c, buf).Returned? && Parse(reader, c, buf).consumed == 0
    ensures OnePass(reader, c, buf) == Outcome([], Open(After(c, buf, c.st), buf))
    ensures Parse(reader, c, buf) == Returned(c.st, None, 0, 0)
  {
    assert buf[0..] == buf;
    assert Skip(c.prefaceSeen, buf) == 0;
    assert OneFrame(reader, c.st, 0, buf).Wait?;
  }

  // ---------- main results ----------

  /** Every harmless cutting gives the one-pass messages, bytes left over and state. */
  lemma {:induction false} CutIndependence<S>(reader: Reader<S>, c: Conn<S>, buf: bytes, ops: seq<Op>)
    requires Sound(reader)
    requires WellStarted(reader, c, buf + Delivered(ops))
    requires GoodCuts(reader, c, buf, ops)
    ensures CutRun(reader, c, buf, ops) == OnePass(reader, c, buf + Delivered(ops))
    decreases |ops|
  {
    if ops == [] {
      assert buf + [] == buf;
      DrainIsOnePass(reader, c, buf);
    } else {
      var later := Delivered(ops[1..]);
      match ops[0]
      case Deliver(b) =>
        assert buf + (b + later) == (buf + b) + later;
        CutIndependence(reader, c, buf + b, ops[1..]);
      case Call =>
        assert [] + later == later;
        CallThenOnePass(reader, c, buf, later);
        CallKeepsWellStarted(reader, c, buf, later);
        var r := Parse(reader, c, buf);
        if r.Returned? {
          CutIndependence(reader, After(c, buf, r.st), buf[r.consumed..], ops[1..]);
        }
    }
  }

  /** The next frame cannot be read by a reader that has just been rebuilt. */
  predicate Unreadable<S>(reader: Reader<S>, c: Conn<S>, data: bytes) {
    !AtPreface(c.prefaceSeen, data) && Stray(reader, data)
  }

  /** The reader can tell that a continuation is next. */
  predicate Stray<S>(reader: Reader<S>, data: bytes) {
    var r, a := Read(reader, data), reader.peek(data);
    (r.Got? && r.frame.Continuation?) || (r.Incomplete? && a.Some? && a.value.continuation)
  }

  /** A call that stops inside a header block makes the continuation unreadable. */
  lemma MidBlockCallBreaks<S>(reader: Reader<S>, c: Conn<S>, buf: bytes, more: bytes)
    requires Sound(reader)
    requires WellStarted(reader, c, buf + more)
    requires !OnePass(reader, c, buf + more).end.Broken?
    requires var r := Parse(reader, c, buf); r.Returned? && !Settled(reader, r, buf[r.consumed..] + more)
    ensures var r := Parse(reader, c, buf);
            r.consumed > 0 && Unreadable(reader, After(c, buf, r.st), buf[r.consumed..] + more)
  {
    SkipAgrees(reader, c, buf, more);
    CallThenFlow(reader, c, buf, more);
    CallKeepsWellStarted(reader, c, buf, more);
    var r := Parse(reader, c, buf);
    if r.consumed == 0 {
      NothingUsed(reader, c, buf);
    }
    OpenThenStray(reader, After(c, buf, r.st), r.open, buf[r.consumed..] + more);
  }

  /** Inside a header block, whatever the reader can read without an error is a continuation. */
  lemma OpenThenStray<S>(reader: Reader<S>, c: Conn<S>, open: nat, data: bytes)
    requires Decided(reader, data) && open != 0 && !Flow(reader, c, open, data).end.Broken?
    ensures Stray(reader, data)
  {
    assert !OneFrame(reader, c.st, open, data).Error?;
  }

  /** What a call makes of the first part of bytes that begin with a stray continuation. */
  lemma StrayCall<S>(reader: Reader<S>, c: Conn<S>, buf: bytes, more: bytes)
    requires Sound(reader) && Unreadable(reader, c, buf + more)
    ensures Parse(reader, c, buf).Failed? || Parse(reader, c, buf) == Returned(c.st, None, 0, 0)
    ensures Stray(reader, buf) ==> Parse(reader, c, buf).Failed?
  {
    assert buf[0..] == buf && Final(reader, buf, more) && Foretells(reader, buf + more);
    assert Skip(c.prefaceSeen, buf) == 0;
    assert OneFrame(reader, c.st, 0, buf).Error? || OneFrame(reader, c.st, 0, buf).Wait?;
  }

  lemma ParseOfUsedNothing<S>(reader: Reader<S>, c: Conn<S>, buf: bytes)
    requires Parse(reader, c, buf) == Returned(c.st, None, 0, 0)
    ensures After(c, buf, c.st) == c && buf[0..] == buf
  {
    assert Skip(c.prefaceSeen, buf) == 0;
  }

  /** An unreadable frame drops the connection at the first call that can tell. */
  lemma {:induction false} UnreadableBreaks<S>(reader: Reader<S>, c: Conn<S>, buf: bytes, ops: seq<Op>)
    requires Sound(reader)
    requires Unreadable(reader, c, buf + Delivered(ops))
    ensures CutRun(reader, c, buf, ops) == Outcome([], Broken)
    decreases |ops|
  {
    var later := Delivered(ops);
    if ops == [] {
      assert buf + [] == buf;
      StrayCall(reader, c, buf, []);
    } else if ops[0].Deliver? {
      assert buf + later == (buf + ops[0].data) + Delivered(ops[1..]);
      UnreadableBreaks(reader, c, buf + ops[0].data, ops[1..]);
    } else {
      assert later == Delivered(ops[1..]);
      StrayCall(reader, c, buf, later);
      if !Parse(reader, c, buf).Failed? {
        ParseOfUsedNothing(reader, c, buf);
        UnreadableBreaks(reader, c, buf, ops[1..]);
        PrependNone(CutRun(reader, c, buf, ops[1..]));
      }
    }
  }

  lemma {:induction false} BadDrainBreaks<S>(reader: Reader<S>, c: Conn<S>, buf: bytes)
    requires Sound(reader)
    requires WellStarted(reader, c, buf)
    requires !OnePass(reader, c, buf).end.Broken? && !GoodDrain(reader, c, buf)
    ensures Drain(reader, c, buf).end.Broken?
    decreases |buf|
  {
    assert buf + [] == buf;
    CallThenOnePass(reader, c, buf, []);
    CallKeepsWellStarted(reader, c, buf, []);
    var r := Parse(reader, c, buf);
    var c', rest := After(c, buf, r.st), buf[r.consumed..];
    assert rest + [] == rest;
    if Settled(reader, r, rest) {
      BadDrainBreaks(reader, c', rest);
    } else {
      MidBlockCallBreaks(reader, c, buf, []);
      UnreadableBreaks(reader, c', rest, []);
    }
  }

  lemma BadCallBreaks<S>(reader: Reader<S>, c: Conn<S>, buf: bytes, ops: seq<Op>)
    requires Sound(reader)
    requires WellStarted(reader, c, buf + Delivered(ops))
    requires !OnePass(reader, c, buf + Delivered(ops)).end.Broken?
    requires var r := Parse(reader, c, buf); r.Returned? && !Settled(reader, r, buf[r.consumed..] + Delivered(ops))
    ensures var r := Parse(reader, c, buf); CutRun(reader, After(c, buf, r.st), buf[r.consumed..], ops).end.Broken?
  {
    var r := Parse(reader, c, buf);
    MidBlockCallBreaks(reader, c, buf, Delivered(ops));
    UnreadableBreaks(reader, After(c, buf, r.st), buf[r.consumed..], ops);
  }

  /** The run after a call that was settled. */
  lemma SettledCall<S>(reader: Reader<S>, c: Conn<S>, buf: bytes, ops: seq<Op>)
    requires Sound(reader)
    requires WellStarted(reader, c, buf + Delivered(ops))
    requires !OnePass(reader, c, buf + Delivered(ops)).end.Broken?
    ensures var r := Parse(reader, c, buf);
            && r.Returned?
            && (Settled(reader, r, buf[r.consumed..] + Delivered(ops)) ==>
                  && WellStarted(reader, After(c, buf, r.st), buf[r.consumed..] + Delivered(ops))
                  && !OnePass(reader, After(c, buf, r.st), buf[r.consumed..] + Delivered(ops)).end.Broken?)
  {
    CallThenOnePass(reader, c, buf, Delivered(ops));
    CallKeepsWellStarted(reader, c, buf, Delivered(ops));
  }

  lemma CallUnfolds<S>(reader: Reader<S>, c: Conn<S>, buf: bytes, ops: seq<Op>)
    requires ops != [] && ops[0].Call? && Parse(reader, c, buf).Returned?
    ensures var r := Parse(reader, c, buf);
            var next, rest := After(c, buf, r.st), buf[r.consumed..];
            && (CutRun(reader, next, rest, ops[1..]).end.Broken? ==> CutRun(reader, c, buf, ops).end.Broken?)
            && (GoodCuts(reader, c, buf, ops) <==>
                  Settled(reader, r, rest + Delivered(ops[1..])) && GoodCuts(reader, next, rest, ops[1..]))
  {
  }

  lemma {:induction false} BadCutBreaks<S>(reader: Reader<S>, c: Conn<S>, buf: bytes, ops: seq<Op>)
    requires Sound(reader)
    requires WellStarted(reader, c, buf + Delivered(ops))
    requires !OnePass(reader, c, buf + Delivered(ops)).end.Broken?
    requires !GoodCuts(reader, c, buf, ops)
    ensures CutRun(reader, c, buf, ops).end.Broken?
    decreases |ops|
  {
    if ops == [] {
      assert buf + [] == buf;
      BadDrainBreaks(reader, c, buf);
    } else if ops[0].Deliver? {
      Assoc(buf, ops[0].data, Delivered(ops[1..]));
      BadCutBreaks(reader, c, buf + ops[0].data, ops[1..]);
    } else {
      assert Delivered(ops) == Delivered(ops[1..]);
      SettledCall(reader, c, buf, ops[1..]);
      var r := Parse(reader, c, buf);
      CallUnfolds(reader, c, buf, ops);
      if Settled(reader, r, buf[r.consumed..] + Delivered(ops[1..])) {
        BadCutBreaks(reader, After(c, buf, r.st), buf[r.consumed..], ops[1..]);
      } else {
        BadCallBreaks(reader, c, buf, ops[1..]);
      }
    }
  }

  /** The exact condition, for every byte string that one pass reads without an error. */
  lemma CutIndependenceIff<S>(reader: Reader<S>, c: Conn<S>, buf: bytes, ops: seq<Op>)
    requires Sound(reader)
    requires WellStarted(reader, c, buf + Delivered(ops))
    requires !OnePass(reader, c, buf + Delivered(ops)).end.Broken?
    ensures CutRun(reader, c, buf, ops) == OnePass(reader, c, buf + Delivered(ops)) <==> GoodCuts(reader, c, buf, ops)
  {
    if GoodCuts(reader, c, buf, ops) {
      CutIndependence(reader, c, buf, ops);
    } else {
      BadCutBreaks(reader, c, buf, ops);
    }
  }

  // ---------- a condition on the positions of the calls ----------

  /** The stream whose header block is open behind all the frames of `data`. */
  function OpenAfter<S>(reader: Reader<S>, open: nat, data: bytes): nat
    decreases |data|
  {
    match Read(reader, data)
    case Got(f, n) => OpenAfter(reader, NextOpen(open, f), data[n..])
    case _ => open
  }

  function OpenAt<S>(reader: Reader<S>, prefaceSeen: bool, open: nat, data: bytes): nat {
    OpenAfter(reader, open, data[Skip(prefaceSeen, data)..])
  }

  /** No call comes when the bytes delivered so far leave a header block open. */
  predicate QuietCalls<S>(reader: Reader<S>, prefaceSeen: bool, open: nat, data: bytes, ops: seq<Op>)
    decreases |ops|
  {
    if ops == [] then OpenAt(reader, prefaceSeen, open, data) == 0
    else if ops[0].Deliver? then QuietCalls(reader, prefaceSeen, open, data + ops[0].data, ops[1..])
    else OpenAt(reader, prefaceSeen, open, data) == 0 && QuietCalls(reader, prefaceSeen, open, data, ops[1..])
  }

  /** The block open behind the frames that a call reads, whatever its own reader remembers. */
  function Carry<S>(reader: Reader<S>, st: S, mine: nat, open: nat, data: bytes): nat
    decreases |data|
  {
    match OneFrame(reader, st, mine, data)
    case Moved(st', msg, n, mine') =>
      var open' := NextOpen(open, Read(reader, data).frame);
      if msg.Some? then open' else Carry(reader, st', mine', open', data[n..])
    case _ => open
  }

  lemma {:induction false} CarryOn<S>(reader: Reader<S>, st: S, mine: nat, open: nat, data: bytes, more: bytes)
    requires Sound(reader)
    ensures var r := Frames(reader, st, mine, data);
            r.Returned? ==> OpenAfter(reader, open, data + more) ==
                            OpenAfter(reader, Carry(reader, st, mine, open, data), data[r.consumed..] + more)
    decreases |data|
  {
    var t := OneFrame(reader, st, mine, data);
    if t.Wait? {
      assert data[0..] == data;
    } else if t.Moved? {
      assert Final(reader, data, more);
      var tail, open' := data[t.len..], NextOpen(open, Read(reader, data).frame);
      assert (data + more)[t.len..] == tail + more;
      FramesMoved(reader, st, mine, data);
      if t.msg.None? {
        CarryOn(reader, t.st, t.open, open', tail, more);
        TailOfTail(data, t.len, Frames(reader, t.st, t.open, tail));
      }
    }
  }

  /** Where no block is open in fact, a call that found no message does not remember one. */
  lemma {:induction false} CallForgetsNothing<S>(reader: Reader<S>, st: S, mine: nat, open: nat, data: bytes)
    requires mine == open || mine == 0
    ensures var r := Frames(reader, st, mine, data);
            r.Returned? && r.msg.None? && OpenAfter(reader, open, data) == 0 ==> r.open == 0
    decreases |data|
  {
    var t := OneFrame(reader, st, mine, data);
    if t.Moved? && t.msg.None? {
      FramesMoved(reader, st, mine, data);
      CallForgetsNothing(reader, t.st, t.open, NextOpen(open, Read(reader, data).frame), data[t.len..]);
    }
  }

  /** A call moves on in the bytes, and what is open behind them stays what it is. */
  lemma OpenAtMovesOn<S>(reader: Reader<S>, c: Conn<S>, open: nat, buf: bytes, more: bytes)
    requires Sound(reader) && WellStarted(reader, c, buf + more)
    ensures var r := Parse(reader, c, buf);
            r.Returned? ==>
              OpenAt(reader, c.prefaceSeen, open, buf + more) ==
              OpenAt(reader, After(c, buf, r.st).prefaceSeen, CarryCall(reader, c, open, buf), buf[r.consumed..] + more)
  {
    var r, k := Parse(reader, c, buf), Skip(c.prefaceSeen, buf);
    if r.Returned? {
      SkipAgrees(reader, c, buf, more);
      if r.consumed == 0 {
        NothingUsed(reader, c, buf);
        ParseOfUsedNothing(reader, c, buf);
      } else {
        CallKeepsWellStarted(reader, c, buf, more);
        CarryOn(reader, c.st, 0, open, buf[k..], more);
        assert (buf + more)[k..] == buf[k..] + more;
        assert buf[k..][r.consumed - k..] == buf[r.consumed..];
        var rest := buf[r.consumed..] + more;
        assert rest[0..] == rest;
      }
    }
  }

  function CarryCall<S>(reader: Reader<S>, c: Conn<S>, open: nat, buf: bytes): nat {
    if Parse(reader, c, buf).Returned? && Parse(reader, c, buf).consumed > 0
    then Carry(reader, c.st, 0, open, buf[Skip(c.prefaceSeen, buf)..]) else open
  }

  lemma {:induction false} PrefaceFreePrefix<S>(reader: Reader<S>, data: bytes, more: bytes)
    requires Sound(reader) && PrefaceFree(reader, data + more)
    ensures PrefaceFree(reader, data)
    decreases |data|
  {
    assert Final(reader, data, more);
    var r := Read(reader, data);
    if r.Got? {
      assert (data + more)[r.len..] == data[r.len..] + more;
      PrefaceFreePrefix(reader, data[r.len..], more);
    }
  }

  lemma WellStartedPrefix<S>(reader: Reader<S>, c: Conn<S>, data: bytes, more: bytes)
    requires Sound(reader) && WellStarted(reader, c, data + more)
    ensures WellStarted(reader, c, data)
  {
    if !c.prefaceSeen && !(PREFACE <= data) {
      if PREFACE <= data + more {
        assert data < PREFACE && WaitsFor(reader, data);
      } else {
        PrefaceFreePrefix(reader, data, more);
      }
    }
  }

  /** Quiet calls are quiet when seen from behind an earlier call. */
  lemma {:induction false} QuietMovesOn<S>(
      reader: Reader<S>, c: Conn<S>, open: nat, buf: bytes, more: bytes, ops: seq<Op>)
    requires Sound(reader) && WellStarted(reader, c, buf + more + Delivered(ops))
    requires Parse(reader, c, buf).Returned? && QuietCalls(reader, c.prefaceSeen, open, buf + more, ops)
    ensures var r := Parse(reader, c, buf);
            QuietCalls(reader, After(c, buf, r.st).prefaceSeen, CarryCall(reader, c, open, buf),
                       buf[r.consumed..] + more, ops)
    decreases |ops|
  {
    WellStartedPrefix(reader, c, buf + more, Delivered(ops));
    OpenAtMovesOn(reader, c, open, buf, more);
    if ops != [] {
      var r := Parse(reader, c, buf);
      if ops[0].Deliver? {
        var b := ops[0].data;
        Assoc(buf, more, b);
        Assoc(buf[r.consumed..], more, b);
        Assoc(buf + more, b, Delivered(ops[1..]));
        QuietMovesOn(reader, c, open, buf, more + b, ops[1..]);
      } else {
        assert Delivered(ops) == Delivered(ops[1..]);
        QuietMovesOn(reader, c, open, buf, more, ops[1..]);
      }
    }
  }

  lemma QuietCallIsSettled<S>(reader: Reader<S>, c: Conn<S>, open: nat, buf: bytes, remaining: bytes)
    requires OpenAt(reader, c.prefaceSeen, open, buf) == 0
    ensures Settled(reader, Parse(reader, c, buf), remaining)
  {
    CallForgetsNothing(reader, c.st, 0, open, buf[Skip(c.prefaceSeen, buf)..]);
  }

  lemma {:induction false} QuietDrainIsGood<S>(reader: Reader<S>, c: Conn<S>, open: nat, buf: bytes)
    requires Sound(reader) && WellStarted(reader, c, buf) && OpenAt(reader, c.prefaceSeen, open, buf) == 0
    ensures GoodDrain(reader, c, buf)
    decreases |buf|
  {
    var r := Parse(reader, c, buf);
    if r.Returned? {
      var rest := buf[r.consumed..];
      assert buf + [] == buf && rest + [] == rest;
      QuietCallIsSettled(reader, c, open, buf, rest);
      if r.consumed > 0 {
        OpenAtMovesOn(reader, c, open, buf, []);
        CallKeepsWellStarted(reader, c, buf, []);
        QuietDrainIsGood(reader, After(c, buf, r.st), CarryCall(reader, c, open, buf), rest);
      }
    }
  }

  lemma {:induction false} QuietCallsFromHere<S>(reader: Reader<S>, c: Conn<S>, open: nat, buf: bytes, ops: seq<Op>)
    requires Sound(reader) && WellStarted(reader, c, buf + Delivered(ops))
    requires QuietCalls(reader, c.prefaceSeen, open, buf, ops)
    ensures GoodCuts(reader, c, buf, ops)
    decreases |ops|
  {
    if ops == [] {
      assert buf + [] == buf;
      QuietDrainIsGood(reader, c, open, buf);
    } else if ops[0].Deliver? {
      Assoc(buf, ops[0].data, Delivered(ops[1..]));
      QuietCallsFromHere(reader, c, open, buf + ops[0].data, ops[1..]);
    } else {
      var r, later := Parse(reader, c, buf), Delivered(ops[1..]);
      assert Delivered(ops) == later;
      if r.Returned? {
        var rest := buf[r.consumed..];
        assert buf + [] == buf && rest + [] == rest;
        QuietCallIsSettled(reader, c, open, buf, rest + later);
        CallKeepsWellStarted(reader, c, buf, later);
        QuietMovesOn(reader, c, open, buf, [], ops[1..]);
        QuietCallsFromHere(reader, After(c, buf, r.st), CarryCall(reader, c, open, buf), rest, ops[1..]);
      }
    }
  }

  /** It is enough to look at where the calls come: no cut is harmful if none falls inside a header block. */
  lemma QuietCallsAreGood<S>(reader: Reader<S>, c: Conn<S>, ops: seq<Op>)
    requires Sound(reader) && WellStarted(reader, c, Delivered(ops))
    requires QuietCalls(reader, c.prefaceSeen, 0, [], ops)
    ensures GoodCuts(reader, c, [], ops)
    ensures CutRun(reader, c, [], ops) == OnePass(reader, c, Delivered(ops))
  {
    assert [] + Delivered(ops) == Delivered(ops);
    QuietCallsFromHere(reader, c, 0, [], ops);
    CutIndependence(reader, c, [], ops);
  }
}
