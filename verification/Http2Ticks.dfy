/**
 The program's schedule for HTTP/2: events arrive, and now and then the parse loop visits
 the record.  Such a schedule is one of the runs of module Http2Cuts, so its messages are
 those of one pass over everything that arrived.
 */
module Http2Ticks {
  import opened Common
  import opened Http2Framing
  import opened Http2Cuts
  import Records

  /** The HTTP/2 parser as the parse loops see it; every message, and only a message, ends a stream. */
  function ParserOf<S>(reader: Reader<S>, decodes: Message -> bool): Records.Parser<Conn<S>, Message> {
    Records.Parser((c, stream) => Outer(c, stream, Parse(reader, c, stream)), decodes)
  }

  function Outer<S>(c: Conn<S>, stream: bytes, r: CallResult<S>): Records.Parsed<Conn<S>, Message> {
    match r
    case Failed => Records.ParseError
    case Returned(st, msg, n, _) =>
      Records.ParseOk(After(c, stream, st), FoundOf(msg), n, msg.Some?)
  }

  function FoundOf(msg: Option<Message>): Records.Found<Message> {
    match msg
    case None => Records.Nothing
    case Some(Canceled(sid)) => Records.Cancel(Canceled(sid))
    case Some(m) => Records.Item(m)
  }

  /** The messages among the effects, whatever became of them. */
  function MessagesIn(effects: seq<Records.Effect<Message>>): seq<Message> {
    if effects == [] then []
    else (if effects[0].DropConnection? || effects[0].Crash? then [] else [effects[0].m]) + MessagesIn(effects[1..])
  }

  /** A visit's effects come before the rest of the run, unless it dropped the connection. */
  function AfterVisit<S>(effects: seq<Records.Effect<Message>>, o: Outcome<S>): Outcome<S> {
    if Records.DropConnection in effects then Outcome(MessagesIn(effects), Broken)
    else o.(msgs := MessagesIn(effects) + o.msgs)
  }

  function Schedule<S>(
      reader: Reader<S>, decodes: Message -> bool, c: Conn<S>, buf: bytes, rounds: seq<Round>): Outcome<S>
    decreases |rounds|
  {
    if rounds == [] then Drain(reader, c, buf) else
      match rounds[0]
      case Arrive(b) => Schedule(reader, decodes, c, buf + b, rounds[1..])
      case Visit =>
        var t := Records.TickOf(ParserOf(reader, decodes), c, buf);
        AfterVisit(t.effects, Schedule(reader, decodes, t.state, t.rest, rounds[1..]))
  }

  /** How many parser calls one visit makes. */
  function CallsIn<S>(reader: Reader<S>, decodes: Message -> bool, c: Conn<S>, buf: bytes): nat
    decreases |buf|
  {
    if buf == [] then 0 else
      match Parse(reader, c, buf)
      case Failed => 1
      case Returned(st, msg, n, _) =>
        if n == 0 || (msg.Some? && msg.value.Complete? && decodes(msg.value)) then 1
        else 1 + CallsIn(reader, decodes, After(c, buf, st), buf[n..])
  }

  function Calls(k: nat): seq<Op> {
    if k == 0 then [] else [Call] + Calls(k - 1)
  }

  function OpsOf<S>(reader: Reader<S>, decodes: Message -> bool, c: Conn<S>, buf: bytes, rounds: seq<Round>): seq<Op>
    decreases |rounds|
  {
    if rounds == [] then [] else
      match rounds[0]
      case Arrive(b) => [Deliver(b)] + OpsOf(reader, decodes, c, buf + b, rounds[1..])
      case Visit =>
        var t := Records.TickOf(ParserOf(reader, decodes), c, buf);
        Calls(CallsIn(reader, decodes, c, buf)) + OpsOf(reader, decodes, t.state, t.rest, rounds[1..])
  }

  /** One turn of a visit, in terms of one parser call. */
  lemma TickUnfolds<S>(reader: Reader<S>, decodes: Message -> bool, c: Conn<S>, buf: bytes)
    requires buf != []
    ensures var t, r := Records.TickOf(ParserOf(reader, decodes), c, buf), Parse(reader, c, buf);
            if r.Failed? then t == Records.Tick(c, buf, [Records.DropConnection])
            else if r.consumed == 0 then t == Records.Tick(After(c, buf, r.st), buf, [])
            else if r.msg.Some? && r.msg.value.Complete? && decodes(r.msg.value) then
              t == Records.Tick(After(c, buf, r.st), buf[r.consumed..], [Records.Emit(r.msg.value)])
            else
              t == Records.Then(Records.Passing(FoundOf(r.msg), r.msg.Some?),
                                Records.TickOf(ParserOf(reader, decodes), After(c, buf, r.st), buf[r.consumed..]))
  {
  }

  lemma PassingMessages<S>(msg: Option<Message>, effects: seq<Records.Effect<Message>>, o: Outcome<S>)
    ensures AfterVisit(Records.Passing(FoundOf(msg), msg.Some?) + effects, o) == Prepend(msg, AfterVisit(effects, o))
  {
    var passing := Records.Passing(FoundOf(msg), msg.Some?);
    if msg.None? {
      assert passing + effects == effects;
      PrependNone(AfterVisit(effects, o));
    } else {
      assert (passing + effects)[1..] == effects;
      assert MessagesIn(passing + effects) == [msg.value] + MessagesIn(effects);
      assert ([msg.value] + MessagesIn(effects)) + o.msgs == [msg.value] + (MessagesIn(effects) + o.msgs);
    }
  }

  lemma CallFirst<S>(reader: Reader<S>, c: Conn<S>, buf: bytes, k: nat, ops: seq<Op>)
    ensures var r := Parse(reader, c, buf);
            CutRun(reader, c, buf, Calls(k + 1) + ops) ==
            if r.Failed? then Outcome([], Broken)
            else Prepend(r.msg, CutRun(reader, After(c, buf, r.st), buf[r.consumed..], Calls(k) + ops))
  {
    var all := Calls(k + 1) + ops;
    assert all[0] == Call && all[1..] == Calls(k) + ops;
  }

  /** What a visit and the run after it come to. */
  function Visited<S>(
    reader: Reader<S>, decodes: Message -> bool, c: Conn<S>, buf: bytes, ops: seq<Op>): Outcome<S>
  {
    var t := Records.TickOf(ParserOf(reader, decodes), c, buf);
    AfterVisit(t.effects, CutRun(reader, t.state, t.rest, ops))
  }

  /** The visit goes on after this call. */
  predicate GoesOn<S>(decodes: Message -> bool, r: CallResult<S>) {
    r.Returned? && r.consumed > 0 && !(r.msg.Some? && r.msg.value.Complete? && decodes(r.msg.value))
  }

  /** A visit that ends with its first call. */
  lemma VisitEnds<S>(reader: Reader<S>, decodes: Message -> bool, c: Conn<S>, buf: bytes, ops: seq<Op>)
    requires buf != [] && !GoesOn(decodes, Parse(reader, c, buf))
    ensures var r := Parse(reader, c, buf);
            Visited(reader, decodes, c, buf, ops) ==
            if r.Failed? then Outcome([], Broken)
            else Prepend(r.msg, CutRun(reader, After(c, buf, r.st), buf[r.consumed..], ops))
  {
    TickUnfolds(reader, decodes, c, buf);
    var r := Parse(reader, c, buf);
    if r.Failed? {
      DropEffect(CutRun(reader, c, buf, ops));
    } else {
      var o := CutRun(reader, After(c, buf, r.st), buf[r.consumed..], ops);
      if r.consumed == 0 {
        assert buf[0..] == buf && r.msg.None?;
        NoEffect(o);
      } else {
        EmitEffect(r.msg.value, o);
      }
    }
  }

  lemma DropEffect<S>(o: Outcome<S>)
    ensures AfterVisit([Records.DropConnection], o) == Outcome([], Broken)
  {
    var effects := [Records.DropConnection];
    assert effects[1..] == [] && MessagesIn(effects) == [] + MessagesIn([]);
  }

  lemma NoEffect<S>(o: Outcome<S>)
    ensures AfterVisit([], o) == Prepend(None, o)
  {
    assert [] + o.msgs == o.msgs;
  }

  lemma EmitEffect<S>(m: Message, o: Outcome<S>)
    ensures AfterVisit([Records.Emit(m)], o) == Prepend(Some(m), o)
  {
    var effects := [Records.Emit(m)];
    assert effects[1..] == [] && MessagesIn(effects) == [m] + MessagesIn([]);
  }

  /** A visit that goes on is its first call, and the visit of what that leaves. */
  lemma VisitContinues<S>(reader: Reader<S>, decodes: Message -> bool, c: Conn<S>, buf: bytes, ops: seq<Op>)
    requires buf != [] && GoesOn(decodes, Parse(reader, c, buf))
    ensures var r := Parse(reader, c, buf);
            Visited(reader, decodes, c, buf, ops) ==
            Prepend(r.msg, Visited(reader, decodes, After(c, buf, r.st), buf[r.consumed..], ops))
  {
    TickUnfolds(reader, decodes, c, buf);
    var r := Parse(reader, c, buf);
    var t := Records.TickOf(ParserOf(reader, decodes), After(c, buf, r.st), buf[r.consumed..]);
    PassingMessages(r.msg, t.effects, CutRun(reader, t.state, t.rest, ops));
  }

  lemma CallsInUnfold<S>(reader: Reader<S>, decodes: Message -> bool, c: Conn<S>, buf: bytes)
    requires buf != []
    ensures var r := Parse(reader, c, buf);
            CallsIn(reader, decodes, c, buf) ==
            1 + if GoesOn(decodes, r) then CallsIn(reader, decodes, After(c, buf, r.st), buf[r.consumed..]) else 0
  {
  }

  /** One visit is that many calls. */
  lemma {:induction false} VisitIsCalls<S>(
    reader: Reader<S>, decodes: Message -> bool, c: Conn<S>, buf: bytes, ops: seq<Op>)
    ensures CutRun(reader, c, buf, Calls(CallsIn(reader, decodes, c, buf)) + ops) ==
            Visited(reader, decodes, c, buf, ops)
    decreases |buf|
  {
    if buf == [] {
      assert Calls(0) + ops == ops;
      PrependNone(CutRun(reader, c, buf, ops));
    } else {
      var r := Parse(reader, c, buf);
      CallsInUnfold(reader, decodes, c, buf);
      CallFirst(reader, c, buf, CallsIn(reader, decodes, c, buf) - 1, ops);
      if GoesOn(decodes, r) {
        VisitContinues(reader, decodes, c, buf, ops);
        VisitIsCalls(reader, decodes, After(c, buf, r.st), buf[r.consumed..], ops);
      } else {
        VisitEnds(reader, decodes, c, buf, ops);
        assert Calls(0) + ops == ops;
      }
    }
  }

  /** A schedule of arrivals and visits is a run of deliveries and calls. */
  lemma {:induction false} ScheduleIsCutRun<S>(
      reader: Reader<S>, decodes: Message -> bool, c: Conn<S>, buf: bytes, rounds: seq<Round>)
    ensures Schedule(reader, decodes, c, buf, rounds) ==
            CutRun(reader, c, buf, OpsOf(reader, decodes, c, buf, rounds))
    decreases |rounds|
  {
    if rounds != [] {
      var ops := OpsOf(reader, decodes, c, buf, rounds);
      match rounds[0]
      case Arrive(b) =>
        assert ops[1..] == OpsOf(reader, decodes, c, buf + b, rounds[1..]);
        ScheduleIsCutRun(reader, decodes, c, buf + b, rounds[1..]);
      case Visit =>
        var t := Records.TickOf(ParserOf(reader, decodes), c, buf);
        VisitIsCalls(reader, decodes, c, buf, OpsOf(reader, decodes, t.state, t.rest, rounds[1..]));
        ScheduleIsCutRun(reader, decodes, t.state, t.rest, rounds[1..]);
    }
  }

  lemma {:induction false} DeliveredCalls(k: nat, ops: seq<Op>)
    ensures Delivered(Calls(k) + ops) == Delivered(ops)
  {
    if k == 0 {
      assert Calls(0) + ops == ops;
    } else {
      assert (Calls(k) + ops)[1..] == Calls(k - 1) + ops;
      DeliveredCalls(k - 1, ops);
      assert [] + Delivered(ops) == Delivered(ops);
    }
  }

  lemma {:induction false} DeliveredIsArrived<S>(
      reader: Reader<S>, decodes: Message -> bool, c: Conn<S>, buf: bytes, rounds: seq<Round>)
    ensures Delivered(OpsOf(reader, decodes, c, buf, rounds)) == Arrived(rounds)
    decreases |rounds|
  {
    if rounds != [] {
      var ops := OpsOf(reader, decodes, c, buf, rounds);
      match rounds[0]
      case Arrive(b) =>
        assert ops[1..] == OpsOf(reader, decodes, c, buf + b, rounds[1..]);
        DeliveredIsArrived(reader, decodes, c, buf + b, rounds[1..]);
      case Visit =>
        var t := Records.TickOf(ParserOf(reader, decodes), c, buf);
        DeliveredCalls(CallsIn(reader, decodes, c, buf), OpsOf(reader, decodes, t.state, t.rest, rounds[1..]));
        DeliveredIsArrived(reader, decodes, t.state, t.rest, rounds[1..]);
        assert [] + Arrived(rounds[1..]) == Arrived(rounds[1..]);
    }
  }

  /** Whatever the timing of arrivals and visits, the messages are those of one pass. */
  lemma ScheduleIndependence<S>(reader: Reader<S>, decodes: Message -> bool, c: Conn<S>, rounds: seq<Round>)
    requires Sound(reader) && WellStarted(reader, c, Arrived(rounds))
    requires GoodCuts(reader, c, [], OpsOf(reader, decodes, c, [], rounds))
    ensures Schedule(reader, decodes, c, [], rounds) == OnePass(reader, c, Arrived(rounds))
  {
    ScheduleIsCutRun(reader, decodes, c, [], rounds);
    DeliveredIsArrived(reader, decodes, c, [], rounds);
    assert [] + Arrived(rounds) == Arrived(rounds);
    CutIndependence(reader, c, [], OpsOf(reader, decodes, c, [], rounds));
  }

  /** The exact condition, for every byte string that one pass reads without an error. */
  lemma ScheduleIndependenceIff<S>(reader: Reader<S>, decodes: Message -> bool, c: Conn<S>, rounds: seq<Round>)
    requires Sound(reader) && WellStarted(reader, c, Arrived(rounds))
    requires !OnePass(reader, c, Arrived(rounds)).end.Broken?
    ensures Schedule(reader, decodes, c, [], rounds) == OnePass(reader, c, Arrived(rounds)) <==>
              GoodCuts(reader, c, [], OpsOf(reader, decodes, c, [], rounds))
  {
    ScheduleIsCutRun(reader, decodes, c, [], rounds);
    DeliveredIsArrived(reader, decodes, c, [], rounds);
    assert [] + Arrived(rounds) == Arrived(rounds);
    CutIndependenceIff(reader, c, [], OpsOf(reader, decodes, c, [], rounds));
  }

  /** No visit comes when the bytes that arrived so far leave a header block open. */
  predicate QuietVisits<S>(reader: Reader<S>, prefaceSeen: bool, data: bytes, rounds: seq<Round>)
    decreases |rounds|
  {
    if rounds == [] then OpenAt(reader, prefaceSeen, 0, data) == 0
    else if rounds[0].Arrive? then QuietVisits(reader, prefaceSeen, data + rounds[0].data, rounds[1..])
    else OpenAt(reader, prefaceSeen, 0, data) == 0 && QuietVisits(reader, prefaceSeen, data, rounds[1..])
  }

  lemma {:induction false} QuietAfterCalls<S>(reader: Reader<S>, prefaceSeen: bool, data: bytes, k: nat, ops: seq<Op>)
    requires OpenAt(reader, prefaceSeen, 0, data) == 0 && QuietCalls(reader, prefaceSeen, 0, data, ops)
    ensures QuietCalls(reader, prefaceSeen, 0, data, Calls(k) + ops)
  {
    if k == 0 {
      assert Calls(0) + ops == ops;
    } else {
      QuietAfterCalls(reader, prefaceSeen, data, k - 1, ops);
      QuietAfterCall(reader, prefaceSeen, data, Calls(k - 1) + ops);
      assert Calls(k) + ops == [Call] + (Calls(k - 1) + ops);
    }
  }

  lemma QuietAfterCall<S>(reader: Reader<S>, prefaceSeen: bool, data: bytes, ops: seq<Op>)
    requires OpenAt(reader, prefaceSeen, 0, data) == 0 && QuietCalls(reader, prefaceSeen, 0, data, ops)
    ensures QuietCalls(reader, prefaceSeen, 0, data, [Call] + ops)
  {
    assert ([Call] + ops)[1..] == ops;
  }

  lemma {:induction false} QuietVisitsMakeQuietCalls<S>(
    reader: Reader<S>, decodes: Message -> bool, c: Conn<S>, buf: bytes, prefaceSeen: bool, data: bytes,
    rounds: seq<Round>)
    requires QuietVisits(reader, prefaceSeen, data, rounds)
    ensures QuietCalls(reader, prefaceSeen, 0, data, OpsOf(reader, decodes, c, buf, rounds))
    decreases |rounds|
  {
    if rounds != [] {
      if rounds[0].Arrive? {
        var b := rounds[0].data;
        QuietVisitsMakeQuietCalls(reader, decodes, c, buf + b, prefaceSeen, data + b, rounds[1..]);
        var ops := OpsOf(reader, decodes, c, buf, rounds);
        assert ops[0] == Deliver(b) && ops[1..] == OpsOf(reader, decodes, c, buf + b, rounds[1..]);
      } else {
        var t := Records.TickOf(ParserOf(reader, decodes), c, buf);
        QuietVisitsMakeQuietCalls(reader, decodes, t.state, t.rest, prefaceSeen, data, rounds[1..]);
        QuietAfterCalls(reader, prefaceSeen, data, CallsIn(reader, decodes, c, buf),
                        OpsOf(reader, decodes, t.state, t.rest, rounds[1..]));
      }
    }
  }

  /** It is enough to look at when the visits come: those outside header blocks are harmless. */
  lemma QuietScheduleIsOnePass<S>(reader: Reader<S>, decodes: Message -> bool, c: Conn<S>, rounds: seq<Round>)
    requires Sound(reader) && WellStarted(reader, c, Arrived(rounds))
    requires QuietVisits(reader, c.prefaceSeen, [], rounds)
    ensures Schedule(reader, decodes, c, [], rounds) == OnePass(reader, c, Arrived(rounds))
  {
    QuietVisitsMakeQuietCalls(reader, decodes, c, [], c.prefaceSeen, [], rounds);
    DeliveredIsArrived(reader, decodes, c, [], rounds);
    QuietCallsAreGood(reader, c, OpsOf(reader, decodes, c, [], rounds));
    ScheduleIsCutRun(reader, decodes, c, [], rounds);
  }
}
