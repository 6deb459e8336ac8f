/**
 HTTP/2 responses (tls/http2.go): the response side refuses a message whose ":status" is not a
 number, and with it the connection.  Its runs are those of a reader that fails there, so what
 holds for every reader holds for it, and it can be told from the runs of the common parser.
 */
module Http2Responses {
  import opened Common
  import opened Http2Framing
  import opened Http2
  import opened Http2Cuts
  import opened Http2Streams
  import Http2Ticks

  predicate StatusReads(number: string -> bool, headers: seq<HeaderField>) {
    forall h :: h in headers && h.name == ":status" ==> number(h.value)
  }

  /** A message the response side passes on. */
  predicate Passes(number: string -> bool, m: Message) {
    m.Complete? ==> StatusReads(number, m.headers)
  }

  function ResponseStep<D>(lib: Lib<D>, number: string -> bool, st: State<D>, f: Frame): StepResult<State<D>> {
    var r := Step(lib, st, f);
    if r.Next? && r.msg.Some? && !Passes(number, r.msg.value) then Fail else r
  }

  function ResponseReaderOf<D(!new)>(lib: Lib<D>, number: string -> bool): Reader<State<D>> {
    FrameReader(lib.strip, lib.early, (st: State<D>, f: Frame) => ResponseStep(lib, number, st, f))
  }

  lemma ResponseReaderIsSound<D(!new)>(lib: Lib<D>, number: string -> bool)
    ensures Sound(ResponseReaderOf(lib, number))
  {
    FrameReaderIsSound(lib.strip, lib.early, (st: State<D>, f: Frame) => ResponseStep(lib, number, st, f));
  }

  /** The messages before the first that does not pass. */
  function Passing(number: string -> bool, msgs: seq<Message>): seq<Message> {
    if msgs == [] || !Passes(number, msgs[0]) then [] else [msgs[0]] + Passing(number, msgs[1..])
  }

  function Checked<S>(number: string -> bool, o: Outcome<S>): Outcome<S> {
    if Passing(number, o.msgs) == o.msgs then o else Outcome(Passing(number, o.msgs), Broken)
  }

  lemma CheckedPrepend<S>(number: string -> bool, msg: Option<Message>, o: Outcome<S>)
    ensures Checked(number, Prepend(msg, o)) ==
            if msg.Some? && !Passes(number, msg.value) then Outcome([], Broken)
            else Prepend(msg, Checked(number, o))
  {
    if msg.Some? {
      var m, kept := msg.value, Passing(number, o.msgs);
      assert ([m] + o.msgs)[1..] == o.msgs && ([m] + kept)[1..] == kept;
      if Passes(number, m) {
        assert Passing(number, [m] + o.msgs) == [m] + kept;
        assert [m] + kept == [m] + o.msgs <==> kept == o.msgs;
      }
    } else {
      assert [] + o.msgs == o.msgs && [] + Passing(number, o.msgs) == Passing(number, o.msgs);
    }
  }

  lemma ResponseTurn<D(!new)>(lib: Lib<D>, number: string -> bool, st: State<D>, open: nat, data: bytes)
    ensures var t := OneFrame(ReaderOf(lib), st, open, data);
            OneFrame(ResponseReaderOf(lib, number), st, open, data) ==
            if t.Moved? && t.msg.Some? && !Passes(number, t.msg.value) then Error else t
  {
    FrameReaderReads(lib.strip, lib.early, (s: State<D>, f: Frame) => Step(lib, s, f), data);
    FrameReaderReads(lib.strip, lib.early, (s: State<D>, f: Frame) => ResponseStep(lib, number, s, f), data);
  }

  /** One pass of the response side: that of the common parser, broken off at the first message refused. */
  lemma {:induction false} ResponseFlow<D(!new)>(
    lib: Lib<D>, number: string -> bool, c: Conn<State<D>>, open: nat, data: bytes)
    ensures Flow(ResponseReaderOf(lib, number), c, open, data) == Checked(number, Flow(ReaderOf(lib), c, open, data))
    decreases |data|
  {
    var t := OneFrame(ReaderOf(lib), c.st, open, data);
    ResponseTurn(lib, number, c.st, open, data);
    if t.Moved? {
      var next, open', tail := c.(st := t.st), if t.msg.Some? then 0 else t.open, data[t.len..];
      ResponseFlow(lib, number, next, open', tail);
      CheckedPrepend(number, t.msg, Flow(ReaderOf(lib), next, open', tail));
    }
  }

  /** The same from the first byte of a connection on. */
  lemma ResponseOnePass<D(!new)>(lib: Lib<D>, number: string -> bool, c: Conn<State<D>>, data: bytes)
    ensures OnePass(ResponseReaderOf(lib, number), c, data) == Checked(number, OnePass(ReaderOf(lib), c, data))
  {
    ResponseFlow(lib, number, After(c, data, c.st), 0, data[Skip(c.prefaceSeen, data)..]);
  }

  /** Whatever the timing, the response side yields that, if and only if no visit makes a harmful cut. */
  lemma ResponseScheduleIff<D(!new)>(
    lib: Lib<D>, number: string -> bool, decodes: Message -> bool, decoder: D, rounds: seq<Round>)
    requires var reader, data := ResponseReaderOf(lib, number), Arrived(rounds);
             WellStarted(reader, Fresh(decoder), data) && !OnePass(reader, Fresh(decoder), data).end.Broken?
    ensures var reader := ResponseReaderOf(lib, number);
            Http2Ticks.Schedule(reader, decodes, Fresh(decoder), [], rounds) ==
              Checked(number, OnePass(ReaderOf(lib), Fresh(decoder), Arrived(rounds))) <==>
            GoodCuts(reader, Fresh(decoder), [], Http2Ticks.OpsOf(reader, decodes, Fresh(decoder), [], rounds))
  {
    ResponseReaderIsSound(lib, number);
    ResponseOnePass(lib, number, Fresh(decoder), Arrived(rounds));
    Http2Ticks.ScheduleIndependenceIff(ResponseReaderOf(lib, number), decodes, Fresh(decoder), rounds);
  }

  /**
   When no visit finds a header block open, that is so for all bytes, errors included: the
   messages before the first that is refused come out, and the connection is lost with that one.
   */
  lemma QuietResponses<D(!new)>(
    lib: Lib<D>, number: string -> bool, decodes: Message -> bool, decoder: D, rounds: seq<Round>)
    requires WellStarted(ResponseReaderOf(lib, number), Fresh(decoder), Arrived(rounds))
    requires Http2Ticks.QuietVisits(ResponseReaderOf(lib, number), false, [], rounds)
    ensures Http2Ticks.Schedule(ResponseReaderOf(lib, number), decodes, Fresh(decoder), [], rounds) ==
            Checked(number, OnePass(ReaderOf(lib), Fresh(decoder), Arrived(rounds)))
  {
    ResponseReaderIsSound(lib, number);
    ResponseOnePass(lib, number, Fresh(decoder), Arrived(rounds));
    Http2Ticks.QuietScheduleIsOnePass(ResponseReaderOf(lib, number), decodes, Fresh(decoder), rounds);
  }
}
