/**
 Postgres messages are framed twice: by the kernel loop over the buffer of one sendto call
 (postgres/pg.bpf.c) and by the TLS parser over a record (tls/postgres.go).
 */
module PgFraming {
  import opened Common
  import Records

  const MAX_LOOP := 64
  const MAX_BUF_SIZE := 16384
  const TWO32 := 0x1_0000_0000

  datatype Msg = Msg(tag: byte, payload: bytes)

  /** Q, P, B, E, C, X */
  predicate Supported(tag: byte) {
    tag == 0x51 || tag == 0x50 || tag == 0x42 || tag == 0x45 || tag == 0x43 || tag == 0x58
  }

  /** Q, P, B, E */
  predicate Collected(tag: byte) {
    tag == 0x51 || tag == 0x50 || tag == 0x42 || tag == 0x45
  }

  // ---------- messages on the wire ----------

  /** The length field, which counts itself. */
  function LengthField(data: bytes): nat
    requires |data| >= 5
  {
    (data[1] as int) * 0x100_0000 + (data[2] as int) * 0x1_0000 + (data[3] as int) * 0x100 + data[4] as int
  }

  predicate Fits(m: Msg) {
    |m.payload| + 4 < TWO32
  }

  predicate AllFit(msgs: seq<Msg>) {
    forall m :: m in msgs ==> Fits(m)
  }

  function Header(tag: byte, n: nat): (h: bytes)
    requires n < TWO32
    ensures |h| == 5 && h[0] == tag && LengthField(h) == n
  {
    var a := n / 0x100;
    var b := a / 0x100;
    [tag, b / 0x100, b % 0x100, a % 0x100, n % 0x100]
  }

  function Encode(m: Msg): (w: bytes)
    requires Fits(m)
    ensures |w| == |m.payload| + 5 && w[0] == m.tag && LengthField(w) == |m.payload| + 4 && w[5..] == m.payload
  {
    Header(m.tag, |m.payload| + 4) + m.payload
  }

  function Wire(msgs: seq<Msg>): bytes
    requires AllFit(msgs)
  {
    if msgs == [] then [] else Encode(msgs[0]) + Wire(msgs[1..])
  }

  function Keep(f: byte -> bool, msgs: seq<Msg>): seq<Msg> {
    if msgs == [] then []
    else (if f(msgs[0].tag) then [msgs[0]] else []) + Keep(f, msgs[1..])
  }

  lemma KeepCons(f: byte -> bool, m: Msg, msgs: seq<Msg>)
    ensures Keep(f, [m] + msgs) == (if f(m.tag) then [m] else []) + Keep(f, msgs)
  {
    assert ([m] + msgs)[1..] == msgs;
  }

  lemma {:induction false} KeepSplit(f: byte -> bool, a: seq<Msg>, b: seq<Msg>)
    ensures Keep(f, a + b) == Keep(f, a) + Keep(f, b)
  {
    if a == [] {
      assert a + b == b;
      assert [] + Keep(f, b) == Keep(f, b);
    } else {
      assert a + b == [a[0]] + (a[1..] + b);
      KeepCons(f, a[0], a[1..] + b);
      KeepSplit(f, a[1..], b);
      Assoc(if f(a[0].tag) then [a[0]] else [], Keep(f, a[1..]), Keep(f, b));
    }
  }

  // ---------- the TLS parser ----------

  /** The message at the front of a record, if it is there in full. */
  function Statement(stream: bytes): (m: Option<Msg>)
    ensures m.Some? ==> |m.value.payload| + 5 <= |stream|
  {
    if |stream| < 5 then None else
      var length := LengthField(stream);
      if length < 4 || length > |stream| - 1 then None else Some(Msg(stream[0], stream[5..length + 1]))
  }

  /** What follows holds of any way to read the message at the front ... */
  type Reader = bytes -> Option<Msg>

  /** ... that takes no more than there is, and is not changed by what arrives later. */
  ghost predicate Stable(read: Reader) {
    forall s, more :: Stays(read, s, more)
  }

  predicate Stays(read: Reader, s: bytes, more: bytes) {
    read(s).Some? ==> |read(s).value.payload| + 5 <= |s| && read(s + more) == read(s)
  }

  lemma StatementIsStable()
    ensures Stable(Statement)
  {
    forall s, more ensures Stays(Statement, s, more) {
      if Statement(s).Some? {
        var n := |Statement(s).value.payload| + 5;
        assert (s + more)[5..n] == s[5..n];
      }
    }
  }

  /** The rest of a stream after its first message. */
  function Past(m: Msg, stream: bytes): (rest: bytes)
    ensures |stream| >= |m.payload| + 5 ==> |rest| < |stream|
  {
    if |m.payload| + 5 <= |stream| then stream[|m.payload| + 5..] else []
  }

  /** Everything a stream holds, and what is left of it. */
  function Statements(read: Reader, stream: bytes): seq<Msg>
    decreases |stream|
  {
    var m := read(stream);
    if m.None? || stream == [] then [] else [m.value] + Statements(read, Past(m.value, stream))
  }

  function Leftover(read: Reader, stream: bytes): bytes
    decreases |stream|
  {
    var m := read(stream);
    if m.None? || stream == [] then stream else Leftover(read, Past(m.value, stream))
  }

  lemma StatementOfEncoded(m: Msg, rest: bytes)
    requires Fits(m)
    ensures Statement(Encode(m) + rest) == Some(m) && Past(m, Encode(m) + rest) == rest
  {
    var w := Encode(m);
    assert (w + rest)[5..|w|] == w[5..];
  }

  predicate ReadsBack(read: Reader, m: Msg, rest: bytes)
    requires Fits(m)
  {
    read([]).None? && read(Encode(m) + rest) == Some(m) && Past(m, Encode(m) + rest) == rest
  }

  ghost predicate AlwaysReadsBack(read: Reader) {
    forall m, rest | Fits(m) :: ReadsBack(read, m, rest)
  }

  lemma StatementReadsBack()
    ensures AlwaysReadsBack(Statement)
  {
    forall m, rest | Fits(m) ensures ReadsBack(Statement, m, rest) {
      StatementOfEncoded(m, rest);
    }
  }

  /** Reading back what was written, messages of any size. */
  lemma {:induction false} StatementsOfWire(read: Reader, msgs: seq<Msg>)
    requires AllFit(msgs) && AlwaysReadsBack(read)
    ensures Statements(read, Wire(msgs)) == msgs && Leftover(read, Wire(msgs)) == []
  {
    if msgs != [] {
      var m, rest := msgs[0], Wire(msgs[1..]);
      assert Fits(m) && ReadsBack(read, m, rest);
      StatementsCons(read, Wire(msgs), m);
      StatementsOfWire(read, msgs[1..]);
      assert msgs == [m] + msgs[1..];
    }
  }

  lemma StatementsCons(read: Reader, stream: bytes, m: Msg)
    requires stream != [] && read(stream) == Some(m)
    ensures Statements(read, stream) == [m] + Statements(read, Past(m, stream))
    ensures Leftover(read, stream) == Leftover(read, Past(m, stream))
  {
  }

  lemma PastStays(m: Msg, stream: bytes, more: bytes)
    requires |m.payload| + 5 <= |stream|
    ensures Past(m, stream + more) == Past(m, stream) + more
  {
  }

  /** What arrives later does not change what was read. */
  lemma {:induction false} StatementsGrow(read: Reader, stream: bytes, more: bytes)
    requires Stable(read)
    ensures Statements(read, stream + more) ==
            Statements(read, stream) + Statements(read, Leftover(read, stream) + more)
    decreases |stream|
  {
    assert Stays(read, stream, more);
    if read(stream).None? || stream == [] {
      assert [] + Statements(read, stream + more) == Statements(read, stream + more);
    } else {
      var m := read(stream).value;
      var rest := Past(m, stream);
      PastStays(m, stream, more);
      StatementsCons(read, stream, m);
      StatementsCons(read, stream + more, m);
      StatementsGrow(read, rest, more);
      Assoc([m], Statements(read, rest), Statements(read, Leftover(read, rest) + more));
    }
  }

  function PostgresParser(read: Reader): Records.Parser<(), Msg> {
    Records.Parser((_, stream) => ParseRequest(read(stream)), _ => true)
  }

  function ParseRequest(m: Option<Msg>): Records.Parsed<(), Msg> {
    if m.None? then Records.ParseOk((), Records.Nothing, 0, true)
    else Records.ParseOk((), if Collected(m.value.tag) then Records.Item(m.value) else Records.Nothing,
                         |m.value.payload| + 5, true)
  }

  /** One visit of the parse loop to a record. */
  function VisitTo(read: Reader, stream: bytes): Records.Tick<(), Msg> {
    Records.TickOf(PostgresParser(read), (), stream)
  }

  /** The collected messages of a stream. */
  function Wanted(read: Reader, stream: bytes): seq<Msg> {
    Keep(Collected, Statements(read, stream))
  }

  lemma VisitUnfolds(read: Reader, stream: bytes)
    ensures var m := read(stream);
            VisitTo(read, stream) ==
              if m.None? || stream == [] then Records.Tick((), stream, [])
              else if Collected(m.value.tag) then Records.Tick((), Past(m.value, stream), [Records.Emit(m.value)])
              else VisitTo(read, Past(m.value, stream))
  {
    var m := read(stream);
    assert PostgresParser(read).parse((), stream) == ParseRequest(m);
    if m.Some? && stream != [] {
      var n := |m.value.payload| + 5;
      assert stream[Min(n, |stream|)..] == Past(m.value, stream);
      var t := VisitTo(read, Past(m.value, stream));
      assert Records.Then([], t) == t by {
        assert [] + t.effects == t.effects;
      }
    }
  }

  /** A visit emits the next collected message, if a whole one is there, and loses nothing. */
  lemma {:induction false} VisitEmitsNext(read: Reader, stream: bytes)
    ensures var t, all := VisitTo(read, stream), Wanted(read, stream);
            && t.effects == (if all == [] then [] else [Records.Emit(all[0])])
            && Wanted(read, t.rest) == (if all == [] then [] else all[1..])
            && Leftover(read, t.rest) == Leftover(read, stream)
    decreases |stream|
  {
    VisitUnfolds(read, stream);
    if read(stream).Some? && stream != [] {
      var m := read(stream).value;
      var rest := Past(m, stream);
      WantedCons(read, stream, m);
      if !Collected(m.tag) {
        VisitEmitsNext(read, rest);
      }
    }
  }

  lemma WantedCons(read: Reader, stream: bytes, m: Msg)
    requires stream != [] && read(stream) == Some(m)
    ensures Wanted(read, stream) ==
              if Collected(m.tag) then [m] + Wanted(read, Past(m, stream)) else Wanted(read, Past(m, stream))
    ensures Leftover(read, stream) == Leftover(read, Past(m, stream))
  {
    var rest := Past(m, stream);
    StatementsCons(read, stream, m);
    KeepCons(Collected, m, Statements(read, rest));
    assert [] + Wanted(read, rest) == Wanted(read, rest);
  }

  function Emitted(effects: seq<Records.Effect<Msg>>): seq<Msg> {
    if effects == [] then []
    else (if effects[0].Emit? then [effects[0].m] else []) + Emitted(effects[1..])
  }

  datatype Run = Run(emitted: seq<Msg>, rest: bytes)

  function TlsRun(read: Reader, buf: bytes, rounds: seq<Round>): Run
    decreases |rounds|
  {
    if rounds == [] then Run([], buf) else
      match rounds[0]
      case Arrive(data) => TlsRun(read, buf + data, rounds[1..])
      case Visit =>
        var r := TlsRun(read, VisitTo(read, buf).rest, rounds[1..]);
        r.(emitted := Emitted(VisitTo(read, buf).effects) + r.emitted)
  }

  /**
   Whatever the pieces and the visits, what was emitted and what is still waiting are
   together the collected messages of everything that arrived.
   */
  lemma {:induction false} TlsRunKeepsMessages(read: Reader, buf: bytes, rounds: seq<Round>)
    requires Stable(read)
    ensures var r := TlsRun(read, buf, rounds);
            r.emitted + Wanted(read, r.rest) == Wanted(read, buf + Arrived(rounds))
    decreases |rounds|
  {
    if rounds == [] {
      assert buf + [] == buf;
    } else if rounds[0].Arrive? {
      assert buf + Arrived(rounds) == buf + rounds[0].data + Arrived(rounds[1..]);
      TlsRunKeepsMessages(read, buf + rounds[0].data, rounds[1..]);
    } else {
      assert Arrived(rounds) == Arrived(rounds[1..]);
      TlsRunKeepsMessages(read, VisitTo(read, buf).rest, rounds[1..]);
      VisitThenMore(read, buf, Arrived(rounds[1..]));
    }
  }

  lemma WantedGrow(read: Reader, stream: bytes, more: bytes)
    requires Stable(read)
    ensures Wanted(read, stream + more) == Wanted(read, stream) + Wanted(read, Leftover(read, stream) + more)
  {
    StatementsGrow(read, stream, more);
    KeepSplit(Collected, Statements(read, stream), Statements(read, Leftover(read, stream) + more));
  }

  lemma VisitThenMore(read: Reader, buf: bytes, later: bytes)
    requires Stable(read)
    ensures var t := VisitTo(read, buf);
            Emitted(t.effects) + Wanted(read, t.rest + later) == Wanted(read, buf + later)
  {
    var t, all := VisitTo(read, buf), Wanted(read, buf);
    VisitEmitsNext(read, buf);
    Regroup(t.effects, all, Wanted(read, t.rest), Wanted(read, Leftover(read, buf) + later));
    WantedGrow(read, buf, later);
    WantedGrow(read, t.rest, later);
  }

  lemma Regroup(effects: seq<Records.Effect<Msg>>, all: seq<Msg>, left: seq<Msg>, more: seq<Msg>)
    requires effects == if all == [] then [] else [Records.Emit(all[0])]
    requires left == if all == [] then [] else all[1..]
    ensures Emitted(effects) + (left + more) == all + more
  {
  }

  // ---------- the kernel loop ----------

  /** The payload length the loop uses: unsigned 32-bit arithmetic, then clamped. */
  function KernelLength(data: bytes): (n: nat)
    requires |data| >= 5
    ensures n <= MAX_BUF_SIZE
  {
    var field := LengthField(data);
    Min(if field >= 4 then field - 4 else field - 4 + TWO32, MAX_BUF_SIZE)
  }

  datatype Turn = Stop | Turn(m: Msg, rest: bytes)

  /** The message at the front of the buffer as the loop sees it. */
  function OneTurn(data: bytes): Turn {
    if |data| < 5 then Stop else
      var n := KernelLength(data);
      if n == 0 || n + 5 > |data| then Stop else Turn(Msg(data[0], data[5..n + 5]), data[n + 5..])
  }

  /** The events of at most `loops` turns; `room(k)` says whether reservation number `k` succeeds. */
  function KernelEvents(turn: bytes -> Turn, room: nat -> bool, sent: nat, loops: nat, data: bytes): seq<Msg>
    decreases loops, 0
  {
    if loops == 0 then [] else
      match turn(data)
      case Stop => []
      case Turn(m, rest) => Report(turn, room, sent, loops - 1, m, rest)
  }

  function Report(turn: bytes -> Turn, room: nat -> bool, sent: nat, loops: nat, m: Msg, rest: bytes): seq<Msg>
    decreases loops, 1
  {
    if !Supported(m.tag) then KernelEvents(turn, room, sent, loops, rest)
    else if !room(sent) then []
    else [m] + KernelEvents(turn, room, sent + 1, loops, rest)
  }

  /** Read one header and the payload behind it. */
  method ReadMessage(buf: bytes) returns (t: Turn)
    ensures t == OneTurn(buf)
  {
    if |buf| < 5 {
      return Stop;
    }
    var tag, length := buf[0], KernelLength(buf);
    if length == 0 {
      return Stop;
    }
    if length + 5 > |buf| {
      return Stop;
    }
    return Turn(Msg(tag, buf[5..length + 5]), buf[length + 5..]);
  }

  lemma TurnStops(turn: bytes -> Turn, room: nat -> bool, events: seq<Msg>, loops: nat, data: bytes)
    requires loops == 0 || turn(data).Stop?
    ensures events + KernelEvents(turn, room, |events|, loops, data) == events
  {
  }

  lemma TurnTaken(
    turn: bytes -> Turn, room: nat -> bool, want: seq<Msg>, events: seq<Msg>, loops: nat, data: bytes, t: Turn)
    requires loops > 0 && t == turn(data) && t.Turn? && want == events + KernelEvents(turn, room, |events|, loops, data)
    ensures want == if !Supported(t.m.tag) then events + KernelEvents(turn, room, |events|, loops - 1, t.rest)
                    else if !room(|events|) then events
                    else (events + [t.m]) + KernelEvents(turn, room, |events| + 1, loops - 1, t.rest)
  {
    Assoc(events, [t.m], KernelEvents(turn, room, |events| + 1, loops - 1, t.rest));
  }

  method SendTo(room: nat -> bool, data: bytes) returns (events: seq<Msg>)
    ensures events == KernelEvents(OneTurn, room, 0, MAX_LOOP, data)
  {
    events := MessageLoop(room, MAX_LOOP, data);
  }

  /** One turn of the loop: `want` is what the whole loop reports, `left` how many turns it has. */
  method LoopTurn(room: nat -> bool, ghost want: seq<Msg>, ghost left: nat, buf: bytes, before: seq<Msg>)
    returns (goesOn: bool, rest: bytes, events: seq<Msg>)
    requires left > 0 && want == before + KernelEvents(OneTurn, room, |before|, left, buf)
    ensures if goesOn then want == events + KernelEvents(OneTurn, room, |events|, left - 1, rest) else want == events
  {
    var t := ReadMessage(buf);
    goesOn, rest, events := false, buf, before;
    if t.Stop? {
      TurnStops(OneTurn, room, before, left, buf);
      return;
    }
    TurnTaken(OneTurn, room, want, before, left, buf, t);
    if Supported(t.m.tag) {
      if !room(|before|) {
        return;
      }
      events := before + [t.m];
    }
    goesOn, rest := true, t.rest;
  }

  /** The loop of a sendto call; `buf` is what is left of the buffer. */
  method MessageLoop(room: nat -> bool, limit: nat, data: bytes) returns (events: seq<Msg>)
    ensures events == KernelEvents(OneTurn, room, 0, limit, data)
  {
    var buf, loops := data, 0;
    events := [];
    ghost var want := KernelEvents(OneTurn, room, 0, limit, data);
    while loops < limit
      invariant 0 <= loops <= limit
      invariant want == events + KernelEvents(OneTurn, room, |events|, limit - loops, buf)
    {
      var goesOn;
      goesOn, buf, events := LoopTurn(room, want, limit - loops, buf, events);
      if !goesOn {
        return;
      }
      loops := loops + 1;
    }
    TurnStops(OneTurn, room, events, 0, buf);
  }

  /** The messages the loop gets to: none after an empty payload, none past the turns it has. */
  function Reached(msgs: seq<Msg>, loops: nat): seq<Msg> {
    if loops == 0 || msgs == [] || msgs[0].payload == [] then [] else [msgs[0]] + Reached(msgs[1..], loops - 1)
  }

  /** The events that find room: those before the first failed reservation. */
  function Accepted(room: nat -> bool, sent: nat, msgs: seq<Msg>): seq<Msg>
    decreases msgs
  {
    if msgs == [] || !room(sent) then [] else [msgs[0]] + Accepted(room, sent + 1, msgs[1..])
  }

  predicate Small(m: Msg) {
    |m.payload| <= MAX_BUF_SIZE
  }

  predicate AllSmall(msgs: seq<Msg>)
    ensures AllSmall(msgs) ==> AllFit(msgs)
  {
    forall m :: m in msgs ==> Small(m)
  }

  lemma TurnAtMessage(m: Msg, rest: bytes)
    requires Fits(m)
    ensures var n := Min(|m.payload|, MAX_BUF_SIZE);
            OneTurn(Encode(m) + rest) ==
              if m.payload == [] then Stop else Turn(Msg(m.tag, m.payload[..n]), m.payload[n..] + rest)
  {
    var w, n := Encode(m), Min(|m.payload|, MAX_BUF_SIZE);
    assert (w + rest)[5..] == m.payload + rest;
    assert (w + rest)[5..n + 5] == m.payload[..n];
    assert (w + rest)[n + 5..] == m.payload[n..] + rest;
  }

  lemma AcceptedCons(room: nat -> bool, sent: nat, m: Msg, reached: seq<Msg>)
    ensures Accepted(room, sent, Keep(Supported, [m] + reached)) ==
              if !Supported(m.tag) then Accepted(room, sent, Keep(Supported, reached))
              else if !room(sent) then []
              else [m] + Accepted(room, sent + 1, Keep(Supported, reached))
  {
    KeepCons(Supported, m, reached);
    var kept := Keep(Supported, reached);
    assert [] + kept == kept && ([m] + kept)[1..] == kept;
  }

  /** The turn reads whole messages of up to 16384 bytes, and stops at empty ones and at the end. */
  predicate ReadsWhole(turn: bytes -> Turn, m: Msg, rest: bytes)
    requires Fits(m)
  {
    turn([]).Stop? && (Small(m) ==> turn(Encode(m) + rest) == if m.payload == [] then Stop else Turn(m, rest))
  }

  lemma OneTurnReadsWhole(m: Msg, rest: bytes)
    requires Fits(m)
    ensures ReadsWhole(OneTurn, m, rest)
  {
    TurnAtMessage(m, rest);
    assert m.payload[..|m.payload|] == m.payload && m.payload[|m.payload|..] + rest == rest;
  }

  ghost predicate AlwaysReadsWhole(turn: bytes -> Turn) {
    forall m, rest | Fits(m) :: ReadsWhole(turn, m, rest)
  }

  lemma OneTurnAlwaysReadsWhole()
    ensures AlwaysReadsWhole(OneTurn)
  {
    forall m, rest | Fits(m) ensures ReadsWhole(OneTurn, m, rest) {
      OneTurnReadsWhole(m, rest);
    }
  }

  lemma KernelStep(
    turn: bytes -> Turn, room: nat -> bool, sent: nat, loops: nat, data: bytes, m: Msg, rest: bytes, reached: seq<Msg>)
    requires loops > 0 && turn(data) == Turn(m, rest)
    requires var next := if Supported(m.tag) then sent + 1 else sent;
             KernelEvents(turn, room, next, loops - 1, rest) == Accepted(room, next, Keep(Supported, reached))
    ensures KernelEvents(turn, room, sent, loops, data) == Accepted(room, sent, Keep(Supported, [m] + reached))
  {
    AcceptedCons(room, sent, m, reached);
  }

  /** The loop reports, with exact payloads, the supported messages it gets to, if none of those is long. */
  lemma {:induction false} KernelOnWire(turn: bytes -> Turn, room: nat -> bool, sent: nat, loops: nat, msgs: seq<Msg>)
    requires AllFit(msgs) && AllSmall(Reached(msgs, loops)) && AlwaysReadsWhole(turn)
    ensures KernelEvents(turn, room, sent, loops, Wire(msgs)) ==
            Accepted(room, sent, Keep(Supported, Reached(msgs, loops)))
    decreases loops
  {
    if msgs == [] {
      assert ReadsWhole(turn, Msg(0, []), []);
    } else if loops > 0 {
      var m, reached := msgs[0], Reached(msgs[1..], loops - 1);
      assert Fits(m) && ReadsWhole(turn, m, Wire(msgs[1..]));
      if m.payload != [] {
        SmallCons(m, reached);
        KernelOnWire(turn, room, if Supported(m.tag) then sent + 1 else sent, loops - 1, msgs[1..]);
        KernelStep(turn, room, sent, loops, Wire(msgs), m, Wire(msgs[1..]), reached);
      }
    }
  }

  lemma SmallCons(m: Msg, msgs: seq<Msg>)
    ensures AllSmall([m] + msgs) <==> Small(m) && AllSmall(msgs)
  {
    assert forall x :: x in [m] + msgs <==> x == m || x in msgs;
  }

  // ---------- agreement ----------

  lemma {:induction false} ReachedIsPrefix(msgs: seq<Msg>, loops: nat)
    ensures Reached(msgs, loops) <= msgs
    ensures (forall m :: m in msgs ==> m.payload != []) && |msgs| <= loops ==> Reached(msgs, loops) == msgs
    decreases loops
  {
    if loops > 0 && msgs != [] && msgs[0].payload != [] {
      ReachedIsPrefix(msgs[1..], loops - 1);
      assert msgs == [msgs[0]] + msgs[1..];
    }
  }

  lemma {:induction false} AllAccepted(room: nat -> bool, sent: nat, msgs: seq<Msg>)
    requires forall k :: room(k)
    ensures Accepted(room, sent, msgs) == msgs
    decreases msgs
  {
    if msgs != [] {
      AllAccepted(room, sent + 1, msgs[1..]);
    }
  }

  lemma {:induction false} CollectedAmongSupported(msgs: seq<Msg>)
    ensures Keep(Collected, Keep(Supported, msgs)) == Keep(Collected, msgs)
  {
    if msgs != [] {
      CollectedAmongSupported(msgs[1..]);
      KeepSplit(Collected, if Supported(msgs[0].tag) then [msgs[0]] else [], Keep(Supported, msgs[1..]));
    }
  }

  lemma {:induction false} KeptNone(f: byte -> bool, msgs: seq<Msg>)
    ensures Keep(f, msgs) == [] <==> forall m :: m in msgs ==> !f(m.tag)
  {
    if msgs != [] {
      KeptNone(f, msgs[1..]);
      assert msgs == [msgs[0]] + msgs[1..];
    }
  }

  lemma SameIffNone(a: seq<Msg>, b: seq<Msg>)
    ensures a == a + b <==> b == []
  {
    assert b == [] ==> a + b == a;
  }

  /** The two framers collect the same statements from one buffer. */
  predicate Agree(room: nat -> bool, limit: nat, msgs: seq<Msg>)
    requires AllFit(msgs)
  {
    Keep(Collected, KernelEvents(OneTurn, room, 0, limit, Wire(msgs))) == Wanted(Statement, Wire(msgs))
  }

  lemma KernelCollects(room: nat -> bool, limit: nat, msgs: seq<Msg>)
    requires AllFit(msgs) && AllSmall(Reached(msgs, limit)) && forall k :: room(k)
    ensures KernelEvents(OneTurn, room, 0, limit, Wire(msgs)) == Keep(Supported, Reached(msgs, limit))
    ensures Keep(Collected, KernelEvents(OneTurn, room, 0, limit, Wire(msgs))) == Keep(Collected, Reached(msgs, limit))
  {
    OneTurnAlwaysReadsWhole();
    KernelOnWire(OneTurn, room, 0, limit, msgs);
    AllAccepted(room, 0, Keep(Supported, Reached(msgs, limit)));
    CollectedAmongSupported(Reached(msgs, limit));
  }

  lemma TlsCollects(msgs: seq<Msg>)
    requires AllFit(msgs)
    ensures Wanted(Statement, Wire(msgs)) == Keep(Collected, msgs)
  {
    StatementReadsBack();
    StatementsOfWire(Statement, msgs);
  }

  lemma PrefixKeepsAllIff(reached: seq<Msg>, msgs: seq<Msg>)
    requires reached <= msgs
    ensures Keep(Collected, reached) == Keep(Collected, msgs) <==>
              forall m :: m in msgs[|reached|..] ==> !Collected(m.tag)
  {
    var others := msgs[|reached|..];
    assert msgs == reached + others;
    KeepSplit(Collected, reached, others);
    KeptNone(Collected, others);
    SameIffNone(Keep(Collected, reached), Keep(Collected, others));
  }

  /**
   When the loop gets to no message over 16384 bytes, the framers agree exactly if no
   statement lies after an empty message or past the limit.
   */
  lemma AgreeOnSmallIff(room: nat -> bool, limit: nat, msgs: seq<Msg>)
    requires AllFit(msgs) && AllSmall(Reached(msgs, limit)) && forall k :: room(k)
    ensures |Reached(msgs, limit)| <= |msgs|
    ensures Agree(room, limit, msgs) <==>
              forall m :: m in msgs[|Reached(msgs, limit)|..] ==> !Collected(m.tag)
  {
    KernelCollects(room, limit, msgs);
    TlsCollects(msgs);
    ReachedIsPrefix(msgs, limit);
    PrefixKeepsAllIff(Reached(msgs, limit), msgs);
  }

  // ---------- the first long message ----------

  lemma {:induction false} WireSplit(a: seq<Msg>, b: seq<Msg>)
    requires AllFit(a) && AllFit(b)
    ensures AllFit(a + b) && Wire(a + b) == Wire(a) + Wire(b)
  {
    if a == [] {
      assert a + b == b && [] + Wire(b) == Wire(b);
    } else {
      assert (a + b)[1..] == a[1..] + b;
      WireSplit(a[1..], b);
      Assoc(Encode(a[0]), Wire(a[1..]), Wire(b));
    }
  }

  predicate Readable(msgs: seq<Msg>)
    ensures Readable(msgs) ==> AllFit(msgs)
  {
    forall m :: m in msgs ==> 0 < |m.payload| <= MAX_BUF_SIZE
  }

  /** Turn after turn, the loop reads these messages and is left with `rest`. */
  predicate Feeds(turn: bytes -> Turn, data: bytes, msgs: seq<Msg>, rest: bytes)
    decreases |msgs|
  {
    if msgs == [] then data == rest
    else turn(data).Turn? && turn(data).m == msgs[0] && Feeds(turn, turn(data).rest, msgs[1..], rest)
  }

  lemma {:induction false} WireFeeds(turn: bytes -> Turn, msgs: seq<Msg>, data: bytes)
    requires Readable(msgs) && AlwaysReadsWhole(turn)
    ensures Feeds(turn, Wire(msgs) + data, msgs, data)
    decreases |msgs|
  {
    if msgs == [] {
      assert Wire(msgs) + data == data;
    } else {
      var later := Wire(msgs[1..]) + data;
      TurnTakesWhole(turn, msgs[0], later);
      Assoc(Encode(msgs[0]), Wire(msgs[1..]), data);
      WireFeeds(turn, msgs[1..], data);
    }
  }

  /** Messages read like that come out first, and then what the loop makes of the rest. */
  lemma {:induction false} KernelReadsFirst(
    turn: bytes -> Turn, room: nat -> bool, sent: nat, loops: nat, data: bytes, msgs: seq<Msg>, rest: bytes)
    requires Feeds(turn, data, msgs, rest) && |msgs| <= loops && forall k :: room(k)
    ensures var first := Keep(Supported, msgs);
            KernelEvents(turn, room, sent, loops, data) ==
            first + KernelEvents(turn, room, sent + |first|, loops - |msgs|, rest)
    decreases |msgs|
  {
    if msgs == [] {
      assert [] + KernelEvents(turn, room, sent, loops, rest) == KernelEvents(turn, room, sent, loops, rest);
    } else {
      var m, later := msgs[0], turn(data).rest;
      var own, first := if Supported(m.tag) then [m] else [], Keep(Supported, msgs[1..]);
      KernelTakes(turn, room, sent, loops, data, m, later);
      KernelReadsFirst(turn, room, sent + |own|, loops - 1, later, msgs[1..], rest);
      Assoc(own, first, KernelEvents(turn, room, sent + |own| + |first|, loops - |msgs|, rest));
    }
  }

  lemma TurnTakesWhole(turn: bytes -> Turn, m: Msg, rest: bytes)
    requires AlwaysReadsWhole(turn) && 0 < |m.payload| <= MAX_BUF_SIZE
    ensures Fits(m) && turn(Encode(m) + rest) == Turn(m, rest)
  {
    assert Fits(m) && ReadsWhole(turn, m, rest);
  }

  /** One turn that reads a message and finds room. */
  lemma KernelTakes(turn: bytes -> Turn, room: nat -> bool, sent: nat, loops: nat, data: bytes, m: Msg, rest: bytes)
    requires loops > 0 && turn(data) == Turn(m, rest) && room(sent)
    ensures var own := if Supported(m.tag) then [m] else [];
            KernelEvents(turn, room, sent, loops, data) == own + KernelEvents(turn, room, sent + |own|, loops - 1, rest)
  {
    assert [] + KernelEvents(turn, room, sent, loops - 1, rest) == KernelEvents(turn, room, sent, loops - 1, rest);
  }

  /** A long payload is cut, and the loop then takes the rest of that payload for messages. */
  lemma LongPayloadIsMisread(room: nat -> bool, sent: nat, loops: nat, m: Msg, rest: bytes)
    requires Fits(m) && !Small(m) && loops > 0 && room(sent)
    ensures var inside := m.payload[MAX_BUF_SIZE..] + rest;
            KernelEvents(OneTurn, room, sent, loops, Encode(m) + rest) ==
              if Supported(m.tag)
              then [Msg(m.tag, m.payload[..MAX_BUF_SIZE])] + KernelEvents(OneTurn, room, sent + 1, loops - 1, inside)
              else KernelEvents(OneTurn, room, sent, loops - 1, inside)
  {
    TurnAtMessage(m, rest);
  }

  /** What the loop makes of the bytes behind the first 16384 of a long payload. */
  function Inside(room: nat -> bool, limit: nat, before: seq<Msg>, m: Msg, rest: seq<Msg>): seq<Msg>
    requires AllFit(rest) && !Small(m) && |before| < limit
  {
    var sent := |Keep(Supported, before)| + if Supported(m.tag) then 1 else 0;
    KernelEvents(OneTurn, room, sent, limit - |before| - 1, m.payload[MAX_BUF_SIZE..] + Wire(rest))
  }

  lemma KernelAtLong(room: nat -> bool, limit: nat, before: seq<Msg>, m: Msg, rest: seq<Msg>)
    requires Readable(before) && AllFit(rest) && Fits(m) && !Small(m) && |before| < limit && forall k :: room(k)
    ensures AllFit(before + ([m] + rest))
    ensures KernelEvents(OneTurn, room, 0, limit, Wire(before + ([m] + rest))) ==
              Keep(Supported, before) +
              ((if Supported(m.tag) then [Msg(m.tag, m.payload[..MAX_BUF_SIZE])] else []) +
               Inside(room, limit, before, m, rest))
  {
    LongOnWire(before, m, rest);
    KernelPast(room, limit, before, Encode(m) + Wire(rest));
    KernelInside(room, limit, before, m, rest);
  }

  lemma KernelPast(room: nat -> bool, limit: nat, before: seq<Msg>, tail: bytes)
    requires Readable(before) && |before| <= limit && forall k :: room(k)
    ensures var first := Keep(Supported, before);
            KernelEvents(OneTurn, room, 0, limit, Wire(before) + tail) ==
            first + KernelEvents(OneTurn, room, |first|, limit - |before|, tail)
  {
    OneTurnAlwaysReadsWhole();
    WireFeeds(OneTurn, before, tail);
    KernelReadsFirst(OneTurn, room, 0, limit, Wire(before) + tail, before, tail);
  }

  lemma LongOnWire(before: seq<Msg>, m: Msg, rest: seq<Msg>)
    requires AllFit(before) && AllFit(rest) && Fits(m)
    ensures AllFit(before + ([m] + rest)) && Wire(before + ([m] + rest)) == Wire(before) + (Encode(m) + Wire(rest))
  {
    assert AllFit([m] + rest) && ([m] + rest)[1..] == rest;
    WireSplit(before, [m] + rest);
  }

  lemma KernelInside(room: nat -> bool, limit: nat, before: seq<Msg>, m: Msg, rest: seq<Msg>)
    requires AllFit(rest) && Fits(m) && !Small(m) && |before| < limit && forall k :: room(k)
    ensures KernelEvents(OneTurn, room, |Keep(Supported, before)|, limit - |before|, Encode(m) + Wire(rest)) ==
              (if Supported(m.tag) then [Msg(m.tag, m.payload[..MAX_BUF_SIZE])] else []) +
              Inside(room, limit, before, m, rest)
  {
    LongPayloadIsMisread(room, |Keep(Supported, before)|, limit - |before|, m, Wire(rest));
    var inside := Inside(room, limit, before, m, rest);
    assert [] + inside == inside;
  }

  /**
   The exact condition at the first long message the loop gets to.  If it is a statement the
   framers differ, whatever follows; if not, they agree exactly when what the loop finds from
   the 16385th byte of that payload on is what the TLS parser finds behind the message.
   */
  lemma AgreeAtLongIff(room: nat -> bool, limit: nat, before: seq<Msg>, m: Msg, rest: seq<Msg>)
    requires Readable(before) && AllFit(rest) && Fits(m) && !Small(m) && |before| < limit && forall k :: room(k)
    ensures AllFit(before + ([m] + rest))
    ensures Agree(room, limit, before + ([m] + rest)) <==>
              !Collected(m.tag) && Keep(Collected, Inside(room, limit, before, m, rest)) == Keep(Collected, rest)
  {
    KernelAtLong(room, limit, before, m, rest);
    TlsCollects(before + ([m] + rest));
    var cut := if Supported(m.tag) then [Msg(m.tag, m.payload[..MAX_BUF_SIZE])] else [];
    var inside := Inside(room, limit, before, m, rest);
    KeepSplit(Collected, Keep(Supported, before), cut + inside);
    CollectedAmongSupported(before);
    KeepSplit(Collected, before, [m] + rest);
    SamePrefixIff(Keep(Collected, before), Keep(Collected, cut + inside), Keep(Collected, [m] + rest));
    CutDiffersIff(m, inside, rest);
  }

  lemma SamePrefixIff(a: seq<Msg>, b: seq<Msg>, c: seq<Msg>)
    ensures a + b == a + c <==> b == c
  {
    if a + b == a + c {
      assert b == (a + b)[|a|..] == (a + c)[|a|..] == c;
    }
  }

  lemma CutDiffersIff(m: Msg, inside: seq<Msg>, rest: seq<Msg>)
    requires !Small(m)
    ensures var cut := if Supported(m.tag) then [Msg(m.tag, m.payload[..MAX_BUF_SIZE])] else [];
            Keep(Collected, cut + inside) == Keep(Collected, [m] + rest) <==>
              !Collected(m.tag) && Keep(Collected, inside) == Keep(Collected, rest)
  {
    var short := Msg(m.tag, m.payload[..MAX_BUF_SIZE]);
    KeepCons(Collected, m, rest);
    assert [] + inside == inside;
    assert [] + Keep(Collected, inside) == Keep(Collected, inside);
    assert [] + Keep(Collected, rest) == Keep(Collected, rest);
    if Supported(m.tag) {
      KeepCons(Collected, short, inside);
      if Collected(m.tag) {
        var a, b := [short] + Keep(Collected, inside), [m] + Keep(Collected, rest);
        assert a[0] != b[0];
      }
    }
  }

  /** The messages before the first long one, of those the loop gets to. */
  lemma {:induction false} FirstLong(msgs: seq<Msg>, limit: nat) returns (n: nat)
    requires AllFit(msgs) && !AllSmall(Reached(msgs, limit))
    ensures n < |Reached(msgs, limit)| && n < |msgs| && n < limit && Readable(msgs[..n]) && !Small(msgs[n])
    decreases limit
  {
    var m, reached := msgs[0], Reached(msgs[1..], limit - 1);
    SmallCons(m, reached);
    if !Small(m) {
      n := 0;
    } else {
      var k := FirstLong(msgs[1..], limit - 1);
      n := k + 1;
      assert msgs[..n] == [m] + msgs[1..][..k];
    }
  }

  /** Message number `n` is the first long one, and the framers agree on its terms. */
  ghost predicate AgreesAtLong(room: nat -> bool, limit: nat, msgs: seq<Msg>, n: nat)
    requires AllFit(msgs) && n < |msgs| && n < limit && !Small(msgs[n])
  {
    var before, m, rest := msgs[..n], msgs[n], msgs[n + 1..];
    && AllFit(rest) && !Collected(m.tag)
    && Keep(Collected, Inside(room, limit, before, m, rest)) == Keep(Collected, rest)
  }

  /** Agreement on every buffer of messages, of whatever sizes. */
  lemma FramersAgreeIff(room: nat -> bool, limit: nat, msgs: seq<Msg>) returns (n: nat)
    requires AllFit(msgs) && forall k :: room(k)
    ensures var reached := Reached(msgs, limit);
            if AllSmall(reached) then
              |reached| <= |msgs| &&
              (Agree(room, limit, msgs) <==> forall m :: m in msgs[|reached|..] ==> !Collected(m.tag))
            else
              && n < |msgs| && n < limit && Readable(msgs[..n]) && !Small(msgs[n])
              && (Agree(room, limit, msgs) <==> AgreesAtLong(room, limit, msgs, n))
  {
    n := 0;
    if AllSmall(Reached(msgs, limit)) {
      AgreeOnSmallIff(room, limit, msgs);
    } else {
      n := FirstLong(msgs, limit);
      SplitAt(msgs, n);
      AgreeAtLongIff(room, limit, msgs[..n], msgs[n], msgs[n + 1..]);
    }
  }

  lemma SplitAt(msgs: seq<Msg>, n: nat)
    requires AllFit(msgs) && n < |msgs|
    ensures msgs == msgs[..n] + ([msgs[n]] + msgs[n + 1..]) && Fits(msgs[n]) && AllFit(msgs[n + 1..])
  {
  }

  /** On messages of 1 to 16384 bytes, no more than the limit, they always agree. */
  lemma FramersAgree(room: nat -> bool, limit: nat, msgs: seq<Msg>)
    requires Readable(msgs) && |msgs| <= limit && forall k :: room(k)
    ensures KernelEvents(OneTurn, room, 0, limit, Wire(msgs)) == Keep(Supported, msgs)
    ensures Agree(room, limit, msgs)
  {
    ReachedIsPrefix(msgs, limit);
    assert AllSmall(Reached(msgs, limit));
    KernelCollects(room, limit, msgs);
    TlsCollects(msgs);
  }

  /** The loop of the program runs 64 times. */
  lemma FramersAgreeUpTo64(room: nat -> bool, msgs: seq<Msg>)
    requires Readable(msgs) && |msgs| <= 64 && forall k :: room(k)
    ensures Agree(room, MAX_LOOP, msgs)
  {
    FramersAgree(room, MAX_LOOP, msgs);
  }

  /** So do the kernel, given one buffer, and the TLS record, given the same bytes in any pieces. */
  lemma FramersAgreeOverTime(room: nat -> bool, limit: nat, msgs: seq<Msg>, rounds: seq<Round>)
    requires Readable(msgs) && |msgs| <= limit && forall k :: room(k)
    requires Arrived(rounds) == Wire(msgs)
    ensures var r := TlsRun(Statement, [], rounds);
            r.emitted + Wanted(Statement, r.rest) == Keep(Collected, KernelEvents(OneTurn, room, 0, limit, Wire(msgs)))
  {
    FramersAgree(room, limit, msgs);
    TlsRunOnWire(msgs, rounds);
  }

  /** What the TLS record emits and still holds are the collected messages. */
  lemma TlsRunOnWire(msgs: seq<Msg>, rounds: seq<Round>)
    requires AllFit(msgs) && Arrived(rounds) == Wire(msgs)
    ensures var r := TlsRun(Statement, [], rounds);
            r.emitted + Wanted(Statement, r.rest) == Wanted(Statement, Wire(msgs)) == Keep(Collected, msgs)
  {
    StatementIsStable();
    TlsRunFromEmpty(Statement, rounds);
    TlsCollects(msgs);
  }

  lemma TlsRunFromEmpty(read: Reader, rounds: seq<Round>)
    requires Stable(read)
    ensures var r := TlsRun(read, [], rounds);
            r.emitted + Wanted(read, r.rest) == Wanted(read, Arrived(rounds))
  {
    TlsRunKeepsMessages(read, [], rounds);
    assert [] + Arrived(rounds) == Arrived(rounds);
  }

  /** A Sync message has no payload: the query after it in one buffer is lost in the kernel only. */
  lemma SyncHidesQuery(room: nat -> bool, limit: nat, query: bytes)
    requires (forall k :: room(k)) && 0 < |query| <= MAX_BUF_SIZE
    ensures var msgs := [Msg(0x53, []), Msg(0x51, query)];
            && KernelEvents(OneTurn, room, 0, limit, Wire(msgs)) == []
            && Wanted(Statement, Wire(msgs)) == [Msg(0x51, query)]
  {
    var sync, ask := Msg(0x53, []), Msg(0x51, query);
    KernelCollects(room, limit, [sync, ask]);
    TlsCollects([sync, ask]);
    assert [sync, ask] == [sync] + [ask] && [ask] == [ask] + [];
    KeepCons(Collected, sync, [ask]);
    KeepCons(Collected, ask, []);
  }
}
