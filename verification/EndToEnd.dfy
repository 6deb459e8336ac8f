/**
 From SSL calls to messages: the plaintext that calls on any connections give away is captured,
 added to the store, judged at the first visit of the parse loop that finds any of it, and
 parsed.  A run here is what one connection and direction goes through.
 */
module EndToEnd {
  import opened Common
  import opened Capture
  import opened Store
  import opened Detect
  import Sessions
  import Http2Framing
  import Http2
  import Http2Cuts
  import Http2Streams
  import Http2Ticks
  import PgFraming
  import Chunked

  // ---------- what a record goes through ----------

  /** The store receives events and is visited by the parse loop. */
  datatype Activity = Receive(e: SslEvent) | Parse

  function EventsOf(activities: seq<Activity>): seq<SslEvent> {
    if activities == [] then [] else
      (if activities[0].Receive? then [activities[0].e] else []) + EventsOf(activities[1..])
  }

  function RoundOf(a: Activity, key: Sessions.SslKey, rw: nat): seq<Round> {
    match a
    case Parse => [Visit]
    case Receive(e) => if e.key == key && e.rw == rw then [Arrive(e.data)] else []
  }

  /** Arrivals and visits, as the record of one connection and direction sees them. */
  function RoundsOf(activities: seq<Activity>, key: Sessions.SslKey, rw: nat): seq<Round> {
    if activities == [] then [] else RoundOf(activities[0], key, rw) + RoundsOf(activities[1..], key, rw)
  }

  /** The events of one connection and direction. */
  function Only(events: seq<SslEvent>, key: Sessions.SslKey, rw: nat): seq<SslEvent> {
    if events == [] then [] else
      (if events[0].key == key && events[0].rw == rw then [events[0]] else []) + Only(events[1..], key, rw)
  }

  /**
   The store receives the events of the SSL calls of one connection and direction, in order.
   Visits, and the events of other connections, come in between anywhere, also inside a call.
   */
  predicate Delivered(activities: seq<Activity>, calls: seq<Call>, key: Sessions.SslKey, rw: nat) {
    Only(EventsOf(activities), key, rw) == Only(AllEvents(calls), key, rw)
  }

  lemma {:induction false} OnlyKeepsData(events: seq<SslEvent>, key: Sessions.SslKey, rw: nat)
    ensures DataFor(Only(events, key, rw), key, rw) == DataFor(events, key, rw)
  {
    if events != [] {
      var e, later := events[0], Only(events[1..], key, rw);
      OnlyKeepsData(events[1..], key, rw);
      if e.key == key && e.rw == rw {
        assert ([e] + later)[1..] == later;
      } else {
        assert [] + later == later;
      }
    }
  }

  lemma {:induction false} ArrivedIsReceived(activities: seq<Activity>, key: Sessions.SslKey, rw: nat)
    ensures Arrived(RoundsOf(activities, key, rw)) == DataFor(EventsOf(activities), key, rw)
  {
    if activities != [] {
      var a, later := activities[0], activities[1..];
      var rounds, events := RoundsOf(later, key, rw), EventsOf(later);
      ArrivedIsReceived(later, key, rw);
      if a.Receive? {
        assert ([a.e] + events)[1..] == events;
        if a.e.key == key && a.e.rw == rw {
          assert ([Arrive(a.e.data)] + rounds)[1..] == rounds;
        } else {
          assert [] + rounds == rounds;
        }
      } else {
        assert ([Visit] + rounds)[1..] == rounds && [] + events == events;
      }
    }
  }

  /** What arrives at the record is what was captured. */
  lemma ArrivedIsCaptured(activities: seq<Activity>, calls: seq<Call>, key: Sessions.SslKey, rw: nat)
    requires Delivered(activities, calls, key, rw)
    ensures Arrived(RoundsOf(activities, key, rw)) == CapturedOf(calls, key, rw)
  {
    ArrivedIsReceived(activities, key, rw);
    OnlyKeepsData(EventsOf(activities), key, rw);
    OnlyKeepsData(AllEvents(calls), key, rw);
    EventsCarryCaptured(calls, key, rw);
  }

  /** The rounds of a record bring it what the store, receiving the same events, holds for it. */
  lemma RoundsAreTheStore(activities: seq<Activity>, key: Sessions.SslKey, rw: nat)
    requires rw == RW_WRITE || rw == RW_READ
    ensures Arrived(RoundsOf(activities, key, rw)) ==
            Of(Side(AddAll(Streams(map[], map[]), EventsOf(activities)), rw), key)
  {
    var data := DataFor(EventsOf(activities), key, rw);
    ArrivedIsReceived(activities, key, rw);
    RecordsGetTheirOwn(Streams(map[], map[]), EventsOf(activities), key, rw);
    assert [] + data == data;
  }

  // ---------- the first visit ----------

  /** The bytes there at the first visit that finds any, or all of them if there is no such visit. */
  function Seen(buf: bytes, rounds: seq<Round>): bytes
    decreases |rounds|
  {
    if rounds == [] || (rounds[0].Visit? && buf != []) then buf
    else if rounds[0].Arrive? then Seen(buf + rounds[0].data, rounds[1..])
    else Seen(buf, rounds[1..])
  }

  predicate Visited(buf: bytes, rounds: seq<Round>)
    decreases |rounds|
  {
    if rounds == [] then false
    else if rounds[0].Arrive? then Visited(buf + rounds[0].data, rounds[1..])
    else buf != [] || Visited(buf, rounds[1..])
  }

  lemma {:induction false} SeenIsPrefix(buf: bytes, rounds: seq<Round>)
    ensures buf <= Seen(buf, rounds) <= buf + Arrived(rounds)
    ensures Seen(buf, rounds) == [] ==> buf + Arrived(rounds) == []
    decreases |rounds|
  {
    if rounds != [] {
      if rounds[0].Arrive? {
        SeenIsPrefix(buf + rounds[0].data, rounds[1..]);
        Assoc(buf, rounds[0].data, Arrived(rounds[1..]));
      } else {
        SeenIsPrefix(buf, rounds[1..]);
        assert Arrived(rounds) == Arrived(rounds[1..]);
      }
    }
  }

  /** The first visit finds a part of what was captured, from the front. */
  lemma SeenIsCaptured(activities: seq<Activity>, calls: seq<Call>, key: Sessions.SslKey, rw: nat) returns (n: nat)
    requires Delivered(activities, calls, key, rw)
    ensures var w, seen := CapturedOf(calls, key, rw), Seen([], RoundsOf(activities, key, rw));
            n == |seen| <= |w| && seen == w[..n] && (w != [] ==> n > 0)
  {
    var rounds := RoundsOf(activities, key, rw);
    ArrivedIsCaptured(activities, calls, key, rw);
    SeenIsPrefix([], rounds);
    assert [] + Arrived(rounds) == Arrived(rounds);
    n := |Seen([], rounds)|;
  }

  // ---------- HTTP/2 ----------

  /** Bytes that never reach the HTTP/2 parser, or what that parser makes of them. */
  datatype Http2Result<S> = NotHttp2(verdict: Verdict) | AsHttp2(outcome: Http2Cuts.Outcome<S>)

  /** `cached` is what is known of the connection already, from its other direction. */
  function Http2Run<S>(
    reader: Http2Framing.Reader<S>, decodes: Http2Framing.Message -> bool, cached: Option<Kind>,
    c: Http2Framing.Conn<S>, buf: bytes, rounds: seq<Round>): Http2Result<S>
    decreases |rounds|
  {
    if rounds == [] || (rounds[0].Visit? && buf != []) then
      if Judge(cached, buf) == Known(Http2, 0) then AsHttp2(Http2Ticks.Schedule(reader, decodes, c, buf, rounds))
      else NotHttp2(Judge(cached, buf))
    else if rounds[0].Arrive? then Http2Run(reader, decodes, cached, c, buf + rounds[0].data, rounds[1..])
    else Http2Run(reader, decodes, cached, c, buf, rounds[1..])
  }

  lemma IdleVisit<S>(
    reader: Http2Framing.Reader<S>, decodes: Http2Framing.Message -> bool, c: Http2Framing.Conn<S>, rounds: seq<Round>)
    requires rounds != [] && rounds[0].Visit?
    ensures Http2Ticks.Schedule(reader, decodes, c, [], rounds) ==
            Http2Ticks.Schedule(reader, decodes, c, [], rounds[1..])
  {
    var o := Http2Ticks.Schedule(reader, decodes, c, [], rounds[1..]);
    Http2Ticks.NoEffect(o);
    Http2Cuts.PrependNone(o);
  }

  lemma {:induction false} Http2RunIs<S>(
    reader: Http2Framing.Reader<S>, decodes: Http2Framing.Message -> bool, cached: Option<Kind>,
    c: Http2Framing.Conn<S>, buf: bytes, rounds: seq<Round>)
    ensures Http2Run(reader, decodes, cached, c, buf, rounds) ==
            if Judge(cached, Seen(buf, rounds)) == Known(Http2, 0)
            then AsHttp2(Http2Ticks.Schedule(reader, decodes, c, buf, rounds))
            else NotHttp2(Judge(cached, Seen(buf, rounds)))
    decreases |rounds|
  {
    if rounds != [] {
      if rounds[0].Arrive? {
        Http2RunIs(reader, decodes, cached, c, buf + rounds[0].data, rounds[1..]);
      } else if buf == [] {
        Http2RunIs(reader, decodes, cached, c, buf, rounds[1..]);
        IdleVisit(reader, decodes, c, rounds);
      }
    }
  }

  /**
   The messages are those of one pass over what was captured, if and only if the first visit
   takes the bytes for HTTP/2 and no visit makes a harmful cut.
   */
  lemma Http2EndToEnd<S>(
    reader: Http2Framing.Reader<S>, decodes: Http2Framing.Message -> bool, cached: Option<Kind>,
    c: Http2Framing.Conn<S>, activities: seq<Activity>, calls: seq<Call>, key: Sessions.SslKey, rw: nat)
    requires Http2Framing.Sound(reader) && (rw == RW_WRITE || rw == RW_READ)
    requires Delivered(activities, calls, key, rw)
    requires var data := CapturedOf(calls, key, rw);
             Http2Cuts.WellStarted(reader, c, data) && !Http2Cuts.OnePass(reader, c, data).end.Broken?
    ensures var rounds, data := RoundsOf(activities, key, rw), CapturedOf(calls, key, rw);
            Http2Run(reader, decodes, cached, c, [], rounds) == AsHttp2(Http2Cuts.OnePass(reader, c, data)) <==>
              && Judge(cached, Seen([], rounds)) == Known(Http2, 0)
              && Http2Cuts.GoodCuts(reader, c, [], Http2Ticks.OpsOf(reader, decodes, c, [], rounds))
  {
    var rounds := RoundsOf(activities, key, rw);
    ArrivedIsCaptured(activities, calls, key, rw);
    Http2RunIs(reader, decodes, cached, c, [], rounds);
    Http2Ticks.ScheduleIndependenceIff(reader, decodes, c, rounds);
  }

  /**
   From SSL calls to streams: when the first visit takes the bytes for HTTP/2 and no visit finds a
   header block open, a connection whose streams all end yields exactly one message for each, with
   its own headers and body, however the streams are interleaved and the bytes cut.
   */
  lemma StreamsEndToEnd<D(!new)>(
    lib: Http2.Lib<D>, decoder: D, decodes: Http2Framing.Message -> bool, cached: Option<Kind>,
    activities: seq<Activity>, calls: seq<Call>, key: Sessions.SslKey, rw: nat)
    requires Delivered(activities, calls, key, rw) && (rw == RW_WRITE || rw == RW_READ)
    requires var reader, c, data := Http2.ReaderOf(lib), Http2Streams.Fresh(decoder), CapturedOf(calls, key, rw);
             && Http2Cuts.WellStarted(reader, c, data) && !Http2Cuts.OnePass(reader, c, data).end.Broken?
             && var frames := Http2Streams.FramesIn(reader, data[Http2Framing.Skip(false, data)..]);
             forall sid :: sid in Http2Streams.Touched(frames) ==> Http2Streams.EndsWell(frames, sid)
    requires var rounds := RoundsOf(activities, key, rw);
             && Judge(cached, Seen([], rounds)) == Known(Http2, 0)
             && Http2Ticks.QuietVisits(Http2.ReaderOf(lib), false, [], rounds)
    ensures var reader, c, data := Http2.ReaderOf(lib), Http2Streams.Fresh(decoder), CapturedOf(calls, key, rw);
            var r := Http2Run(reader, decodes, cached, c, [], RoundsOf(activities, key, rw));
            && r.AsHttp2?
            && Http2Streams.OncePerStream(
                 lib, c.st, Http2Streams.FramesIn(reader, data[Http2Framing.Skip(false, data)..]), r.outcome)
  {
    var reader, c, rounds := Http2.ReaderOf(lib), Http2Streams.Fresh(decoder), RoundsOf(activities, key, rw);
    Http2.ReaderIsSound(lib);
    ArrivedIsCaptured(activities, calls, key, rw);
    Http2RunIs(reader, decodes, cached, c, [], rounds);
    Http2Ticks.QuietScheduleIsOnePass(reader, decodes, c, rounds);
    Http2Streams.OnePassYieldsStreams(lib, decoder, CapturedOf(calls, key, rw));
  }

  /** For a client's bytes, the first of these says: the first visit finds the whole preface. */
  lemma ClientSeenIff(activities: seq<Activity>, calls: seq<Call>, key: Sessions.SslKey, rw: nat)
    requires Delivered(activities, calls, key, rw) && (rw == RW_WRITE || rw == RW_READ)
    requires Http2Framing.PREFACE <= CapturedOf(calls, key, rw)
    ensures var seen := Seen([], RoundsOf(activities, key, rw));
            && (Judge(None, seen) == Known(Http2, 0) <==> |seen| >= |Http2Framing.PREFACE|)
            && (|seen| < |Http2Framing.PREFACE| ==> Judge(None, seen) == Known(Http1, 0))
  {
    var n := SeenIsCaptured(activities, calls, key, rw);
    PrefaceDetectedIff(CapturedOf(calls, key, rw), n);
  }

  /** For a server's, which start with SETTINGS: it finds nine bytes; fewer are thrown away. */
  lemma ServerSeenIff(activities: seq<Activity>, calls: seq<Call>, key: Sessions.SslKey, rw: nat)
    requires Delivered(activities, calls, key, rw) && (rw == RW_WRITE || rw == RW_READ)
    requires var w := CapturedOf(calls, key, rw);
             && |w| >= Http2Framing.FRAME_HEADER_LEN && w[0] == 0
             && var h := Http2Framing.ParseHeader(w); h.kind == 0x4 && h.sid == 0 && FlagsKnown(h.flags)
    ensures var seen := Seen([], RoundsOf(activities, key, rw));
            Judge(None, seen) == if |seen| >= Http2Framing.FRAME_HEADER_LEN then Known(Http2, 0) else Unknown
  {
    var n := SeenIsCaptured(activities, calls, key, rw);
    SettingsDetectedIff(CapturedOf(calls, key, rw), n);
  }

  // ---------- Postgres ----------

  datatype PgResult = Unvisited | NotPostgres(verdict: Verdict) | AsPostgres(run: PgFraming.Run)

  function PgRun(
    read: PgFraming.Reader, cached: Option<Kind>, buf: bytes, rounds: seq<Round>): PgResult
    decreases |rounds|
  {
    if rounds == [] then Unvisited
    else if rounds[0].Arrive? then PgRun(read, cached, buf + rounds[0].data, rounds[1..])
    else if buf == [] then PgRun(read, cached, buf, rounds[1..])
    else
      var v := Judge(cached, buf);
      if v.Known? && v.kind == Postgres then
        AsPostgres(PgFraming.TlsRun(read, buf[Min(v.trim, |buf|)..], rounds))
      else NotPostgres(v)
  }

  /** What was emitted, and what is waiting. */
  function Told(read: PgFraming.Reader, r: PgFraming.Run): seq<PgFraming.Msg> {
    r.emitted + PgFraming.Wanted(read, r.rest)
  }

  lemma PgVisit(read: PgFraming.Reader, buf: bytes, trim: nat, rounds: seq<Round>)
    requires PgFraming.Stable(read) && trim <= |buf|
    ensures Told(read, PgFraming.TlsRun(read, buf[trim..], rounds)) ==
            PgFraming.Wanted(read, (buf + Arrived(rounds))[trim..])
  {
    PgFraming.TlsRunKeepsMessages(read, buf[trim..], rounds);
    DropLeft(buf, Arrived(rounds), trim);
  }

  /** Once a visit has taken the bytes for Postgres, its parser gets all of them but those cut off then. */
  lemma {:induction false} PgRunIs(
    read: PgFraming.Reader, cached: Option<Kind>, buf: bytes, rounds: seq<Round>)
    requires PgFraming.Stable(read) && Visited(buf, rounds)
    ensures var v, data := Judge(cached, Seen(buf, rounds)), buf + Arrived(rounds);
            var r := PgRun(read, cached, buf, rounds);
            if v.Known? && v.kind == Postgres then
              r.AsPostgres? && Told(read, r.run) == PgFraming.Wanted(read, data[Min(v.trim, |data|)..])
            else r == NotPostgres(v)
    decreases |rounds|
  {
    if rounds[0].Arrive? {
      Assoc(buf, rounds[0].data, Arrived(rounds[1..]));
      PgRunIs(read, cached, buf + rounds[0].data, rounds[1..]);
    } else if buf == [] {
      assert Arrived(rounds) == Arrived(rounds[1..]);
      PgRunIs(read, cached, buf, rounds[1..]);
    } else {
      var v := Judge(cached, buf);
      if v.Known? && v.kind == Postgres {
        PgVisit(read, buf, v.trim, rounds);
      }
    }
  }

  /** The messages of the connection come out, or wait, all and in order. */
  predicate Right(r: PgResult, msgs: seq<PgFraming.Msg>) {
    r.AsPostgres? && Told(PgFraming.Statement, r.run) == PgFraming.Keep(PgFraming.Collected, msgs)
  }

  /** What is left of the startup message when the first visit found `n` bytes. */
  function StartupTail(startup: bytes, n: nat): bytes {
    startup[Min(|startup|, n)..]
  }

  lemma PgJudged(
    activities: seq<Activity>, calls: seq<Call>, key: Sessions.SslKey, rw: nat, startup: bytes, wire: bytes)
    requires Delivered(activities, calls, key, rw)
    requires var w := CapturedOf(calls, key, rw);
             w == startup + wire && StartsPostgres(w) && StartupLength(w) == |startup| >= 8
    ensures var n := |Seen([], RoundsOf(activities, key, rw))|;
            Judge(None, Seen([], RoundsOf(activities, key, rw))) ==
            if n > 8 then Known(Postgres, Min(|startup|, n)) else Unknown
  {
    var n := SeenIsCaptured(activities, calls, key, rw);
    StartupDetectedIff(CapturedOf(calls, key, rw), n);
  }

  lemma TailOf(startup: bytes, wire: bytes, n: nat)
    ensures var k, w := Min(|startup|, n), startup + wire;
            w[Min(k, |w|)..] == StartupTail(startup, n) + wire
  {
    DropLeft(startup, wire, Min(|startup|, n));
  }

  lemma PgTail(read: PgFraming.Reader, rounds: seq<Round>, startup: bytes, wire: bytes, n: nat)
    requires PgFraming.Stable(read) && Visited([], rounds) && Arrived(rounds) == startup + wire
    requires Judge(None, Seen([], rounds)) == Known(Postgres, Min(|startup|, n))
    ensures var r := PgRun(read, None, [], rounds);
            r.AsPostgres? && Told(read, r.run) == PgFraming.Wanted(read, StartupTail(startup, n) + wire)
  {
    PgRunIs(read, None, [], rounds);
    EmptyLeft(startup + wire);
    TailOf(startup, wire, n);
  }

  lemma EmptyLeft(data: bytes)
    ensures [] + data == data
  {
  }

  /** What the parser is given: the statements, behind what the first visit left of the startup message. */
  lemma PgGiven(
    read: PgFraming.Reader, activities: seq<Activity>, calls: seq<Call>, key: Sessions.SslKey, rw: nat,
    startup: bytes, wire: bytes)
    requires PgFraming.Stable(read) && Visited([], RoundsOf(activities, key, rw))
    requires Delivered(activities, calls, key, rw)
    requires var w := CapturedOf(calls, key, rw);
             w == startup + wire && StartsPostgres(w) && StartupLength(w) == |startup| >= 8
    ensures var rounds := RoundsOf(activities, key, rw);
            var r, n := PgRun(read, None, [], rounds), |Seen([], rounds)|;
            if n > 8 then
              r.AsPostgres? && Told(read, r.run) == PgFraming.Wanted(read, StartupTail(startup, n) + wire)
            else r == NotPostgres(Unknown)
  {
    var rounds := RoundsOf(activities, key, rw);
    ArrivedIsCaptured(activities, calls, key, rw);
    PgJudged(activities, calls, key, rw, startup, wire);
    if |Seen([], rounds)| > 8 {
      PgTail(read, rounds, startup, wire, |Seen([], rounds)|);
    } else {
      PgRunIs(read, None, [], rounds);
    }
  }

  /**
   A client's connection that starts with a startup message.  The messages behind it come out
   right if and only if the first visit finds more than eight bytes and the tail it leaves of the
   startup message does not change what is read.  It leaves no tail exactly when it finds all of
   it, and then they are right.
   */
  lemma PostgresEndToEnd(
    activities: seq<Activity>, calls: seq<Call>, key: Sessions.SslKey, startup: bytes, msgs: seq<PgFraming.Msg>)
    requires PgFraming.AllFit(msgs) && Visited([], RoundsOf(activities, key, RW_WRITE))
    requires Delivered(activities, calls, key, RW_WRITE)
    requires var w := CapturedOf(calls, key, RW_WRITE);
             w == startup + PgFraming.Wire(msgs) && StartsPostgres(w) && StartupLength(w) == |startup| >= 8
    ensures var rounds := RoundsOf(activities, key, RW_WRITE);
            var r, n := PgRun(PgFraming.Statement, None, [], rounds), |Seen([], rounds)|;
            var tail := StartupTail(startup, n);
            && (Right(r, msgs) <==>
                  n > 8 && PgFraming.Wanted(PgFraming.Statement, tail + PgFraming.Wire(msgs)) ==
                           PgFraming.Keep(PgFraming.Collected, msgs))
            && (tail == [] <==> n >= |startup|)
            && (n > 8 && tail == [] ==> Right(r, msgs))
            && (n <= 8 ==> r == NotPostgres(Unknown))
  {
    var wire := PgFraming.Wire(msgs);
    PgFraming.StatementIsStable();
    PgGiven(PgFraming.Statement, activities, calls, key, RW_WRITE, startup, wire);
    PgFraming.TlsCollects(msgs);
    assert [] + wire == wire;
  }

  /**
   What a tail does, by how it reads: `whole` are the messages it spells out, `part` is the rest
   of it.  Nothing left over: right exactly when no statement is spelled out.  Something left over
   that stays unreadable with everything behind it: nothing of the connection is ever read.
   */
  lemma TailDecides(
    activities: seq<Activity>, calls: seq<Call>, key: Sessions.SslKey, startup: bytes, msgs: seq<PgFraming.Msg>)
    requires PgFraming.AllFit(msgs) && Visited([], RoundsOf(activities, key, RW_WRITE))
    requires Delivered(activities, calls, key, RW_WRITE)
    requires var w := CapturedOf(calls, key, RW_WRITE);
             w == startup + PgFraming.Wire(msgs) && StartsPostgres(w) && StartupLength(w) == |startup| >= 8
    requires |Seen([], RoundsOf(activities, key, RW_WRITE))| > 8
    ensures var rounds := RoundsOf(activities, key, RW_WRITE);
            var r, tail := PgRun(PgFraming.Statement, None, [], rounds), StartupTail(startup, |Seen([], rounds)|);
            var whole := PgFraming.Keep(PgFraming.Collected, PgFraming.Statements(PgFraming.Statement, tail));
            var part := PgFraming.Leftover(PgFraming.Statement, tail);
            && r.AsPostgres?
            && (part == [] ==> (Right(r, msgs) <==> whole == []))
            && (PgFraming.Statement(part + PgFraming.Wire(msgs)).None? ==> Told(PgFraming.Statement, r.run) == whole)
  {
    var rounds, wire := RoundsOf(activities, key, RW_WRITE), PgFraming.Wire(msgs);
    PgFraming.StatementIsStable();
    PgGiven(PgFraming.Statement, activities, calls, key, RW_WRITE, startup, wire);
    TailReading(PgFraming.Statement, StartupTail(startup, |Seen([], rounds)|), wire);
    PgFraming.TlsCollects(msgs);
    NothingInFront(PgFraming.Keep(PgFraming.Collected,
      PgFraming.Statements(PgFraming.Statement, StartupTail(startup, |Seen([], rounds)|))),
      PgFraming.Keep(PgFraming.Collected, msgs));
  }

  lemma NothingInFront(a: seq<PgFraming.Msg>, b: seq<PgFraming.Msg>)
    ensures a + b == b <==> a == []
  {
    if a == [] {
      assert a + b == b;
    } else {
      assert |a + b| != |b|;
    }
  }

  lemma TailReading(read: PgFraming.Reader, tail: bytes, wire: bytes)
    requires PgFraming.Stable(read)
    ensures var whole := PgFraming.Keep(PgFraming.Collected, PgFraming.Statements(read, tail));
            var part := PgFraming.Leftover(read, tail);
            && PgFraming.Wanted(read, tail + wire) == whole + PgFraming.Wanted(read, part + wire)
            && (part == [] ==> PgFraming.Wanted(read, tail + wire) == whole + PgFraming.Wanted(read, wire))
            && (read(part + wire).None? ==> PgFraming.Wanted(read, tail + wire) == whole)
  {
    var whole := PgFraming.Keep(PgFraming.Collected, PgFraming.Statements(read, tail));
    var part := PgFraming.Leftover(read, tail);
    PgFraming.StatementsGrow(read, tail, wire);
    PgFraming.KeepSplit(PgFraming.Collected, PgFraming.Statements(read, tail), PgFraming.Statements(read, part + wire));
    assert [] + wire == wire && whole + [] == whole;
  }

  lemma ZeroByteHides(msgs: seq<PgFraming.Msg>)
    requires PgFraming.AllFit(msgs) && msgs != []
    requires |PgFraming.Wire(msgs)| < (msgs[0].tag as int) * 0x100_0000
    ensures PgFraming.Statement([0]).None? && PgFraming.Statement([0] + PgFraming.Wire(msgs)).None?
  {
    var data := [0] + PgFraming.Wire(msgs);
    assert data[1] == PgFraming.Wire(msgs)[0] == PgFraming.Encode(msgs[0])[0] == msgs[0].tag;
    assert PgFraming.LengthField(data) >= (msgs[0].tag as int) * 0x100_0000;
  }

  /**
   The failing family: a startup message ends in a zero byte, and a first visit that finds all of
   it but that byte loses every statement of the connection, however many there are and whenever
   they arrive, up to a gigabyte of them.
   */
  lemma OneByteShortLosesAll(
    activities: seq<Activity>, calls: seq<Call>, key: Sessions.SslKey, startup: bytes, msgs: seq<PgFraming.Msg>)
    requires PgFraming.AllFit(msgs) && Visited([], RoundsOf(activities, key, RW_WRITE))
    requires Delivered(activities, calls, key, RW_WRITE)
    requires var w := CapturedOf(calls, key, RW_WRITE);
             w == startup + PgFraming.Wire(msgs) && StartsPostgres(w) && StartupLength(w) == |startup| > 9
    requires startup[|startup| - 1] == 0 && |Seen([], RoundsOf(activities, key, RW_WRITE))| == |startup| - 1
    requires msgs != [] && |PgFraming.Wire(msgs)| < (msgs[0].tag as int) * 0x100_0000
    ensures var r := PgRun(PgFraming.Statement, None, [], RoundsOf(activities, key, RW_WRITE));
            && r.AsPostgres? && Told(PgFraming.Statement, r.run) == []
            && (Right(r, msgs) <==> PgFraming.Keep(PgFraming.Collected, msgs) == [])
  {
    TailDecides(activities, calls, key, startup, msgs);
    assert StartupTail(startup, |startup| - 1) == [0];
    ZeroByteHides(msgs);
  }

  // ---------- HTTP/1 ----------

  datatype Http1Result = NotVisited | NotHttp1(verdict: Verdict) | AsHttp1(outcome: Chunked.Outcome)

  /** The responses of a connection, in the bytes it reads. */
  function Http1Run(
    read: Chunked.Library, cached: Option<Kind>, buf: bytes, rounds: seq<Round>): Http1Result
    decreases |rounds|
  {
    if rounds == [] then NotVisited
    else if rounds[0].Arrive? then Http1Run(read, cached, buf + rounds[0].data, rounds[1..])
    else if buf == [] then Http1Run(read, cached, buf, rounds[1..])
    else
      var v := Judge(cached, buf);
      if v == Known(Http1, 0) then AsHttp1(Chunked.ResponseRun(Chunked.ParseStream, read, None, buf, rounds))
      else NotHttp1(v)
  }

  lemma {:induction false} Http1RunIs(
    read: Chunked.Library, cached: Option<Kind>, buf: bytes, rounds: seq<Round>)
    requires Visited(buf, rounds)
    ensures var v := Judge(cached, Seen(buf, rounds));
            Http1Run(read, cached, buf, rounds) ==
            if v == Known(Http1, 0) then AsHttp1(Chunked.ResponseRun(Chunked.ParseStream, read, None, buf, rounds))
            else NotHttp1(v)
    decreases |rounds|
  {
    if rounds[0].Arrive? {
      Http1RunIs(read, cached, buf + rounds[0].data, rounds[1..]);
    } else if buf == [] {
      Http1RunIs(read, cached, buf, rounds[1..]);
      assert Chunked.ResponseVisit(Chunked.ParseStream, read, None, []).effects == [];
    }
  }

  /**
   A chunked response, from its status line on, in the bytes a connection reads: it is always
   taken for HTTP/1, and is lost, emitted with its exact body or awaited as the positions of the
   visits say.
   */
  lemma ChunkedEndToEnd(
    read: Chunked.Library, cached: Option<Kind>, head: bytes, ps: seq<Chunked.Piece>,
    activities: seq<Activity>, calls: seq<Call>, key: Sessions.SslKey)
    requires Chunked.IsHead(read, head) && RESPONSE_PREFIX <= head
    requires Chunked.AllGood(ps) && Chunked.Addressable(Chunked.Wire(ps))
    requires Delivered(activities, calls, key, RW_READ)
    requires CapturedOf(calls, key, RW_READ) <= head + Chunked.Wire(ps)
    requires cached.None? || cached == Some(Http1)
    requires Visited([], RoundsOf(activities, key, RW_READ))
    ensures var rounds := RoundsOf(activities, key, RW_READ);
            var r := Http1Run(read, cached, [], rounds);
            r.AsHttp1? && Chunked.ResponseEndsAs(r.outcome, read, head, ps, 0, rounds)
  {
    var rounds, w := RoundsOf(activities, key, RW_READ), head + Chunked.Wire(ps);
    ArrivedIsCaptured(activities, calls, key, RW_READ);
    var n := SeenIsCaptured(activities, calls, key, RW_READ);
    Http1RunIs(read, cached, [], rounds);
    SeenIsSome([], rounds);
    assert w[..n] == CapturedOf(calls, key, RW_READ)[..n];
    ResponseDetected(w, n);
    assert w[..0] == [] && w[..0] + Arrived(rounds) == Arrived(rounds);
    Chunked.ResponseIff(read, head, ps, 0, rounds);
  }

  lemma {:induction false} SeenIsSome(buf: bytes, rounds: seq<Round>)
    requires Visited(buf, rounds)
    ensures Seen(buf, rounds) != []
    decreases |rounds|
  {
    if rounds[0].Arrive? {
      SeenIsSome(buf + rounds[0].data, rounds[1..]);
    } else if buf == [] {
      SeenIsSome(buf, rounds[1..]);
    }
  }
}
