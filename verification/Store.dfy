/**
 The store of captured bytes (tls/protocol.go): one record per connection and direction, to
 which events are added, and the cache of what protocol a connection speaks.
 */
module Store {
  import opened Common
  import opened Capture
  import opened Detect
  import opened Records
  import opened Sessions

  const RW_WRITE := 2
  const RW_READ := 4

  /** What an SSL call gives away: written bytes are requests, read bytes are responses. */
  datatype SslEvent = SslEvent(key: SslKey, rw: nat, data: bytes)

  /** The bytes received for each connection, by direction. */
  datatype Streams = Streams(request: map<SslKey, bytes>, response: map<SslKey, bytes>)

  function Of(m: map<SslKey, bytes>, key: SslKey): bytes {
    if key in m then m[key] else []
  }

  function AddTo(s: Streams, e: SslEvent): Streams {
    if e.rw == RW_WRITE then s.(request := s.request[e.key := Of(s.request, e.key) + e.data])
    else if e.rw == RW_READ then s.(response := s.response[e.key := Of(s.response, e.key) + e.data])
    else s
  }

  function AddAll(s: Streams, events: seq<SslEvent>): Streams
    decreases |events|
  {
    if events == [] then s else AddAll(AddTo(s, events[0]), events[1..])
  }

  function Side(s: Streams, rw: nat): map<SslKey, bytes> {
    if rw == RW_WRITE then s.request else if rw == RW_READ then s.response else map[]
  }

  /** The bytes of the events of one connection and direction. */
  function DataFor(events: seq<SslEvent>, key: SslKey, rw: nat): bytes {
    if events == [] then [] else
      (if events[0].key == key && events[0].rw == rw then events[0].data else []) + DataFor(events[1..], key, rw)
  }

  /** However the events of connections and directions are mixed, each record gets its own, in order. */
  lemma {:induction false} RecordsGetTheirOwn(s: Streams, events: seq<SslEvent>, key: SslKey, rw: nat)
    requires rw == RW_WRITE || rw == RW_READ
    ensures Of(Side(AddAll(s, events), rw), key) == Of(Side(s, rw), key) + DataFor(events, key, rw)
    decreases |events|
  {
    var before := Of(Side(s, rw), key);
    if events == [] {
      assert before + [] == before;
    } else {
      var e := events[0];
      RecordsGetTheirOwn(AddTo(s, e), events[1..], key, rw);
      Assoc(before, if e.key == key && e.rw == rw then e.data else [], DataFor(events[1..], key, rw));
      assert before + [] == before;
    }
  }

  // ---------- from SSL calls to the store ----------

  /** An SSL call of any thread on any connection; `room` is about its reservations. */
  datatype Call = Call(key: SslKey, rw: nat, data: bytes, room: nat -> bool)

  function Tagged(key: SslKey, rw: nat, parts: seq<bytes>): seq<SslEvent> {
    if parts == [] then [] else [SslEvent(key, rw, parts[0])] + Tagged(key, rw, parts[1..])
  }

  function CallEvents(c: Call): seq<SslEvent> {
    Tagged(c.key, c.rw, Events(c.room, 0, MAX_LOOP, c.data[..Min(|c.data|, MAX_BYTES)]))
  }

  function AllEvents(calls: seq<Call>): seq<SslEvent> {
    if calls == [] then [] else CallEvents(calls[0]) + AllEvents(calls[1..])
  }

  /** The plaintext of a connection and direction, as far as it was captured. */
  function CapturedOf(calls: seq<Call>, key: SslKey, rw: nat): bytes {
    if calls == [] then [] else
      (if calls[0].key == key && calls[0].rw == rw then Captured(calls[0].room, calls[0].data) else []) +
      CapturedOf(calls[1..], key, rw)
  }

  lemma {:induction false} DataForSplit(a: seq<SslEvent>, b: seq<SslEvent>, key: SslKey, rw: nat)
    ensures DataFor(a + b, key, rw) == DataFor(a, key, rw) + DataFor(b, key, rw)
  {
    if a == [] {
      assert a + b == b && [] + DataFor(b, key, rw) == DataFor(b, key, rw);
    } else {
      assert (a + b)[1..] == a[1..] + b;
      DataForSplit(a[1..], b, key, rw);
      Assoc(if a[0].key == key && a[0].rw == rw then a[0].data else [], DataFor(a[1..], key, rw), DataFor(b, key, rw));
    }
  }

  lemma {:induction false} TaggedData(own: SslKey, ownRw: nat, parts: seq<bytes>, key: SslKey, rw: nat)
    ensures DataFor(Tagged(own, ownRw, parts), key, rw) == if own == key && ownRw == rw then Concat(parts) else []
  {
    if parts != [] {
      TaggedData(own, ownRw, parts[1..], key, rw);
      assert Tagged(own, ownRw, parts)[1..] == Tagged(own, ownRw, parts[1..]);
    }
  }

  lemma {:induction false} EventsCarryCaptured(calls: seq<Call>, key: SslKey, rw: nat)
    ensures DataFor(AllEvents(calls), key, rw) == CapturedOf(calls, key, rw)
  {
    if calls != [] {
      var c := calls[0];
      EventsCarryCaptured(calls[1..], key, rw);
      TaggedData(c.key, c.rw, Events(c.room, 0, MAX_LOOP, c.data[..Min(|c.data|, MAX_BYTES)]), key, rw);
      DataForSplit(CallEvents(c), AllEvents(calls[1..]), key, rw);
    }
  }

  /** A record holds exactly what was captured of its connection and direction, in order. */
  lemma CapturedArrives(calls: seq<Call>, key: SslKey, rw: nat)
    requires rw == RW_WRITE || rw == RW_READ
    ensures Of(Side(AddAll(Streams(map[], map[]), AllEvents(calls)), rw), key) == CapturedOf(calls, key, rw)
  {
    RecordsGetTheirOwn(Streams(map[], map[]), AllEvents(calls), key, rw);
    EventsCarryCaptured(calls, key, rw);
    assert [] + CapturedOf(calls, key, rw) == CapturedOf(calls, key, rw);
  }

  /** The plaintext itself. */
  function PlaintextOf(calls: seq<Call>, key: SslKey, rw: nat): bytes {
    if calls == [] then [] else
      (if calls[0].key == key && calls[0].rw == rw then calls[0].data else []) + PlaintextOf(calls[1..], key, rw)
  }

  predicate HasRoom(c: Call) {
    |c.data| <= Successes(c.room, 0, MAX_LOOP) * MAX_BODY_SIZE
  }

  /** Where every call of the connection finds room, that is the plaintext. */
  lemma {:induction false} RoomyIsPlaintext(calls: seq<Call>, key: SslKey, rw: nat)
    requires forall i :: 0 <= i < |calls| && calls[i].key == key && calls[i].rw == rw ==> HasRoom(calls[i])
    ensures CapturedOf(calls, key, rw) == PlaintextOf(calls, key, rw)
  {
    if calls != [] {
      RoomyIsPlaintext(calls[1..], key, rw);
      CapturedAllIff(calls[0].room, calls[0].data);
    }
  }

  // ---------- the store as the program has it ----------

  function Bytes(m: map<SslKey, Content>): map<SslKey, bytes> {
    map k | k in m :: m[k].stream
  }

  /** Every entry list of a side covers what its record holds. */
  predicate AllCovered(m: map<SslKey, Content>) {
    forall k :: k in m ==> Covers(m[k])
  }

  /** The event has an entry, behind those there, that counts its bytes. */
  predicate Entered(m: map<SslKey, Content>, next: map<SslKey, Content>, e: SslEvent, timestamp: nat, comm: string) {
    var before := if e.key in m then m[e.key].info else [];
    e.key in next && next[e.key].info == before + [EventInfo(timestamp, |e.data|, comm)]
  }

  /** One side after an event. */
  method AddToSide(m: map<SslKey, Content>, e: SslEvent, timestamp: nat, comm: string)
    returns (next: map<SslKey, Content>)
    requires AllCovered(m)
    ensures Bytes(next) == Bytes(m)[e.key := Of(Bytes(m), e.key) + e.data] && AllCovered(next)
    ensures Entered(m, next, e, timestamp, comm)
  {
    var record := new SslRecord.Of(if e.key in m then m[e.key] else Content([], []));
    record.Append(e.data, timestamp, comm);
    next := m[e.key := record.Now()];
  }

  class SslStore {
    var request: map<SslKey, Content>
    var response: map<SslKey, Content>
    var protocolCache: map<SslKey, Kind>

    ghost function View(): Streams
      reads this`request, this`response
    {
      Streams(Bytes(request), Bytes(response))
    }

    ghost predicate Valid()
      reads this`request, this`response
    {
      AllCovered(request) && AllCovered(response)
    }

    ghost function CachedFor(key: SslKey): Option<Kind>
      reads this`protocolCache
    {
      if key in protocolCache then Some(protocolCache[key]) else None
    }

    constructor ()
      ensures View() == Streams(map[], map[]) && Valid() && protocolCache == map[]
    {
      request, response, protocolCache := map[], map[], map[];
    }

    /** An event goes to the record of its connection and direction, which is made if need be. */
    method Add(e: SslEvent, timestamp: nat, comm: string)
      requires Valid()
      modifies this`request, this`response
      ensures View() == AddTo(old(View()), e) && Valid()
      ensures e.rw == RW_WRITE ==> Entered(old(request), request, e, timestamp, comm)
      ensures e.rw == RW_READ ==> Entered(old(response), response, e, timestamp, comm)
    {
      if e.rw == RW_WRITE {
        request := AddToSide(request, e, timestamp, comm);
      } else if e.rw == RW_READ {
        response := AddToSide(response, e, timestamp, comm);
      }
    }

    /** What a connection speaks, from the cache or from the bytes; a startup message is cut off. */
    method DetectProtocol(key: SslKey, record: SslRecord) returns (v: Verdict)
      requires record.Valid()
      modifies this`protocolCache, record`stream, record`used
      ensures record.Valid()
      ensures v == Judge(old(CachedFor(key)), old(record.stream))
      ensures protocolCache == if v.Known? then old(protocolCache)[key := v.kind] else old(protocolCache)
      ensures v.Known? ==> v.trim <= |old(record.stream)| && record.stream == old(record.stream)[v.trim..]
      ensures !v.Known? ==> record.stream == old(record.stream)
    {
      if key in protocolCache {
        v := Known(protocolCache[key], 0);
        assert protocolCache == protocolCache[key := v.kind];
        assert record.stream[0..] == record.stream;
        return;
      }
      v := DetectBytes(record.stream);
      if v.Known? {
        protocolCache := protocolCache[key := v.kind];
        record.TrimStartup(v.trim);
      }
    }

    /**
     A visit to the record of one connection, of either direction: judge it, then parse it with
     the parser of its protocol, or remove it.
     */
    method VisitRecord<P, M(==)>(side: map<SslKey, Content>, key: SslKey, parserFor: Kind -> Parser<P, M>, start: P)
      returns (next: map<SslKey, Content>, v: Verdict, state: P, effects: seq<Effect<M>>)
      requires AllCovered(side) && key in side
      modifies this`protocolCache
      ensures AllCovered(next) && Others(side, next, key)
      ensures v == Judge(old(CachedFor(key)), side[key].stream)
      ensures protocolCache == if v.Known? then old(protocolCache)[key := v.kind] else old(protocolCache)
      ensures VisitDone(parserFor, start, side[key].stream, v, Of(Bytes(next), key), state, effects)
    {
      next, state, effects := side, start, [];
      var record := new SslRecord.Of(side[key]);
      v := DetectProtocol(key, record);
      match v
      case Panics =>
        effects := [Crash];
      case Unknown =>
        next := side - {key};
      case Known(kind, _) =>
        state, effects := record.ParseLoop(parserFor(kind), start);
        if DropConnection in effects {
          next := side - {key};
        } else {
          next := side[key := record.Now()];
        }
    }

    method VisitRequest<P, M(==)>(key: SslKey, parserFor: Kind -> Parser<P, M>, start: P)
      returns (v: Verdict, state: P, effects: seq<Effect<M>>)
      requires Valid() && key in request
      modifies this`request, this`protocolCache
      ensures Valid() && Others(old(request), request, key)
      ensures v == Judge(old(CachedFor(key)), old(request)[key].stream)
      ensures VisitDone(parserFor, start, old(request)[key].stream, v, Of(Bytes(request), key), state, effects)
    {
      request, v, state, effects := VisitRecord(request, key, parserFor, start);
    }

    method VisitResponse<P, M(==)>(key: SslKey, parserFor: Kind -> Parser<P, M>, start: P)
      returns (v: Verdict, state: P, effects: seq<Effect<M>>)
      requires Valid() && key in response
      modifies this`response, this`protocolCache
      ensures Valid() && Others(old(response), response, key)
      ensures v == Judge(old(CachedFor(key)), old(response)[key].stream)
      ensures VisitDone(parserFor, start, old(response)[key].stream, v, Of(Bytes(response), key), state, effects)
    {
      response, v, state, effects := VisitRecord(response, key, parserFor, start);
    }
  }

  /** The records of all other connections are as they were. */
  ghost predicate Others(before: map<SslKey, Content>, now: map<SslKey, Content>, key: SslKey) {
    before - {key} == now - {key}
  }

  /**
   What a visit leaves: after parsing, what the visit of the runs leaves, unless it dropped the
   connection; of bytes that are not known, nothing.
   */
  ghost predicate VisitDone<P, M>(
    parserFor: Kind -> Parser<P, M>, start: P, stream: bytes, v: Verdict, rest: bytes, state: P,
    effects: seq<Effect<M>>)
  {
    match v
    case Panics => effects == [Crash] && state == start && rest == stream
    case Unknown => effects == [] && state == start && rest == []
    case Known(kind, trim) =>
      && trim <= |stream|
      && var t := TickOf(parserFor(kind), start, stream[trim..]);
      state == t.state && effects == t.effects && rest == if DropConnection in effects then [] else t.rest
  }
}
