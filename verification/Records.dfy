/**
 Per-connection records (tls/protocol.go): bytes wait in `stream`, one `info` entry per
 captured event says how many bytes it brought.  Partial consumption drops whole entries
 and keeps the entry it stops in unchanged, so the entries over-count what is left; the
 invariant below is that they never under-count it, which is what the parse loops need
 in order to terminate.
 */
module Records {
  import opened Common

  datatype EventInfo = EventInfo(timestamp: nat, dataLen: nat, comm: string)

  function Total(infos: seq<EventInfo>): nat {
    if infos == [] then 0 else infos[0].dataLen + Total(infos[1..])
  }

  lemma {:induction false} TotalSplit(a: seq<EventInfo>, b: seq<EventInfo>)
    ensures Total(a + b) == Total(a) + Total(b)
  {
    if a == [] {
      assert a + b == b;
    } else {
      assert (a + b)[1..] == a[1..] + b;
      TotalSplit(a[1..], b);
    }
  }

  lemma TotalSnoc(infos: seq<EventInfo>, i: nat)
    requires i < |infos|
    ensures Total(infos[..i + 1]) == Total(infos[..i]) + infos[i].dataLen
    ensures Total(infos[..i + 1]) <= Total(infos)
  {
    assert infos[..i + 1] == infos[..i] + [infos[i]];
    TotalSplit(infos[..i], [infos[i]]);
    assert Total([infos[i]]) == infos[i].dataLen + Total([infos[i]][1..]);
    assert infos == infos[..i + 1] + infos[i + 1..];
    TotalSplit(infos[..i + 1], infos[i + 1..]);
  }

  /** Entry `k` is the one byte `n` belongs to: everything before it is used up, it is not. */
  predicate StopsAt(infos: seq<EventInfo>, n: nat, k: nat) {
    && k < |infos|
    && Total(infos[..k]) <= n
    && (n == Total(infos[..k]) || n < Total(infos[..k + 1]))
    && (k > 0 ==> Total(infos[..k - 1]) < n)
  }

  predicate Names(infos: seq<EventInfo>, i: int, timestamp: nat, comm: string) {
    0 <= i < |infos| && infos[i].timestamp == timestamp && infos[i].comm == comm
  }

  // ---------- the parse loops, over any parser ----------

  /** What one parser call found: nothing to report, a reset stream, or a request or response. */
  datatype Found<M> = Nothing | Cancel(m: M) | Item(m: M)

  /** The outcome of one parser call: an error, the end of the process, or a finding and the bytes it used up. */
  datatype Parsed<P, M> =
    | ParseError
    | ParseCrash
    | ParseOk(state: P, found: Found<M>, consumed: nat, endOfStream: bool)

  /**
   What a loop does besides consuming.  The response loop releases the session of a message
   with each of the first three, and all sessions of the connection with `DropConnection`;
   the request loop releases none.
   */
  datatype Effect<M> = Emit(m: M) | Discard(m: M) | Undecodable(m: M) | DropConnection | Crash

  datatype Parser<!P, !M> = Parser(parse: (P, bytes) -> Parsed<P, M>, decodes: M -> bool)

  datatype Tick<P, M> = Tick(state: P, rest: bytes, effects: seq<Effect<M>>)

  /** One visit to a record: parse until a message is emitted, an error, or no progress. */
  function TickOf<P, M>(parser: Parser<P, M>, state: P, stream: bytes): Tick<P, M>
    decreases |stream|
  {
    if stream == [] then Tick(state, stream, []) else
      match parser.parse(state, stream)
      case ParseError => Tick(state, stream, [DropConnection])
      case ParseCrash => Tick(state, stream, [Crash])
      case ParseOk(state', found, consumed, eos) =>
        if consumed == 0 then Tick(state', stream, []) else
          var rest := stream[Min(consumed, |stream|)..];
          if found.Item? && eos && parser.decodes(found.m) then Tick(state', rest, [Emit(found.m)]) else
            Then(Passing(found, eos), TickOf(parser, state', rest))
  }

  function Then<P, M>(effects: seq<Effect<M>>, t: Tick<P, M>): Tick<P, M> {
    t.(effects := effects + t.effects)
  }

  lemma ThenThen<P, M>(a: seq<Effect<M>>, b: seq<Effect<M>>, t: Tick<P, M>)
    ensures Then(a, Then(b, t)) == Then(a + b, t)
  {
    assert a + (b + t.effects) == (a + b) + t.effects;
  }

  /** The effect of a finding the loop goes past. */
  function Passing<M>(found: Found<M>, eos: bool): seq<Effect<M>> {
    match found
    case Nothing => []
    case Cancel(m) => [Discard(m)]
    case Item(m) => if eos then [Undecodable(m)] else []
  }

  /** The walk over the entries: where it stops, and the last entry it passed. */
  method FindEntry(info: seq<EventInfo>, n: nat) returns (index: nat, last: nat)
    requires info != [] && n > 0
    ensures index <= |info| && last < |info| && Total(info[..index]) <= n
    ensures n < Total(info) ==> StopsAt(info, n, index) && last == Max(index - 1, 0)
  {
    index, last := 0, 0;
    var length, i := n, 0;
    assert info[..|info|] == info;
    while i < |info|
      invariant 0 <= i <= |info| && index <= |info|
      invariant length == n - Total(info[..i]) >= 0
      invariant last == Max(i - 1, 0)
      invariant i > 0 ==> Total(info[..i - 1]) < n && index == (if i == |info| && length == 0 then i else i - 1)
      invariant i == 0 ==> index == 0
      decreases |info| - i
    {
      index := i;
      TotalSnoc(info, i);
      if length == 0 {
        break;
      } else if length >= info[i].dataLen {
        length := length - info[i].dataLen;
      } else {
        break;
      }
      last := i;
      if i == |info| - 1 && length == 0 {
        index := |info|;
      }
      i := i + 1;
    }
    if i == |info| && i > 0 {
      TotalSnoc(info, i - 1);
    }
  }

  /** What a record holds: bytes, and one entry for each event they came from. */
  datatype Content = Content(stream: bytes, info: seq<EventInfo>)

  /** The entries never under-count the bytes. */
  predicate Covers(c: Content) {
    |c.stream| <= Total(c.info)
  }

  class SslRecord {
    var stream: bytes
    var info: seq<EventInfo>
    ghost var received: bytes
    ghost var used: nat

    /** The record holds what was received less what was used, and its entries cover that. */
    ghost predicate Valid()
      reads this
    {
      && used <= |received| && stream == received[used..]
      && |stream| <= Total(info)
    }

    /** By how much the entries over-count the bytes that are left. */
    ghost function Slack(): nat
      requires Valid()
      reads this
    {
      Total(info) - |stream|
    }

    constructor ()
      ensures Valid() && stream == [] && info == [] && received == [] && used == 0 && Slack() == 0
    {
      stream, info, received, used := [], [], [], 0;
    }

    constructor Of(c: Content)
      requires Covers(c)
      ensures Valid() && Now() == c && received == c.stream && used == 0
    {
      stream, info, received, used := c.stream, c.info, c.stream, 0;
    }

    function Now(): Content
      reads this
    {
      Content(stream, info)
    }

    /** Store one captured event: its bytes, and an entry with their number. */
    method Append(data: bytes, timestamp: nat, comm: string)
      requires Valid()
      modifies this
      ensures Valid()
      ensures received == old(received) + data && used == old(used)
      ensures info == old(info) + [EventInfo(timestamp, |data|, comm)] && Slack() == old(Slack())
    {
      var entry := EventInfo(timestamp, |data|, comm);
      TotalSplit(info, [entry]);
      assert Total([entry]) == |data| + Total([entry][1..]);
      stream := stream + data;
      info := info + [entry];
      received := received + data;
    }

    /** Protocol detection cuts a Postgres startup message off the stream, and leaves `info` alone. */
    method TrimStartup(length: nat)
      requires Valid()
      modifies this`stream, this`used
      ensures Valid()
      ensures used == Min(old(used) + length, |received|)
      ensures Slack() == old(Slack()) + used - old(used)
    {
      var n := Min(length, |stream|);
      stream := stream[n..];
      used := used + n;
    }

    /**
     Take `consumed` bytes off the front.  The time and command are those of the last entry
     wholly used up (of the first one if there is none), or of the very last entry when
     nothing remains.
     */
    method Consume(consumed: int) returns (timestamp: nat, comm: string, consumedAll: bool)
      requires Valid()
      modifies this
      ensures Valid() && received == old(received)
      ensures used == Min(old(used) + Max(consumed, 0), |received|)
      ensures consumed > 0 && old(stream) != [] ==> used > old(used)
      ensures consumed > 0 && old(info) != [] ==>
                && consumedAll == (consumed >= |old(stream)|)
                && (consumedAll ==>
                      info == [] && Slack() == 0 && Names(old(info), |old(info)| - 1, timestamp, comm))
                && (!consumedAll ==>
                      exists k: nat ::
                        && StopsAt(old(info), consumed, k) && info == old(info)[k..]
                        && Names(old(info), Max(k - 1, 0), timestamp, comm)
                        && Slack() == old(Slack()) + (consumed - Total(old(info)[..k]))
                        && (Slack() == 0 <==> old(Slack()) == 0 && consumed == Total(old(info)[..k])))
    {
      if consumed <= 0 || |info| == 0 {
        return 0, "", consumed == |stream|;
      }
      var n := Min(consumed, |stream|);
      if n == |stream| {
        var last := info[|info| - 1];
        stream, info := [], [];
        used := |received|;
        return last.timestamp, last.comm, true;
      }
      stream := stream[n..];
      used := used + n;
      var index, last := FindEntry(info, n);
      assert info == info[..index] + info[index..];
      TotalSplit(info[..index], info[index..]);
      timestamp, comm := info[last].timestamp, info[last].comm;
      info := info[index..];
      consumedAll := false;
    }

    /** Consumption as the parse loops use it: some byte goes, in order. */
    method Advance(consumed: nat)
      requires Valid() && stream != [] && consumed > 0
      modifies this
      ensures Valid() && received == old(received)
      ensures stream == old(stream)[Min(consumed, |old(stream)|)..]
    {
      var _, _, _ := Consume(consumed);
    }

    /**
     The loop of one visit.  It terminates because every turn that goes on uses up a byte,
     and that holds because the entries cover the stream.
     */
    method ParseLoop<P, M>(parser: Parser<P, M>, start: P) returns (state: P, effects: seq<Effect<M>>)
      requires Valid()
      modifies this
      ensures Valid() && received == old(received)
      ensures Tick(state, stream, effects) == TickOf(parser, start, old(stream))
    {
      state, effects := start, [];
      ghost var want := TickOf(parser, start, stream);
      while |stream| > 0
        invariant Valid() && received == old(received)
        invariant want == Then(effects, TickOf(parser, state, stream))
        decreases |stream|
      {
        var r := parser.parse(state, stream);
        if r.ParseError? {
          effects := effects + [DropConnection];
          return;
        }
        if r.ParseCrash? {
          effects := effects + [Crash];
          return;
        }
        state := r.state;
        if r.consumed == 0 {
          return;
        }
        Advance(r.consumed);
        if r.found.Item? && r.endOfStream && parser.decodes(r.found.m) {
          effects := effects + [Emit(r.found.m)];
          return;
        }
        ThenThen(effects, Passing(r.found, r.endOfStream), TickOf(parser, state, stream));
        effects := effects + Passing(r.found, r.endOfStream);
      }
    }
  }

  /** An input that over-counts: two bytes in one event, one of them used up. */
  method OverCount(data: bytes, timestamp: nat, comm: string) returns (r: SslRecord)
    requires |data| == 2
    ensures fresh(r) && r.Valid() && |r.stream| == 1 && Total(r.info) == 2 && r.Slack() == 1
  {
    r := new SslRecord();
    r.Append(data, timestamp, comm);
    assert r.info[..0] == [] && r.info[..1] == r.info;
    var _, _, all := r.Consume(1);
  }
}
