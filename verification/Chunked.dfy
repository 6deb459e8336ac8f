/**
 Chunked response bodies (section 7.1 of RFC 9112) as tls/http1.go takes them apart: one
 chunk per parser call, the body collected on the record's last response, and the end
 recognised by the length of what a call used up.
 */
module Chunked {
  import opened Common
  import Records

  const CR: byte := 13
  const LF: byte := 10
  const CRLF_LEN := 2
  const TWO64 := 0x1_0000_0000_0000_0000
  const STREAM_END_CHUNK_LENGTH := 5

  // ---------- size lines ----------

  function Digit(c: byte): Option<nat> {
    if 0x30 <= c <= 0x39 then Some(c - 0x30)
    else if 0x61 <= c <= 0x66 then Some(c - 0x61 + 10)
    else if 0x41 <= c <= 0x46 then Some(c - 0x41 + 10)
    else None
  }

  predicate AllHex(s: bytes) {
    forall i :: 0 <= i < |s| ==> Digit(s[i]).Some?
  }

  function HexValue(s: bytes): nat
    requires AllHex(s)
  {
    if s == [] then 0 else 16 * HexValue(s[..|s| - 1]) + Digit(s[|s| - 1]).value
  }

  /** Hexadecimal without sign or prefix, at least one digit, below 2^64. */
  function ParseSize(s: bytes): Option<nat> {
    if s == [] || !AllHex(s) || HexValue(s) >= TWO64 then None else Some(HexValue(s))
  }

  function HexDigit(d: nat): (c: byte)
    requires d < 16
    ensures Digit(c) == Some(d)
  {
    if d < 10 then 0x30 + d else 0x61 + d - 10
  }

  function SizeLine(n: nat): (s: bytes)
    ensures s != [] && AllHex(s)
  {
    if n < 16 then [HexDigit(n)] else SizeLine(n / 16) + [HexDigit(n % 16)]
  }

  /** Every size below 2^64 has a line. */
  lemma {:induction false} SizeLineRoundTrip(n: nat)
    ensures HexValue(SizeLine(n)) == n
    ensures n < TWO64 ==> ParseSize(SizeLine(n)) == Some(n)
  {
    var s := SizeLine(n);
    if n >= 16 {
      SizeLineRoundTrip(n / 16);
      assert s[..|s| - 1] == SizeLine(n / 16);
    } else {
      assert s[..|s| - 1] == [];
    }
  }

  /** The first CR LF. */
  function LineEnd(data: bytes): (r: Option<nat>)
    ensures r.Some? ==> r.value + 1 < |data| && data[r.value] == CR && data[r.value + 1] == LF
    ensures r.Some? ==> forall i :: 0 <= i < r.value ==> !(data[i] == CR && data[i + 1] == LF)
    ensures r.None? ==> forall i :: 0 <= i < |data| - 1 ==> !(data[i] == CR && data[i + 1] == LF)
  {
    if |data| < 2 then None
    else if data[0] == CR && data[1] == LF then Some(0)
    else
      var r := LineEnd(data[1..]);
      if r.None? then None else Some(r.value + 1)
  }

  // ---------- one chunk ----------

  /** The outcome of taking one chunk: an error, more bytes needed, a failing slice, or a chunk. */
  datatype Step = Malformed | Incomplete | OutOfBounds | Chunk(data: bytes, consumed: nat)

  /** A 64-bit unsigned number as a signed one. */
  function Signed(n: nat): int {
    if n < 0x8000_0000_0000_0000 then n else n - TWO64
  }

  /** The chunk of `length` bytes behind a size line of `idx` bytes. */
  function TakeChunk(data: bytes, idx: nat, length: nat): Step
    requires idx + CRLF_LEN <= |data|
  {
    var consumed := (idx + CRLF_LEN + length + CRLF_LEN) % TWO64;
    if consumed > |data| then Incomplete else
      var lo, hi := idx + CRLF_LEN, idx + CRLF_LEN + Signed(length);
      if lo <= hi <= |data| then Chunk(data[lo..hi], consumed) else OutOfBounds
  }

  function ParseStream(data: bytes): Step {
    var idx := LineEnd(data);
    if idx.None? then Malformed else
      var length := ParseSize(data[..idx.value]);
      if length.None? then Malformed else TakeChunk(data, idx.value, length.value)
  }

  /** No buffer is longer than the largest signed 64-bit number. */
  predicate Addressable(data: bytes) {
    |data| < 0x8000_0000_0000_0000
  }

  lemma TakeChunkCases(data: bytes, idx: nat, length: nat)
    requires Addressable(data) && idx + CRLF_LEN <= |data| && length < TWO64
    ensures var sum := idx + 4 + length;
            TakeChunk(data, idx, length) ==
              if sum <= |data| then Chunk(data[idx + 2..idx + 2 + length], sum)
              else if TWO64 <= sum <= TWO64 + |data| then OutOfBounds
              else Incomplete
  {
    var sum := idx + 4 + length;
    assert sum % TWO64 == if sum < TWO64 then sum else sum - TWO64;
  }

  /** The slice fails exactly when the length makes the 64-bit sum wrap to something already there. */
  lemma SliceFailsIff(data: bytes)
    requires Addressable(data)
    ensures ParseStream(data).OutOfBounds? <==>
              && LineEnd(data).Some? && ParseSize(data[..LineEnd(data).value]).Some?
              && var sum := LineEnd(data).value + 4 + ParseSize(data[..LineEnd(data).value]).value;
                 TWO64 <= sum <= TWO64 + |data|
  {
    var idx := LineEnd(data);
    if idx.Some? && ParseSize(data[..idx.value]).Some? {
      TakeChunkCases(data, idx.value, ParseSize(data[..idx.value]).value);
    }
  }

  /** An input: a size four short of 2^64. */
  lemma LongestSizeFails(rest: bytes)
    requires Addressable(SizeLine(TWO64 - 4) + [CR, LF] + rest)
    ensures ParseStream(SizeLine(TWO64 - 4) + [CR, LF] + rest).OutOfBounds?
  {
    var line := SizeLine(TWO64 - 4);
    var data := line + [CR, LF] + rest;
    SizeLineRoundTrip(TWO64 - 4);
    assert data[..|line|] == line;
    LineEndAt(data, line);
    SliceFailsIff(data);
  }

  lemma ZeroLine(line: bytes)
    requires |line| == 1 && AllHex(line) && HexValue(line) == 0
    ensures line == [0x30]
  {
    assert line[..0] == [];
  }

  /** Five bytes are used up exactly by the size line "0". */
  lemma EndIff(data: bytes)
    requires Addressable(data) && ParseStream(data).Chunk?
    ensures ParseStream(data).consumed == STREAM_END_CHUNK_LENGTH <==> data[..LineEnd(data).value] == [0x30]
  {
    var idx := LineEnd(data).value;
    var line := data[..idx];
    TakeChunkCases(data, idx, ParseSize(line).value);
    if idx == 1 && HexValue(line) == 0 {
      ZeroLine(line);
    }
    assert [0x30 as byte][..0] == [];
    assert HexValue([0x30]) == 0;
  }

  // ---------- whole bodies ----------

  datatype Piece = Piece(size: bytes, data: bytes)

  const LAST := Piece([0x30], [])

  predicate Good(p: Piece) {
    ParseSize(p.size) == Some(|p.data|) && p.data != []
  }

  predicate AllGood(ps: seq<Piece>) {
    forall p :: p in ps ==> Good(p)
  }

  function Encode(p: Piece): (w: bytes)
    ensures |w| == |p.size| + |p.data| + 4
  {
    p.size + [CR, LF] + p.data + [CR, LF]
  }

  /** The pieces, then the last chunk; no extensions, no trailers. */
  function Wire(ps: seq<Piece>): bytes {
    if ps == [] then Encode(LAST) else Encode(ps[0]) + Wire(ps[1..])
  }

  function Body(ps: seq<Piece>): bytes {
    if ps == [] then [] else ps[0].data + Body(ps[1..])
  }

  lemma LastIsZero()
    ensures ParseSize(LAST.size) == Some(0)
  {
    assert LAST.size[..0] == [];
  }

  lemma LineEndAt(buf: bytes, size: bytes)
    requires AllHex(size) && |size| + 2 <= |buf| && buf[..|size|] == size && buf[|size|] == CR && buf[|size| + 1] == LF
    ensures LineEnd(buf) == Some(|size|)
  {
    assert forall i :: 0 <= i < |size| ==> buf[i] == size[i];
  }

  lemma NoLineEnd(buf: bytes, size: bytes)
    requires AllHex(size) && |buf| <= |size| + 1 && buf <= size + [CR]
    ensures LineEnd(buf).None?
  {
    assert forall i :: 0 <= i < |buf| && i < |size| ==> buf[i] == size[i];
  }

  lemma Middle(a: bytes, b: bytes, c: bytes)
    ensures (a + b + c)[..|a|] == a && (a + b + c)[|a|..|a| + |b|] == b && (a + b + c)[|a| + |b|..] == c
  {
  }

  lemma Layout(p: Piece, tail: bytes)
    ensures var w, k := Encode(p) + tail, |p.size|;
            && w[..k] == p.size && w[k] == CR && w[k + 1] == LF
            && w[k + 2..k + 2 + |p.data|] == p.data && w[|Encode(p)|..] == tail
  {
    var line, end: bytes := p.size + [CR, LF], [CR, LF];
    Assoc(line + p.data, end, tail);
    Middle(line, p.data, end + tail);
    Middle(p.size, [CR, LF], p.data + (end + tail));
    Assoc(line, p.data, end + tail);
  }

  lemma SliceOfPrefix(w: bytes, n: nat, i: nat, j: nat)
    requires i <= j <= n <= |w|
    ensures w[..n][i..j] == w[i..j]
  {
  }

  /** What one call makes of the first `n` bytes of a chunk and what follows it. */
  lemma ParseAt(p: Piece, tail: bytes, n: nat)
    requires ParseSize(p.size) == Some(|p.data|) && n <= |Encode(p) + tail| && Addressable(Encode(p) + tail)
    ensures ParseStream((Encode(p) + tail)[..n]) ==
              if n < |p.size| + 2 then Malformed
              else if n < |Encode(p)| then Incomplete
              else Chunk(p.data, |Encode(p)|)
  {
    var w, k := Encode(p) + tail, |p.size|;
    var buf := w[..n];
    Layout(p, tail);
    if n < k + 2 {
      assert w[..k + 1] == p.size + [CR];
      NoLineEnd(buf, p.size);
    } else {
      SliceOfPrefix(w, n, 0, k);
      LineEndAt(buf, p.size);
      TakeChunkCases(buf, k, |p.data|);
      if n >= |Encode(p)| {
        SliceOfPrefix(w, n, k + 2, k + 2 + |p.data|);
      }
    }
  }

  // ---------- the parser and its runs ----------

  type Parse = bytes -> Step

  /** What a parser of chunks makes of the first `n` bytes of a chunk and what follows it. */
  predicate ParsesAt(parse: Parse, p: Piece, tail: bytes, n: nat) {
    ParseSize(p.size) == Some(|p.data|) && n <= |Encode(p) + tail| && Addressable(Encode(p) + tail) ==>
      parse((Encode(p) + tail)[..n]) ==
      if n < |p.size| + 2 then Malformed
      else if n < |Encode(p)| then Incomplete
      else Chunk(p.data, |Encode(p)|)
  }

  ghost predicate Parses(parse: Parse) {
    forall p: Piece, tail: bytes, n: nat :: ParsesAt(parse, p, tail, n)
  }

  lemma ParseStreamParses()
    ensures Parses(ParseStream)
  {
    forall p: Piece, tail: bytes, n: nat ensures ParsesAt(ParseStream, p, tail, n) {
      if ParseSize(p.size) == Some(|p.data|) && n <= |Encode(p) + tail| && Addressable(Encode(p) + tail) {
        ParseAt(p, tail, n);
      }
    }
  }

  /** One parser call on a chunked response whose body so far is `body`. */
  function ChunkCall(parse: Parse, body: bytes, stream: bytes): Records.Parsed<bytes, bytes> {
    match parse(stream)
    case Malformed => Records.ParseError
    case OutOfBounds => Records.ParseCrash
    case Incomplete => Records.ParseOk(body, Records.Nothing, 0, false)
    case Chunk(data, n) =>
      if n == STREAM_END_CHUNK_LENGTH then Records.ParseOk(body, Records.Item(body), n, true)
      else Records.ParseOk(body + data, Records.Item(body + data), n, false)
  }

  /** How a call of the parser ends: with an error, with a failing slice, or with bytes used up. */
  datatype CallEnd = Errs | Panics | Used(n: nat)

  class Response {
    var body: bytes
    var endOfStream: bool

    constructor ()
      ensures body == [] && !endOfStream
    {
      body, endOfStream := [], false;
    }

    /** The chunked branch of response parsing. */
    method ParseChunk(stream: bytes) returns (result: CallEnd)
      modifies this
      ensures var r := ChunkCall(ParseStream, old(body), stream);
              && (result.Errs? <==> r.ParseError?) && (result.Panics? <==> r.ParseCrash?)
              && (!result.Used? ==> body == old(body))
              && (result.Used? ==>
                    && result.n == r.consumed && body == r.state
                    && (r.consumed != 0 ==> endOfStream == r.endOfStream))
    {
      var step := ParseStream(stream);
      if step.Malformed? {
        return Errs;
      }
      if step.OutOfBounds? {
        return Panics;
      }
      if step.Incomplete? {
        return Used(0);
      }
      if step.consumed == STREAM_END_CHUNK_LENGTH {
        endOfStream := true;
      } else {
        endOfStream := false;
        body := body + step.data;
      }
      return Used(step.consumed);
    }
  }

  function ChunkParser(parse: Parse): Records.Parser<bytes, bytes> {
    Records.Parser((body, stream) => ChunkCall(parse, body, stream), _ => true)
  }

  /** A response is lost with its connection or with the process, emitted with its body, or still coming in. */
  datatype Outcome = Lost | Crashed | Finished(body: bytes, rest: bytes) | Waiting(body: bytes)

  function ChunkRun(parse: Parse, body: bytes, buf: bytes, rounds: seq<Round>): Outcome
    decreases |rounds|, 0
  {
    if rounds == [] then Waiting(body) else
      match rounds[0]
      case Arrive(data) => ChunkRun(parse, body, buf + data, rounds[1..])
      case Visit => AfterVisit(parse, Records.TickOf(ChunkParser(parse), body, buf), rounds[1..])
  }

  function AfterVisit(parse: Parse, t: Records.Tick<bytes, bytes>, rounds: seq<Round>): Outcome
    decreases |rounds|, 1
  {
    if t.effects == [] then ChunkRun(parse, t.state, t.rest, rounds)
    else if t.effects[0].Emit? then Finished(t.effects[0].m, t.rest)
    else if t.effects[0].Crash? then Crashed
    else Lost
  }

  /** The first `n` bytes of the wire end inside a size line or its CR LF. */
  predicate InsideSizeLine(ps: seq<Piece>, n: nat) {
    if ps == [] then 0 < n < |LAST.size| + 2
    else 0 < n < |ps[0].size| + 2 || (n >= |Encode(ps[0])| && InsideSizeLine(ps[1..], n - |Encode(ps[0])|))
  }

  /** Some visit comes when that many bytes are there. */
  predicate VisitsInside(ps: seq<Piece>, n: nat, rounds: seq<Round>)
    decreases |rounds|
  {
    if rounds == [] then false
    else if rounds[0].Arrive? then VisitsInside(ps, n + |rounds[0].data|, rounds[1..])
    else InsideSizeLine(ps, n) || VisitsInside(ps, n, rounds[1..])
  }

  /** Some visit comes when everything is there. */
  predicate VisitsAtEnd(total: nat, n: nat, rounds: seq<Round>)
    decreases |rounds|
  {
    if rounds == [] then false
    else if rounds[0].Arrive? then VisitsAtEnd(total, n + |rounds[0].data|, rounds[1..])
    else n >= total || VisitsAtEnd(total, n, rounds[1..])
  }

  lemma {:induction false} VisitsSkip(ps: seq<Piece>, n: nat, rounds: seq<Round>)
    requires ps != [] && n >= |Encode(ps[0])|
    ensures var k := |Encode(ps[0])|;
            && VisitsInside(ps, n, rounds) == VisitsInside(ps[1..], n - k, rounds)
            && VisitsAtEnd(|Wire(ps)|, n, rounds) == VisitsAtEnd(|Wire(ps[1..])|, n - k, rounds)
    decreases |rounds|
  {
    if rounds != [] {
      VisitsSkip(ps, if rounds[0].Arrive? then n + |rounds[0].data| else n, rounds[1..]);
    }
  }

  lemma TickByStep(parse: Parse, body: bytes, buf: bytes)
    requires buf != []
    ensures var step, t := parse(buf), Records.TickOf(ChunkParser(parse), body, buf);
            && (step.Malformed? ==> t == Records.Tick(body, buf, [Records.DropConnection]))
            && (step.Incomplete? ==> t == Records.Tick(body, buf, []))
            && (step.Chunk? && step.consumed != 0 ==>
                  var rest := buf[Min(step.consumed, |buf|)..];
                  t == if step.consumed == STREAM_END_CHUNK_LENGTH then Records.Tick(body, rest, [Records.Emit(body)])
                       else Records.TickOf(ChunkParser(parse), body + step.data, rest))
  {
    var step := parse(buf);
    assert ChunkParser(parse).parse(body, buf) == ChunkCall(parse, body, buf);
    if step.Chunk? && step.consumed != 0 && step.consumed != STREAM_END_CHUNK_LENGTH {
      var t := Records.TickOf(ChunkParser(parse), body + step.data, buf[Min(step.consumed, |buf|)..]);
      assert [] + t.effects == t.effects;
    }
  }

  /** How a visit starts, by what is there of the first chunk. */
  lemma TickAt(parse: Parse, p: Piece, tail: bytes, n: nat, body: bytes)
    requires Parses(parse)
    requires ParseSize(p.size) == Some(|p.data|) && 0 < n <= |Encode(p) + tail| && Addressable(Encode(p) + tail)
    ensures var w, k := Encode(p) + tail, |Encode(p)|;
            Records.TickOf(ChunkParser(parse), body, w[..n]) ==
              if n < |p.size| + 2 then Records.Tick(body, w[..n], [Records.DropConnection])
              else if n < k then Records.Tick(body, w[..n], [])
              else if k == STREAM_END_CHUNK_LENGTH then Records.Tick(body, tail[..n - k], [Records.Emit(body)])
              else Records.TickOf(ChunkParser(parse), body + p.data, tail[..n - k])
  {
    var e, buf := Encode(p), (Encode(p) + tail)[..n];
    assert ParsesAt(parse, p, tail, n);
    if n >= |e| {
      TakePast(e, tail, n);
      TickOnChunk(parse, body, e, tail[..n - |e|], p.data);
    } else {
      TickByStep(parse, body, buf);
    }
  }

  lemma TickOnChunk(parse: Parse, body: bytes, e: bytes, rest: bytes, data: bytes)
    requires e != [] && parse(e + rest) == Chunk(data, |e|)
    ensures Records.TickOf(ChunkParser(parse), body, e + rest) ==
            if |e| == STREAM_END_CHUNK_LENGTH then Records.Tick(body, rest, [Records.Emit(body)])
            else Records.TickOf(ChunkParser(parse), body + data, rest)
  {
    TickByStep(parse, body, e + rest);
    assert (e + rest)[|e|..] == rest;
  }

  /** The record holds the first `n` bytes of the wire, and the rounds bring no more than the rest. */
  predicate Carrying(ps: seq<Piece>, n: nat, rounds: seq<Round>) {
    AllGood(ps) && Addressable(Wire(ps)) && n <= |Wire(ps)| && Wire(ps)[..n] + Arrived(rounds) <= Wire(ps)
  }

  /** What the positions of the visits call for. */
  datatype End = Losing | Finishing | Pending

  function EndOf(inside: bool, atEnd: bool): End {
    if inside then Losing else if atEnd then Finishing else Pending
  }

  predicate Meets(r: Outcome, end: End, body: bytes) {
    match end
    case Losing => r == Lost
    case Finishing => r == Finished(body, [])
    case Pending => r.Waiting? && r.body <= body
  }

  /** What a run comes to. */
  predicate EndsAs(r: Outcome, body: bytes, ps: seq<Piece>, n: nat, rounds: seq<Round>) {
    Meets(r, EndOf(VisitsInside(ps, n, rounds), VisitsAtEnd(|Wire(ps)|, n, rounds)), body + Body(ps))
  }

  lemma RunArrives(ps: seq<Piece>, n: nat, rounds: seq<Round>)
    requires Carrying(ps, n, rounds) && rounds != [] && rounds[0].Arrive?
    ensures var m := n + |rounds[0].data|;
            Carrying(ps, m, rounds[1..]) && Wire(ps)[..n] + rounds[0].data == Wire(ps)[..m]
  {
    var w, d, later := Wire(ps), rounds[0].data, Arrived(rounds[1..]);
    assert w[..n] + Arrived(rounds) == (w[..n] + d) + later;
    assert w[..n + |d|] == (w[..n] + Arrived(rounds))[..n + |d|];
  }

  lemma RunVisits(parse: Parse, body: bytes, ps: seq<Piece>, n: nat, rounds: seq<Round>)
    requires Parses(parse)
    requires Carrying(ps, n, rounds) && rounds != [] && rounds[0].Visit? && (ps != [] ==> n < |Encode(ps[0])|)
    requires EndsAs(ChunkRun(parse, body, Wire(ps)[..n], rounds[1..]), body, ps, n, rounds[1..])
    ensures EndsAs(ChunkRun(parse, body, Wire(ps)[..n], rounds), body, ps, n, rounds)
  {
    VisitBeforePiece(parse, body, ps, n);
    var t := Records.TickOf(ChunkParser(parse), body, Wire(ps)[..n]);
    assert ChunkRun(parse, body, Wire(ps)[..n], rounds) == AfterVisit(parse, t, rounds[1..]);
    assert VisitsInside(ps, n, rounds) == (InsideSizeLine(ps, n) || VisitsInside(ps, n, rounds[1..]));
    assert VisitsAtEnd(|Wire(ps)|, n, rounds) == (n >= |Wire(ps)| || VisitsAtEnd(|Wire(ps)|, n, rounds[1..]));
    if n == |Wire(ps)| {
      NeverInsideAtEnd(n, rounds[1..]);
      assert body + Body(ps) == body;
    }
  }

  /** A visit that finds less than a whole piece, or only the last chunk. */
  lemma VisitBeforePiece(parse: Parse, body: bytes, ps: seq<Piece>, n: nat)
    requires Parses(parse)
    requires AllGood(ps) && Addressable(Wire(ps)) && n <= |Wire(ps)| && (ps != [] ==> n < |Encode(ps[0])|)
    ensures Records.TickOf(ChunkParser(parse), body, Wire(ps)[..n]) ==
              if InsideSizeLine(ps, n) then Records.Tick(body, Wire(ps)[..n], [Records.DropConnection])
              else if n == |Wire(ps)| then Records.Tick(body, [], [Records.Emit(body)])
              else Records.Tick(body, Wire(ps)[..n], [])
    ensures n == |Wire(ps)| ==> ps == []
  {
    if ps == [] {
      LastIsZero();
      assert Encode(LAST) + [] == Encode(LAST);
      if n > 0 {
        TickAt(parse, LAST, [], n, body);
      }
    } else {
      assert Good(ps[0]);
      if n > 0 {
        TickAt(parse, ps[0], Wire(ps[1..]), n, body);
      }
    }
  }

  /** Once everything is there, no visit finds a size line cut short. */
  lemma {:induction false} NeverInsideAtEnd(n: nat, rounds: seq<Round>)
    requires n >= |Wire([])|
    ensures !VisitsInside([], n, rounds)
    decreases |rounds|
  {
    if rounds != [] {
      NeverInsideAtEnd(if rounds[0].Arrive? then n + |rounds[0].data| else n, rounds[1..]);
    }
  }

  lemma RunSkips(parse: Parse, body: bytes, ps: seq<Piece>, n: nat, rounds: seq<Round>)
    requires Parses(parse)
    requires Carrying(ps, n, rounds) && rounds != [] && rounds[0].Visit? && ps != [] && n >= |Encode(ps[0])|
    ensures var k := |Encode(ps[0])|;
            && Carrying(ps[1..], n - k, rounds)
            && ChunkRun(parse, body, Wire(ps)[..n], rounds) ==
               ChunkRun(parse, body + ps[0].data, Wire(ps[1..])[..n - k], rounds)
  {
    var p, tail := ps[0], Wire(ps[1..]);
    assert Good(p);
    TickAt(parse, p, tail, n, body);
    PrefixPast(Encode(p), tail, n, Arrived(rounds));
    assert Addressable(tail);
  }

  lemma PrefixPast(e: bytes, tail: bytes, n: nat, more: bytes)
    requires |e| <= n <= |e + tail| && (e + tail)[..n] + more <= e + tail
    ensures tail[..n - |e|] + more <= tail
  {
    var w, m := e + tail, n - |e|;
    TakePast(e, tail, n);
    Assoc(e, tail[..m], more);
    var some := tail[..m] + more;
    assert forall i :: 0 <= i < |some| ==> (e + some)[|e| + i] == some[i] && w[|e| + i] == tail[i];
  }

  lemma EndsAsSkips(r: Outcome, body: bytes, ps: seq<Piece>, n: nat, rounds: seq<Round>)
    requires ps != [] && n >= |Encode(ps[0])|
    requires EndsAs(r, body + ps[0].data, ps[1..], n - |Encode(ps[0])|, rounds)
    ensures EndsAs(r, body, ps, n, rounds)
  {
    VisitsSkip(ps, n, rounds);
    Assoc(body, ps[0].data, Body(ps[1..]));
  }

  lemma EndsAsArrives(r: Outcome, body: bytes, ps: seq<Piece>, n: nat, rounds: seq<Round>)
    requires rounds != [] && rounds[0].Arrive?
    requires EndsAs(r, body, ps, n + |rounds[0].data|, rounds[1..])
    ensures EndsAs(r, body, ps, n, rounds)
  {
  }

  /** For every parser that reads pieces. */
  lemma {:induction false} RunGoes(parse: Parse, body: bytes, ps: seq<Piece>, n: nat, rounds: seq<Round>)
    requires Parses(parse)
    requires Carrying(ps, n, rounds)
    ensures EndsAs(ChunkRun(parse, body, Wire(ps)[..n], rounds), body, ps, n, rounds)
    decreases |rounds|, |ps|
  {
    if rounds != [] {
      if rounds[0].Arrive? {
        RunArrives(ps, n, rounds);
        RunGoes(parse, body, ps, n + |rounds[0].data|, rounds[1..]);
        EndsAsArrives(ChunkRun(parse, body, Wire(ps)[..n], rounds), body, ps, n, rounds);
      } else if ps != [] && n >= |Encode(ps[0])| {
        var k := |Encode(ps[0])|;
        RunSkips(parse, body, ps, n, rounds);
        RunGoes(parse, body + ps[0].data, ps[1..], n - k, rounds);
        EndsAsSkips(ChunkRun(parse, body, Wire(ps)[..n], rounds), body, ps, n, rounds);
      } else {
        RunGoes(parse, body, ps, n, rounds[1..]);
        RunVisits(parse, body, ps, n, rounds);
      }
    }
  }

  /**
   The response is lost exactly when some visit finds a size line cut short.  Otherwise it
   comes out with the exact body, all bytes used up, at the first visit after the last
   chunk is in, and not before.
   */
  lemma RunIff(body: bytes, ps: seq<Piece>, n: nat, rounds: seq<Round>)
    requires Carrying(ps, n, rounds)
    ensures EndsAs(ChunkRun(ParseStream, body, Wire(ps)[..n], rounds), body, ps, n, rounds)
  {
    ParseStreamParses();
    RunGoes(ParseStream, body, ps, n, rounds);
  }

  /** From the first byte on. */
  lemma BodyIsRebuilt(ps: seq<Piece>, rounds: seq<Round>)
    requires AllGood(ps) && Addressable(Wire(ps)) && Arrived(rounds) <= Wire(ps)
    ensures EndsAs(ChunkRun(ParseStream, [], [], rounds), [], ps, 0, rounds)
  {
    assert [] + Arrived(rounds) == Arrived(rounds);
    RunIff([], ps, 0, rounds);
  }

  /** A last chunk whose size is written "00" is valid on the wire but is taken for data; no end follows. */
  lemma DoubleZeroIsNotAnEnd(body: bytes)
    ensures var w := Encode(Piece([0x30, 0x30], []));
            Records.TickOf(ChunkParser(ParseStream), body, w) == Records.Tick(body, [], [])
  {
    var p := Piece([0x30, 0x30], []);
    assert p.size[..1] == [0x30] && [0x30 as byte][..0] == [];
    assert HexValue([0x30]) == 0 && HexValue(p.size) == 0;
    var w := Encode(p);
    assert w + [] == w && w[..|w|] == w;
    ParseStreamParses();
    TickAt(ParseStream, p, [], |w|, body);
    assert body + [] == body;
    var none: bytes := [];
    assert none[..0] == none;
  }

  /** A body cut into chunks anywhere, with the sizes written out. */
  function Pieces(cuts: seq<bytes>): (ps: seq<Piece>)
    ensures |ps| == |cuts| && forall i :: 0 <= i < |ps| ==> ps[i] == Piece(SizeLine(|cuts[i]|), cuts[i])
  {
    if cuts == [] then [] else [Piece(SizeLine(|cuts[0]|), cuts[0])] + Pieces(cuts[1..])
  }

  /** Any cut of any body into nonempty chunks is such a wire. */
  lemma {:induction false} AnyCutWorks(cuts: seq<bytes>)
    requires forall c :: c in cuts ==> 0 < |c| < TWO64
    ensures AllGood(Pieces(cuts)) && Body(Pieces(cuts)) == Concat(cuts)
  {
    if cuts != [] {
      SizeLineRoundTrip(|cuts[0]|);
      AnyCutWorks(cuts[1..]);
      assert Pieces(cuts)[1..] == Pieces(cuts[1..]);
    }
  }

  /** An input: a body of no bytes, visited when only the "0" of its last chunk is there. */
  lemma VisitInsideLastSizeLine()
    ensures ChunkRun(ParseStream, [], [], [Arrive([0x30]), Visit, Arrive([CR, LF, CR, LF]), Visit]) == Lost
    ensures ChunkRun(ParseStream, [], [], [Arrive([0x30]), Arrive([CR, LF, CR, LF]), Visit]) == Finished([], [])
  {
    var first, second: Round := Arrive([0x30]), Arrive([CR, LF, CR, LF]);
    ArrivedTwo(first, second);
    BodyIsRebuilt([], [first, Visit, second, Visit]);
    BodyIsRebuilt([], [first, second, Visit]);
    var early, late := [first, Visit, second, Visit], [first, second, Visit];
    assert early[1..][0] == Visit && InsideSizeLine([], 1);
    assert VisitsInside([], 1, early[1..]) && VisitsInside([], 0, early);
    assert late[1..] == [second, Visit] && late[1..][1..] == [Visit] && late[1..][1..][1..] == [];
    assert !VisitsInside([], 5, [Visit]) && VisitsAtEnd(5, 5, [Visit]);
    assert !VisitsInside([], 1, late[1..]) && VisitsAtEnd(5, 1, late[1..]);
    assert !VisitsInside([], 0, late) && VisitsAtEnd(5, 0, late);
  }

  lemma ArrivedTwo(first: Round, second: Round)
    requires first == Arrive([0x30]) && second == Arrive([CR, LF, CR, LF])
    ensures Arrived([first, Visit, second, Visit]) <= Wire([]) && Arrived([first, second, Visit]) <= Wire([])
    ensures Addressable(Wire([])) && |Wire([])| == 5
  {
    var early, late := [first, Visit, second, Visit], [first, second, Visit];
    assert early[1..] == [Visit, second, Visit] && early[1..][1..] == [second, Visit];
    assert late[1..] == [second, Visit] && late[1..][1..] == [Visit] && [Visit][1..] == [];
    assert Arrived([Visit]) == [] + Arrived([]);
    assert Arrived([second, Visit]) == second.data + Arrived([Visit]);
    assert Arrived([Visit, second, Visit]) == [] + Arrived([second, Visit]);
  }

  // ---------- a response from its first byte on ----------

  /** A Content-Length, or -1 without one. */
  type ContentLength = n: int | n >= -1

  /** The library's reading of a response: not all there, refused, chunked, or of some length. */
  datatype ReadOutcome = UnexpectedEof | BadResponse | ChunkedHead | WholeResponse(length: ContentLength, body: bytes)

  type Library = bytes -> ReadOutcome

  predicate BlankLineAt(data: bytes, i: nat) {
    i + 4 <= |data| && data[i] == CR && data[i + 1] == LF && data[i + 2] == CR && data[i + 3] == LF
  }

  /** The first CR LF CR LF. */
  function HeadEnd(data: bytes): (r: Option<nat>)
    ensures r.Some? ==> BlankLineAt(data, r.value) && forall i :: 0 <= i < r.value ==> !BlankLineAt(data, i)
    ensures r.None? ==> forall i :: 0 <= i ==> !BlankLineAt(data, i)
  {
    if |data| < 4 then None
    else if BlankLineAt(data, 0) then Some(0)
    else
      var r := HeadEnd(data[1..]);
      assert forall i :: 0 < i ==> BlankLineAt(data, i) == BlankLineAt(data[1..], i - 1);
      if r.None? then None else Some(r.value + 1)
  }

  /**
   One parser call on a connection's responses: `last` is the body so far of a chunked response
   that is coming in.
   */
  function ResponseCall(
      parse: Parse, read: Library, last: Option<bytes>, stream: bytes): Records.Parsed<Option<bytes>, bytes> {
    if last.Some? then Lift(ChunkCall(parse, last.value, stream)) else
      match read(stream)
      case UnexpectedEof => Records.ParseOk(None, Records.Nothing, 0, false)
      case BadResponse => Records.ParseError
      case ChunkedHead =>
        var idx := HeadEnd(stream);
        if idx.None? then Records.ParseError else Records.ParseOk(Some([]), Records.Item([]), idx.value + 4, false)
      case WholeResponse(length, body) =>
        var idx := HeadEnd(stream);
        if idx.None? then Records.ParseError
        else if idx.value + 4 + length > |stream| then Records.ParseOk(None, Records.Nothing, 0, false)
        else Records.ParseOk(None, Records.Item(body), idx.value + 4 + length, true)
  }

  /** A response that has ended is forgotten. */
  function Lift(r: Records.Parsed<bytes, bytes>): Records.Parsed<Option<bytes>, bytes> {
    match r
    case ParseError => Records.ParseError
    case ParseCrash => Records.ParseCrash
    case ParseOk(body, found, n, eos) => Records.ParseOk(if eos then None else Some(body), found, n, eos)
  }

  function ResponseParser(parse: Parse, read: Library): Records.Parser<Option<bytes>, bytes> {
    Records.Parser((last, stream) => ResponseCall(parse, read, last, stream), _ => true)
  }

  function ResponseVisit(
      parse: Parse, read: Library, last: Option<bytes>, buf: bytes): Records.Tick<Option<bytes>, bytes> {
    Records.TickOf(ResponseParser(parse, read), last, buf)
  }

  function ResponseRun(parse: Parse, read: Library, last: Option<bytes>, buf: bytes, rounds: seq<Round>): Outcome
    decreases |rounds|, 0
  {
    if rounds == [] then Waiting(if last.Some? then last.value else []) else
      match rounds[0]
      case Arrive(data) => ResponseRun(parse, read, last, buf + data, rounds[1..])
      case Visit => AfterResponseVisit(parse, read, ResponseVisit(parse, read, last, buf), rounds[1..])
  }

  function AfterResponseVisit(
    parse: Parse, read: Library, t: Records.Tick<Option<bytes>, bytes>, rounds: seq<Round>): Outcome
    decreases |rounds|, 1
  {
    if t.effects == [] then ResponseRun(parse, read, t.state, t.rest, rounds)
    else if t.effects[0].Emit? then Finished(t.effects[0].m, t.rest)
    else if t.effects[0].Crash? then Crashed
    else Lost
  }

  /** A status line and headers, up to the first blank line, that the library reads, whatever follows. */
  ghost predicate IsHead(read: Library, head: bytes) {
    forall more :: ReadsHead(read, head, more)
  }

  predicate ReadsHead(read: Library, head: bytes, more: bytes) {
    HeadEnd(head) == Some(|head| - 4) && read(head + more) == ChunkedHead
  }

  lemma {:induction false} HeadEndStays(head: bytes, more: bytes)
    requires HeadEnd(head).Some?
    ensures HeadEnd(head + more) == HeadEnd(head)
  {
    if !BlankLineAt(head, 0) {
      assert (head + more)[1..] == head[1..] + more;
      HeadEndStays(head[1..], more);
    }
  }

  /** Inside a chunked response the visits are those of the chunk parser. */
  lemma {:induction false} VisitInBody(parse: Parse, read: Library, body: bytes, buf: bytes)
    ensures var t, u := Records.TickOf(ChunkParser(parse), body, buf), ResponseVisit(parse, read, Some(body), buf);
            u.rest == t.rest && u.effects == t.effects && (t.effects == [] ==> u.state == Some(t.state))
    decreases |buf|
  {
    if buf != [] {
      var r := ChunkCall(parse, body, buf);
      assert ResponseParser(parse, read).parse(Some(body), buf) == Lift(r);
      assert ChunkParser(parse).parse(body, buf) == r;
      if r.ParseOk? && r.consumed > 0 && !r.endOfStream {
        VisitInBody(parse, read, r.state, buf[Min(r.consumed, |buf|)..]);
      }
    }
  }

  lemma {:induction false} RunInBody(parse: Parse, read: Library, body: bytes, buf: bytes, rounds: seq<Round>)
    ensures ResponseRun(parse, read, Some(body), buf, rounds) == ChunkRun(parse, body, buf, rounds)
    decreases |rounds|
  {
    if rounds != [] {
      if rounds[0].Arrive? {
        RunInBody(parse, read, body, buf + rounds[0].data, rounds[1..]);
      } else {
        VisitInBody(parse, read, body, buf);
        var t := Records.TickOf(ChunkParser(parse), body, buf);
        if t.effects == [] {
          RunInBody(parse, read, t.state, t.rest, rounds[1..]);
        }
      }
    }
  }

  /** A visit that finds the whole head reads on behind it. */
  lemma VisitPastHead(parse: Parse, read: Library, head: bytes, more: bytes)
    requires IsHead(read, head)
    ensures ResponseVisit(parse, read, None, head + more) == ResponseVisit(parse, read, Some([]), more)
  {
    var stream := head + more;
    assert ReadsHead(read, head, more);
    HeadEndStays(head, more);
    assert ResponseParser(parse, read).parse(None, stream) ==
           Records.ParseOk(Some([]), Records.Item([]), |head|, false);
    assert stream[|head|..] == more;
    var t := ResponseVisit(parse, read, Some([]), more);
    assert Records.Then([], t) == t by {
      assert [] + t.effects == t.effects;
    }
  }

  /**
   The library is not content to wait when it is given the first `n` bytes of the head: it takes
   a line that is not all there for the whole line, and refuses most of these.
   */
  predicate Refuses(read: Library, head: bytes, n: nat) {
    0 < n < |head| && !read(head[..n]).UnexpectedEof?
  }

  lemma NoBlankLineBefore(head: bytes, n: nat)
    requires HeadEnd(head) == Some(|head| - 4) && n < |head|
    ensures HeadEnd(head[..n]).None?
  {
    var r := HeadEnd(head[..n]);
    if r.Some? {
      assert BlankLineAt(head, r.value);
    }
  }

  /** A visit that finds part of the head waits, or drops the connection. */
  lemma VisitInHead(parse: Parse, read: Library, head: bytes, n: nat)
    requires IsHead(read, head) && n < |head|
    ensures ResponseVisit(parse, read, None, head[..n]) ==
            Records.Tick(None, head[..n], if Refuses(read, head, n) then [Records.DropConnection] else [])
  {
    assert ReadsHead(read, head, []);
    NoBlankLineBefore(head, n);
    if n > 0 {
      assert ResponseParser(parse, read).parse(None, head[..n]) ==
             if Refuses(read, head, n) then Records.ParseError
             else Records.ParseOk(None, Records.Nothing, 0, false);
    }
  }

  /** Some visit comes when the bytes behind the head end inside a size line. */
  predicate VisitsInsideBody(head: nat, ps: seq<Piece>, n: nat, rounds: seq<Round>)
    decreases |rounds|
  {
    if rounds == [] then false
    else if rounds[0].Arrive? then VisitsInsideBody(head, ps, n + |rounds[0].data|, rounds[1..])
    else (n >= head && InsideSizeLine(ps, n - head)) || VisitsInsideBody(head, ps, n, rounds[1..])
  }

  /** Some visit finds a part of the head that the library refuses. */
  predicate VisitsRefused(read: Library, head: bytes, n: nat, rounds: seq<Round>)
    decreases |rounds|
  {
    if rounds == [] then false
    else if rounds[0].Arrive? then VisitsRefused(read, head, n + |rounds[0].data|, rounds[1..])
    else Refuses(read, head, n) || VisitsRefused(read, head, n, rounds[1..])
  }

  function ResponseEnd(read: Library, head: bytes, ps: seq<Piece>, n: nat, rounds: seq<Round>): End {
    EndOf(VisitsRefused(read, head, n, rounds) || VisitsInsideBody(|head|, ps, n, rounds),
          VisitsAtEnd(|head| + |Wire(ps)|, n, rounds))
  }

  /** What a response comes to, by when the visits come. */
  predicate ResponseEndsAs(
    r: Outcome, read: Library, head: bytes, ps: seq<Piece>, n: nat, rounds: seq<Round>)
  {
    Meets(r, ResponseEnd(read, head, ps, n, rounds), Body(ps))
  }

  lemma {:induction false} NothingRefusedBehindHead(
    read: Library, head: bytes, n: nat, rounds: seq<Round>)
    requires n >= |head|
    ensures !VisitsRefused(read, head, n, rounds)
    decreases |rounds|
  {
    if rounds != [] {
      NothingRefusedBehindHead(read, head, if rounds[0].Arrive? then n + |rounds[0].data| else n, rounds[1..]);
    }
  }

  lemma {:induction false} VisitsBehindHead(head: nat, ps: seq<Piece>, n: nat, rounds: seq<Round>)
    requires n >= head
    ensures VisitsInsideBody(head, ps, n, rounds) == VisitsInside(ps, n - head, rounds)
    ensures VisitsAtEnd(head + |Wire(ps)|, n, rounds) == VisitsAtEnd(|Wire(ps)|, n - head, rounds)
    decreases |rounds|
  {
    if rounds != [] {
      VisitsBehindHead(head, ps, if rounds[0].Arrive? then n + |rounds[0].data| else n, rounds[1..]);
    }
  }

  lemma RunBehindHead(parse: Parse, read: Library, head: bytes, more: bytes, rounds: seq<Round>)
    requires IsHead(read, head) && rounds != [] && rounds[0].Visit?
    ensures ResponseRun(parse, read, None, head + more, rounds) == ChunkRun(parse, [], more, rounds)
  {
    VisitPastHead(parse, read, head, more);
    RunInBody(parse, read, [], more, rounds);
  }

  /** The run of a response in terms of its body, and of what the library says to parts of its head. */
  function BodyRun(parse: Parse, read: Library, head: bytes, body: bytes, n: nat, rounds: seq<Round>): Outcome
    decreases |rounds|
  {
    if rounds == [] then Waiting([])
    else if rounds[0].Arrive? then BodyRun(parse, read, head, body, n + |rounds[0].data|, rounds[1..])
    else if Refuses(read, head, n) then Lost
    else if n < |head| then BodyRun(parse, read, head, body, n, rounds[1..])
    else ChunkRun(parse, [], body[..Min(n - |head|, |body|)], rounds)
  }

  lemma MoreArrives(w: bytes, n: nat, rounds: seq<Round>)
    requires n <= |w| && w[..n] + Arrived(rounds) <= w && rounds != [] && rounds[0].Arrive?
    ensures var m := n + |rounds[0].data|;
            m <= |w| && w[..m] + Arrived(rounds[1..]) <= w && w[..n] + rounds[0].data == w[..m]
  {
    var d, later := rounds[0].data, Arrived(rounds[1..]);
    Assoc(w[..n], d, later);
    assert w[..n + |d|] == (w[..n] + Arrived(rounds))[..n + |d|];
  }

  lemma RunInHead(parse: Parse, read: Library, head: bytes, tail: bytes, n: nat, rounds: seq<Round>)
    requires IsHead(read, head) && n < |head| && rounds != [] && rounds[0].Visit?
    ensures var buf := (head + tail)[..n];
            ResponseRun(parse, read, None, buf, rounds) ==
            if Refuses(read, head, n) then Lost else ResponseRun(parse, read, None, buf, rounds[1..])
  {
    assert (head + tail)[..n] == head[..n];
    VisitInHead(parse, read, head, n);
  }

  lemma {:induction false} ResponseRunIs(
    parse: Parse, read: Library, head: bytes, body: bytes, n: nat, rounds: seq<Round>)
    requires IsHead(read, head) && n <= |head + body| && (head + body)[..n] + Arrived(rounds) <= head + body
    ensures ResponseRun(parse, read, None, (head + body)[..n], rounds) == BodyRun(parse, read, head, body, n, rounds)
    decreases |rounds|
  {
    if rounds != [] {
      if rounds[0].Arrive? {
        MoreArrives(head + body, n, rounds);
        ResponseRunIs(parse, read, head, body, n + |rounds[0].data|, rounds[1..]);
      } else if n < |head| {
        RunInHead(parse, read, head, body, n, rounds);
        assert Arrived(rounds) == Arrived(rounds[1..]);
        ResponseRunIs(parse, read, head, body, n, rounds[1..]);
      } else {
        TakePast(head, body, n);
        RunBehindHead(parse, read, head, body[..n - |head|], rounds);
      }
    }
  }

  lemma EndsFromHead(
    r: Outcome, read: Library, head: bytes, ps: seq<Piece>, n: nat, rounds: seq<Round>)
    requires n >= |head| && EndsAs(r, [], ps, n - |head|, rounds)
    ensures ResponseEndsAs(r, read, head, ps, n, rounds)
  {
    VisitsBehindHead(|head|, ps, n, rounds);
    NothingRefusedBehindHead(read, head, n, rounds);
    assert [] + Body(ps) == Body(ps);
  }

  /** A round before the head is there decides nothing, unless the library refuses what is there. */
  lemma EndsLater(r: Outcome, read: Library, head: bytes, ps: seq<Piece>, n: nat, rounds: seq<Round>)
    requires rounds != [] && (rounds[0].Visit? ==> n < |head| && !Refuses(read, head, n))
    requires var m := if rounds[0].Arrive? then n + |rounds[0].data| else n;
             ResponseEndsAs(r, read, head, ps, m, rounds[1..])
    ensures ResponseEndsAs(r, read, head, ps, n, rounds)
  {
  }

  lemma BodyRunPast(parse: Parse, read: Library, head: bytes, ps: seq<Piece>, n: nat, rounds: seq<Round>)
    requires Parses(parse)
    requires AllGood(ps) && Addressable(Wire(ps)) && rounds != [] && rounds[0].Visit?
    requires |head| <= n <= |head + Wire(ps)| && (head + Wire(ps))[..n] + Arrived(rounds) <= head + Wire(ps)
    ensures ResponseEndsAs(BodyRun(parse, read, head, Wire(ps), n, rounds), read, head, ps, n, rounds)
  {
    PrefixPast(head, Wire(ps), n, Arrived(rounds));
    RunGoes(parse, [], ps, n - |head|, rounds);
    EndsFromHead(ChunkRun(parse, [], Wire(ps)[..n - |head|], rounds), read, head, ps, n, rounds);
  }

  /** A round before the head is there. */
  lemma BodyRunLater(parse: Parse, read: Library, head: bytes, ps: seq<Piece>, n: nat, rounds: seq<Round>)
    requires rounds != [] && (rounds[0].Visit? ==> n < |head| && !Refuses(read, head, n))
    requires var m := if rounds[0].Arrive? then n + |rounds[0].data| else n;
             ResponseEndsAs(BodyRun(parse, read, head, Wire(ps), m, rounds[1..]), read, head, ps, m, rounds[1..])
    ensures ResponseEndsAs(BodyRun(parse, read, head, Wire(ps), n, rounds), read, head, ps, n, rounds)
  {
    var m := if rounds[0].Arrive? then n + |rounds[0].data| else n;
    EndsLater(BodyRun(parse, read, head, Wire(ps), m, rounds[1..]), read, head, ps, n, rounds);
  }

  lemma {:induction false} BodyRunIff(
    parse: Parse, read: Library, head: bytes, ps: seq<Piece>, n: nat, rounds: seq<Round>)
    requires Parses(parse)
    requires AllGood(ps) && Addressable(Wire(ps))
    requires n <= |head + Wire(ps)| && (head + Wire(ps))[..n] + Arrived(rounds) <= head + Wire(ps)
    ensures ResponseEndsAs(BodyRun(parse, read, head, Wire(ps), n, rounds), read, head, ps, n, rounds)
    decreases |rounds|
  {
    if rounds != [] {
      if rounds[0].Visit? && n >= |head| {
        BodyRunPast(parse, read, head, ps, n, rounds);
      } else if rounds[0].Arrive? {
        MoreArrives(head + Wire(ps), n, rounds);
        BodyRunIff(parse, read, head, ps, n + |rounds[0].data|, rounds[1..]);
        BodyRunLater(parse, read, head, ps, n, rounds);
      } else if !Refuses(read, head, n) {
        assert Arrived(rounds) == Arrived(rounds[1..]);
        BodyRunIff(parse, read, head, ps, n, rounds[1..]);
        BodyRunLater(parse, read, head, ps, n, rounds);
      }
    }
  }

  /**
   A chunked response, head and body, for every library: lost exactly when some visit finds a
   part of the head that the library refuses or a size line cut short, else emitted with the
   exact body at the first visit after the last chunk is in.
   */
  lemma ResponseIff(read: Library, head: bytes, ps: seq<Piece>, n: nat, rounds: seq<Round>)
    requires IsHead(read, head) && AllGood(ps) && Addressable(Wire(ps))
    requires n <= |head + Wire(ps)| && (head + Wire(ps))[..n] + Arrived(rounds) <= head + Wire(ps)
    ensures ResponseEndsAs(
              ResponseRun(ParseStream, read, None, (head + Wire(ps))[..n], rounds), read, head, ps, n, rounds)
  {
    ParseStreamParses();
    ResponseGoes(ParseStream, read, head, ps, n, rounds);
  }

  lemma ResponseGoes(parse: Parse, read: Library, head: bytes, ps: seq<Piece>, n: nat, rounds: seq<Round>)
    requires Parses(parse) && IsHead(read, head) && AllGood(ps) && Addressable(Wire(ps))
    requires n <= |head + Wire(ps)| && (head + Wire(ps))[..n] + Arrived(rounds) <= head + Wire(ps)
    ensures ResponseEndsAs(
              ResponseRun(parse, read, None, (head + Wire(ps))[..n], rounds), read, head, ps, n, rounds)
  {
    ResponseRunIs(parse, read, head, Wire(ps), n, rounds);
    BodyRunIff(parse, read, head, ps, n, rounds);
  }

  lemma {:induction false} EndIsOutside(ps: seq<Piece>)
    ensures !InsideSizeLine(ps, |Wire(ps)|)
  {
    if ps != [] {
      EndIsOutside(ps[1..]);
    }
  }

  /** One visit, when everything is there. */
  lemma OneVisitReadsAll(read: Library, head: bytes, ps: seq<Piece>)
    requires IsHead(read, head) && AllGood(ps) && Addressable(Wire(ps))
    ensures ResponseRun(ParseStream, read, None, head + Wire(ps), [Visit]) == Finished(Body(ps), [])
  {
    var w := Wire(ps);
    RunBehindHead(ParseStream, read, head, w, [Visit]);
    assert Arrived([Visit]) == [] + Arrived([Visit][1..]) && w[..|w|] == w && w + [] == w;
    RunIff([], ps, |w|, [Visit]);
    EndIsOutside(ps);
    assert [Visit][1..] == [] && !VisitsInside(ps, |w|, [Visit]) && VisitsAtEnd(|w|, |w|, [Visit]);
    assert [] + Body(ps) == Body(ps);
  }

  /** An input: a visit after the first byte of a response, which makes no status line. */
  lemma VisitAfterFirstByte(read: Library, head: bytes, ps: seq<Piece>)
    requires IsHead(read, head) && AllGood(ps) && Addressable(Wire(ps))
    requires |head| > 1 && read(head[..1]) == BadResponse
    ensures var first, rest := Arrive(head[..1]), Arrive(head[1..] + Wire(ps));
            && ResponseRun(ParseStream, read, None, [], [first, Visit, rest, Visit]) == Lost
            && ResponseRun(ParseStream, read, None, [], [first, rest, Visit]) == Finished(Body(ps), [])
  {
    var first, rest := Arrive(head[..1]), Arrive(head[1..] + Wire(ps));
    var early, late := [first, Visit, rest, Visit], [first, rest, Visit];
    assert [] + head[..1] == head[..1] && early[1..][0] == Visit;
    VisitInHead(ParseStream, read, head, 1);
    assert ResponseRun(ParseStream, read, None, head[..1], early[1..]) == Lost;
    assert late[1..] == [rest, Visit] && late[1..][1..] == [Visit];
    assert head[..1] + (head[1..] + Wire(ps)) == head + Wire(ps);
    OneVisitReadsAll(read, head, ps);
  }
}
