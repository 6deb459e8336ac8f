/**
 Capture of plaintext (tls/ssl_common.h): the bytes of one SSL call leave the kernel in
 events of at most 64 KiB.
 */
module Capture {
  import opened Common

  const MAX_LOOP := 64
  const MAX_BODY_SIZE := 65536
  const MAX_BYTES := MAX_LOOP * MAX_BODY_SIZE

  // ---------- one call ----------

  /** The events of at most `loops` turns; a turn without room is spent and the bytes are tried again. */
  function Events(room: nat -> bool, turn: nat, loops: nat, data: bytes): seq<bytes>
    decreases loops
  {
    if loops == 0 || data == [] then []
    else if !room(turn) then Events(room, turn + 1, loops - 1, data)
    else
      var n := Min(|data|, MAX_BODY_SIZE);
      [data[..n]] + Events(room, turn + 1, loops - 1, data[n..])
  }

  /** How many of the next turns find room. */
  function Successes(room: nat -> bool, turn: nat, loops: nat): nat
    decreases loops
  {
    if loops == 0 then 0 else (if room(turn) then 1 else 0) + Successes(room, turn + 1, loops - 1)
  }

  method EmitSslEvents(room: nat -> bool, loops: nat, data: bytes) returns (events: seq<bytes>)
    ensures events == Events(room, 0, loops, data[..Min(|data|, loops * MAX_BODY_SIZE)])
  {
    var remaining := Min(|data|, loops * MAX_BODY_SIZE);
    var buf, turn := 0, 0;
    events := [];
    ghost var all := data[..remaining];
    assert all[0..] == all;
    while turn < loops
      invariant 0 <= turn <= loops && 0 <= buf && 0 <= remaining && buf + remaining == |all|
      invariant Events(room, 0, loops, all) == events + Events(room, turn, loops - turn, all[buf..])
    {
      var length := remaining;
      if length == 0 {
        break;
      }
      if length > MAX_BODY_SIZE {
        length := MAX_BODY_SIZE;
      }
      if room(turn) {
        assert all[buf..][..length] == data[buf..buf + length] && all[buf..][length..] == all[buf + length..];
        events := events + [data[buf..buf + length]];
        buf, remaining := buf + length, remaining - length;
      }
      turn := turn + 1;
    }
  }

  /** The events are the bytes from the front on, without a gap, as far as the room goes. */
  lemma {:induction false} EventsArePrefix(room: nat -> bool, turn: nat, loops: nat, data: bytes)
    ensures Concat(Events(room, turn, loops, data)) ==
              data[..Min(|data|, Successes(room, turn, loops) * MAX_BODY_SIZE)]
    decreases loops
  {
    if loops > 0 && data != [] {
      if !room(turn) {
        EventsArePrefix(room, turn + 1, loops - 1, data);
      } else {
        var n, k := Min(|data|, MAX_BODY_SIZE), Successes(room, turn + 1, loops - 1);
        EventsArePrefix(room, turn + 1, loops - 1, data[n..]);
        var m := Min(|data| - n, k * MAX_BODY_SIZE);
        assert data[..n] + data[n..][..m] == data[..n + m];
      }
    }
  }

  predicate FullButLast(es: seq<bytes>) {
    forall i :: 0 <= i < |es| ==> 0 < |es[i]| <= MAX_BODY_SIZE && (i < |es| - 1 ==> |es[i]| == MAX_BODY_SIZE)
  }

  /** Every event is full but the last, and none is empty. */
  lemma {:induction false} EventsAreFull(room: nat -> bool, turn: nat, loops: nat, data: bytes)
    ensures FullButLast(Events(room, turn, loops, data))
    decreases loops
  {
    if loops > 0 && data != [] {
      var n := if room(turn) then Min(|data|, MAX_BODY_SIZE) else 0;
      assert data[0..] == data;
      EventsAreFull(room, turn + 1, loops - 1, data[n..]);
      if room(turn) {
        var es, rest := Events(room, turn, loops, data), Events(room, turn + 1, loops - 1, data[n..]);
        assert n < MAX_BODY_SIZE ==> rest == [];
        assert forall i :: 0 < i < |es| ==> es[i] == rest[i - 1];
      }
    }
  }

  lemma {:induction false} AtMostLoops(room: nat -> bool, turn: nat, loops: nat)
    ensures Successes(room, turn, loops) <= loops
    ensures (forall i :: room(i)) ==> Successes(room, turn, loops) == loops
    decreases loops
  {
    if loops > 0 {
      AtMostLoops(room, turn + 1, loops - 1);
    }
  }

  /** What one call adds to its record. */
  function Captured(room: nat -> bool, data: bytes): bytes {
    Concat(Events(room, 0, MAX_LOOP, data[..Min(|data|, MAX_BYTES)]))
  }

  /** Everything is captured exactly when the turns with room suffice; 4 MiB always do when none fails. */
  lemma CapturedAllIff(room: nat -> bool, data: bytes)
    ensures Captured(room, data) <= data
    ensures Captured(room, data) == data <==> |data| <= Successes(room, 0, MAX_LOOP) * MAX_BODY_SIZE
    ensures (forall i :: room(i)) ==> (Captured(room, data) == data <==> |data| <= MAX_BYTES)
  {
    var first := data[..Min(|data|, MAX_BYTES)];
    EventsArePrefix(room, 0, MAX_LOOP, first);
    AtMostLoops(room, 0, MAX_LOOP);
    CaptureArithmetic(room, data, first, Successes(room, 0, MAX_LOOP));
  }

  lemma CaptureArithmetic(room: nat -> bool, data: bytes, first: bytes, k: nat)
    requires first == data[..Min(|data|, MAX_BYTES)] && k <= MAX_LOOP
    ensures var got := first[..Min(|first|, k * MAX_BODY_SIZE)];
            got <= data && (got == data <==> |data| <= k * MAX_BODY_SIZE)
  {
    var got := first[..Min(|first|, k * MAX_BODY_SIZE)];
    assert got == data[..|got|];
    if |data| <= k * MAX_BODY_SIZE {
      assert got == data[..|data|] == data;
    }
  }
}
