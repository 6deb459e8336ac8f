/**
 The connection probes (tcpconn/tcpconn.bpf.c): a connect is remembered by socket in the
 caller's context, and joined to the state change that later completes it.
 */
module TcpConn {
  import opened Common

  const AF_INET := 2
  const AF_INET6 := 10
  const TCP_ESTABLISHED := 1
  const TCP_SYN_SENT := 2

  /** Who called connect. */
  datatype Meta = Meta(pidTgid: nat, uidGid: nat, cgroup: nat, comm: bytes)

  /** What the kernel's socket holds when its state is about to change. */
  datatype Sock = Sock(state: nat, family: nat, dport: nat, v4: bytes, v6: bytes)

  datatype Event = Event(meta: Meta, family: nat, dport: nat, daddr: bytes)

  /** Sockets are addresses, 0 is none.  `room` says whether the ring buffer takes an event. */
  datatype Probe =
    | Connect(sk: nat, meta: Meta)
    | Close(sk: nat)
    | SetState(sk: nat, next: int, sock: Sock, room: bool)
    | Evict(sk: nat)

  // ---------- what the trace says ----------

  /** A pending connect of the socket succeeds here. */
  predicate Completes(p: Probe, sk: nat) {
    && p.SetState? && p.sk == sk && p.next == TCP_ESTABLISHED && p.sock.state == TCP_SYN_SENT
    && (p.sock.family == AF_INET || p.sock.family == AF_INET6)
  }

  /** A pending connect of the socket is over here: completed, failed, closed or evicted. */
  predicate Ends(p: Probe, sk: nat) {
    || ((p.Close? || p.Evict?) && p.sk == sk)
    || Completes(p, sk)
    || (p.SetState? && p.sk == sk && p.next != TCP_ESTABLISHED && p.sock.state == TCP_SYN_SENT)
  }

  predicate Connects(p: Probe, sk: nat) {
    p.Connect? && p.sk == sk != 0
  }

  /** The connect that a socket is waiting for before probe number `n`. */
  function Pending(trace: seq<Probe>, n: nat, sk: nat): (c: Option<nat>)
    requires n <= |trace|
    ensures c.Some? ==> c.value < n && Connects(trace[c.value], sk)
  {
    if n == 0 then None
    else if Connects(trace[n - 1], sk) then Some(n - 1)
    else if Ends(trace[n - 1], sk) then None
    else Pending(trace, n - 1, sk)
  }

  /** It is the latest one, nothing ended it since, and without one every connect of the socket was ended. */
  lemma {:induction false} PendingIsLatest(trace: seq<Probe>, n: nat, sk: nat)
    requires n <= |trace|
    ensures var c := Pending(trace, n, sk);
            && (c.Some? ==> forall i :: c.value < i < n ==> !Connects(trace[i], sk) && !Ends(trace[i], sk))
            && (c.None? ==>
                  forall i :: 0 <= i < n && Connects(trace[i], sk) ==> exists j :: i < j < n && Ends(trace[j], sk))
  {
    if n > 0 {
      PendingIsLatest(trace, n - 1, sk);
    }
  }

  /** Probe number `i` reports connect number `c`. */
  predicate Reports(trace: seq<Probe>, i: nat, c: nat)
    requires i < |trace|
  {
    trace[i].SetState? && Completes(trace[i], trace[i].sk) && trace[i].room && Pending(trace, i, trace[i].sk) == Some(c)
  }

  /** An address fills the first bytes of sixteen. */
  function Address(sock: Sock): bytes {
    if sock.family == AF_INET then sock.v4 + Zeros(16 - Min(|sock.v4|, 16)) else sock.v6
  }

  function Zeros(n: nat): (z: bytes)
    ensures |z| == n && forall i :: 0 <= i < n ==> z[i] == 0
  {
    if n == 0 then [] else [0] + Zeros(n - 1)
  }

  function Report(meta: Meta, sock: Sock): Event {
    Event(meta, sock.family, sock.dport, Address(sock))
  }

  /** The reports of a run, in order. */
  function EventsOf(trace: seq<Probe>, n: nat): seq<Event>
    requires n <= |trace|
  {
    if n == 0 then [] else EventsOf(trace, n - 1) + EventAt(trace, n - 1)
  }

  /** What probe number `i` adds to the events. */
  function EventAt(trace: seq<Probe>, i: nat): seq<Event>
    requires i < |trace|
  {
    var c := Pending(trace, i, trace[i].sk);
    if c.Some? && Reports(trace, i, c.value) then [Report(trace[c.value].meta, trace[i].sock)] else []
  }

  /** The sixteen bytes of an event: an IPv4 address and zeros, or an IPv6 address. */
  lemma AddressIsPadded(sock: Sock)
    requires |sock.v4| == 4 && |sock.v6| == 16
    ensures |Address(sock)| == 16
    ensures sock.family == AF_INET ==>
              Address(sock)[..4] == sock.v4 && forall i :: 4 <= i < 16 ==> Address(sock)[i] == 0
    ensures sock.family == AF_INET6 ==> Address(sock) == sock.v6
  {
  }

  /** Event number `k` of a run reports connect number `c`, completed by probe number `i`. */
  predicate Explains(trace: seq<Probe>, n: nat, k: nat, i: nat, c: nat)
    requires n <= |trace|
  {
    && c < i < n && Reports(trace, i, c)
    && k == |EventsOf(trace, i)| && k < |EventsOf(trace, n)|
    && EventsOf(trace, n)[k] == Report(trace[c].meta, trace[i].sock)
  }

  lemma {:induction false} EventsGrow(trace: seq<Probe>, i: nat, n: nat)
    requires i <= n <= |trace|
    ensures EventsOf(trace, i) <= EventsOf(trace, n)
    decreases n
  {
    if i < n {
      EventsGrow(trace, i, n - 1);
    }
  }

  /**
   Every event of every run comes from a step from SYN_SENT to ESTABLISHED, and carries the
   identity of the latest connect on that socket, which nothing ended in between.
   */
  lemma {:induction false} EventsAreAttributed(trace: seq<Probe>, n: nat, k: nat) returns (i: nat, c: nat)
    requires n <= |trace| && k < |EventsOf(trace, n)|
    ensures Explains(trace, n, k, i, c)
    ensures Completes(trace[i], trace[i].sk) && Connects(trace[c], trace[i].sk)
    ensures forall j :: c < j < i ==> !Connects(trace[j], trace[i].sk) && !Ends(trace[j], trace[i].sk)
    decreases n
  {
    if k < |EventsOf(trace, n - 1)| {
      i, c := EventsAreAttributed(trace, n - 1, k);
    } else {
      i, c := n - 1, Pending(trace, n - 1, trace[n - 1].sk).value;
      PendingIsLatest(trace, i, trace[i].sk);
    }
  }

  /** No connect is reported twice: different events name different connects. */
  lemma ConnectsAreReportedOnce(trace: seq<Probe>, n: nat, k: nat, i: nat, l: nat, j: nat, c: nat)
    requires n <= |trace| && Explains(trace, n, k, i, c) && Explains(trace, n, l, j, c)
    ensures k == l && i == j
  {
    assert trace[i].sk == trace[c].sk == trace[j].sk;
    PendingIsLatest(trace, i, trace[i].sk);
    PendingIsLatest(trace, j, trace[j].sk);
    assert Ends(trace[i], trace[j].sk) && Ends(trace[j], trace[i].sk);
  }

  /** A completed connect is the next event of the run, unless the ring buffer was full. */
  lemma CompletionsAreReported(trace: seq<Probe>, n: nat, c: nat, i: nat, sk: nat)
    requires c < i < n <= |trace| && Connects(trace[c], sk) && Completes(trace[i], sk) && trace[i].room
    requires forall k :: c < k < i ==> !Connects(trace[k], sk) && !Ends(trace[k], sk)
    ensures Explains(trace, n, |EventsOf(trace, i)|, i, c)
  {
    PendingIs(trace, c, i, sk);
    ReportIsEvent(trace, i, c);
    EventsGrow(trace, i + 1, n);
  }

  lemma PendingIs(trace: seq<Probe>, c: nat, i: nat, sk: nat)
    requires c < i <= |trace| && Connects(trace[c], sk)
    requires forall k :: c < k < i ==> !Connects(trace[k], sk) && !Ends(trace[k], sk)
    ensures Pending(trace, i, sk) == Some(c)
  {
    PendingIsLatest(trace, i, sk);
  }

  lemma ReportIsEvent(trace: seq<Probe>, i: nat, c: nat)
    requires i < |trace| && Reports(trace, i, c)
    ensures EventsOf(trace, i + 1) == EventsOf(trace, i) + [Report(trace[c].meta, trace[i].sock)]
  {
  }

  /** What comes later does not change what a run said. */
  lemma {:induction false} LaterPending(trace: seq<Probe>, all: seq<Probe>, n: nat, sk: nat)
    requires n <= |trace| && trace <= all
    ensures Pending(all, n, sk) == Pending(trace, n, sk)
  {
    if n > 0 {
      LaterPending(trace, all, n - 1, sk);
    }
  }

  lemma {:induction false} LaterEvents(trace: seq<Probe>, all: seq<Probe>, n: nat)
    requires n <= |trace| && trace <= all
    ensures EventsOf(all, n) == EventsOf(trace, n)
  {
    if n > 0 {
      LaterEvents(trace, all, n - 1);
      LaterEventAt(trace, all, n - 1);
    }
  }

  lemma LaterEventAt(trace: seq<Probe>, all: seq<Probe>, i: nat)
    requires i < |trace| && trace <= all
    ensures EventAt(all, i) == EventAt(trace, i)
  {
    LaterPending(trace, all, i, trace[i].sk);
    var c := Pending(trace, i, trace[i].sk);
    if c.Some? {
      assert Reports(all, i, c.value) == Reports(trace, i, c.value);
    }
  }

  /** The table holds the pending connects of the run so far. */
  ghost predicate Tracks(inflight: map<nat, Meta>, trace: seq<Probe>) {
    forall sk :: Holds(inflight, trace, sk)
  }

  predicate Holds(inflight: map<nat, Meta>, trace: seq<Probe>, sk: nat) {
    var c := Pending(trace, |trace|, sk);
    (sk in inflight <==> c.Some?) && (c.Some? ==> inflight[sk] == trace[c.value].meta)
  }

  function Next(inflight: map<nat, Meta>, p: Probe): map<nat, Meta> {
    if Connects(p, p.sk) then inflight[p.sk := p.meta] else if Ends(p, p.sk) then inflight - {p.sk} else inflight
  }

  function Sent(inflight: map<nat, Meta>, p: Probe): seq<Event> {
    if p.SetState? && Completes(p, p.sk) && p.room && p.sk in inflight then [Report(inflight[p.sk], p.sock)] else []
  }

  lemma HoldsNext(inflight: map<nat, Meta>, trace: seq<Probe>, p: Probe, sk: nat)
    requires Holds(inflight, trace, sk) && Pending(trace + [p], |trace|, sk) == Pending(trace, |trace|, sk)
    ensures Holds(Next(inflight, p), trace + [p], sk)
  {
  }

  lemma TracksNext(inflight: map<nat, Meta>, trace: seq<Probe>, p: Probe)
    requires Tracks(inflight, trace)
    ensures Tracks(Next(inflight, p), trace + [p])
  {
    forall sk ensures Holds(Next(inflight, p), trace + [p], sk) {
      LaterPending(trace, trace + [p], |trace|, sk);
      HoldsNext(inflight, trace, p, sk);
    }
  }

  lemma EventsNext(inflight: map<nat, Meta>, trace: seq<Probe>, p: Probe)
    requires Holds(inflight, trace, p.sk)
    ensures EventAt(trace + [p], |trace|) == Sent(inflight, p)
  {
    LaterPending(trace, trace + [p], |trace|, p.sk);
  }

  lemma Extend(inflight: map<nat, Meta>, trace: seq<Probe>, p: Probe)
    requires Tracks(inflight, trace)
    ensures 0 !in inflight
    ensures Tracks(Next(inflight, p), trace + [p])
    ensures EventsOf(trace + [p], |trace| + 1) == EventsOf(trace, |trace|) + Sent(inflight, p)
  {
    TracksNext(inflight, trace, p);
    assert Holds(inflight, trace, p.sk) && Holds(inflight, trace, 0);
    EventsNext(inflight, trace, p);
    LaterEvents(trace, trace + [p], |trace|);
  }

  // ---------- the probes ----------

  class ConnectionTracer {
    var inflight: map<nat, Meta>
    var events: seq<Event>
    ghost var trace: seq<Probe>

    ghost predicate Valid()
      reads this
    {
      Tracks(inflight, trace) && events == EventsOf(trace, |trace|)
    }

    constructor ()
      ensures Valid() && trace == [] && events == []
    {
      inflight, events, trace := map[], [], [];
    }

    /** The run goes on by one probe: what the table and the events then have to be. */
    ghost method Note(p: Probe)
      requires Valid()
      modifies this`trace
      ensures trace == old(trace) + [p] && 0 !in inflight
      ensures Tracks(Next(inflight, p), trace) && EventsOf(trace, |trace|) == events + Sent(inflight, p)
    {
      Extend(inflight, trace, p);
      trace := trace + [p];
    }

    method RememberConnect(sk: nat, meta: Meta)
      requires Valid()
      modifies this
      ensures Valid() && trace == old(trace) + [Connect(sk, meta)] && events == old(events)
    {
      Note(Connect(sk, meta));
      if sk != 0 {
        inflight := inflight[sk := meta];
      }
    }

    method TcpClose(sk: nat)
      requires Valid()
      modifies this
      ensures Valid() && trace == old(trace) + [Close(sk)] && events == old(events)
    {
      Note(Close(sk));
      assert sk == 0 ==> inflight - {sk} == inflight;
      if sk != 0 {
        inflight := inflight - {sk};
      }
    }

    /** The table is bounded and may forget its least recently used entry. */
    method LruEvict(sk: nat)
      requires Valid()
      modifies this
      ensures Valid() && trace == old(trace) + [Evict(sk)] && events == old(events)
    {
      Note(Evict(sk));
      inflight := inflight - {sk};
    }

    /** Reports at most one event, that of the pending connect. */
    method TcpSetState(sk: nat, next: int, sock: Sock, room: bool)
      requires Valid()
      modifies this
      ensures Valid() && trace == old(trace) + [SetState(sk, next, sock, room)]
    {
      Note(SetState(sk, next, sock, room));
      assert sk !in inflight ==> inflight - {sk} == inflight;
      if sk == 0 || sk !in inflight {
        return;
      }
      var meta := inflight[sk];
      if next != TCP_ESTABLISHED {
        if sock.state == TCP_SYN_SENT {
          inflight := inflight - {sk};
        }
        return;
      }
      if sock.state != TCP_SYN_SENT {
        return;
      }
      if sock.family != AF_INET && sock.family != AF_INET6 {
        return;
      }
      if room {
        events := events + [Report(meta, sock)];
      }
      inflight := inflight - {sk};
    }
  }
}
